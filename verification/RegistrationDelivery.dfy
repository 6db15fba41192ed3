/**
The endpoint on the claim and the endpoint core has, for every MCPServer, key-pinned or plain and changing
between the two: exactly when they differ.
*/
module RegistrationDelivery {
  import opened Wrappers
  import opened RegistrationProtocol
  import opened RegistrationSafety
  import opened RegistrationRuns
  import opened RegistrationEndpoint

  /** Core has the CR's own entry at another endpoint than the claim records, and the claim does not read "discovered". */
  predicate Elsewhere(c: Cr, slot: Slot) {
    Holds(c, slot.lease) && Mine(c, slot) && slot.lease.value.endpoint !in {slot.server.value.endpoint, DISCOVERED}
  }

  /** What a pass relies on besides `Local`. */
  predicate EndpointLocal(c: Cr, slot: Slot, pc: Pc) {
    && (pc.AskHealth? && pc.claim.Some? ==> pc.claim.value.endpoint == pc.input.endpoint)
    && (pc.Register? ==> pc.held.endpoint == pc.input.endpoint)
    && (pc.RecordDelivery? && Mine(c, slot) ==> slot.server.value.endpoint == pc.input.endpoint)
  }

  /** Core takes the delivery of an endpoint. */
  predicate Delivers(slot: Slot, pc: Pc, r: Reply) {
    TookEffect(r) && pc.Deliver? && slot.server.Some? && CoreTakesUpdate(pc.input, slot.server.value, pc.moving)
  }

  /** An endpoint is delivered that the claim does not record, or recorded over an entry still at another. */
  predicate Parts(c: Cr, slot: Slot, pc: Pc, r: Reply) {
    || (Delivers(slot, pc, r) && pc.held.endpoint !in {pc.input.endpoint, DISCOVERED})
    || (TookEffect(r) && pc.PlainRecord? && Mine(c, slot) && pc.input.endpoint !in {slot.server.value.endpoint, DISCOVERED})
  }

  /** The endpoint is recorded or delivered, the entry removed, or the name given back. */
  predicate Rejoins(slot: Slot, pc: Pc, r: Reply) {
    Withdraws(pc, r) || Delivers(slot, pc, r) || (TookEffect(r) && (pc.RecordDelivery? || pc.PlainRecord?))
  }

  lemma ClaimCallParts(c: Cr, slot: Slot, pc: Pc, r: Reply, abandoned: bool)
    requires Local(c, slot, pc, abandoned) && EndpointLocal(c, slot, pc) && !Reads(pc) && !CallsCore(pc)
    ensures var e := AnswerClaim(c, slot, pc, r); EndpointLocal(c, e.slot, e.pc)
    ensures Elsewhere(c, AnswerClaim(c, slot, pc, r).slot) <==>
      Parts(c, slot, pc, r) || (Elsewhere(c, slot) && !Rejoins(slot, pc, r))
  {
  }

  lemma CoreCallParts(c: Cr, slot: Slot, pc: Pc, r: Reply, abandoned: bool)
    requires Local(c, slot, pc, abandoned) && EndpointLocal(c, slot, pc) && CallsCore(pc)
    ensures var e := AnswerCore(c, slot, pc, r); EndpointLocal(c, e.slot, e.pc)
    ensures Elsewhere(c, AnswerCore(c, slot, pc, r).slot) <==>
      Parts(c, slot, pc, r) || (Elsewhere(c, slot) && !Rejoins(slot, pc, r))
  {
  }

  lemma ReadKeepsEndpoint(c: Cr, slot: Slot, pc: Pc, r: Reply, abandoned: bool)
    requires Local(c, slot, pc, abandoned) && EndpointLocal(c, slot, pc) && Reads(pc)
    ensures EndpointLocal(c, slot, AnswerRead(c, slot, pc, r))
  {
  }

  lemma CallParts(c: Cr, slot: Slot, pc: Pc, r: Reply, abandoned: bool)
    requires Local(c, slot, pc, abandoned) && EndpointLocal(c, slot, pc)
    ensures var e := Answer(c, slot, pc, r); EndpointLocal(c, e.slot, e.pc)
    ensures Elsewhere(c, Answer(c, slot, pc, r).slot) <==>
      Parts(c, slot, pc, r) || (Elsewhere(c, slot) && !Rejoins(slot, pc, r))
  {
    hide AnswerRead, AnswerClaim, AnswerCore, Local, EndpointLocal, Elsewhere;
    if CallsCore(pc) {
      CoreCallParts(c, slot, pc, r, abandoned);
    } else if !Reads(pc) {
      ClaimCallParts(c, slot, pc, r, abandoned);
    } else {
      ReadKeepsEndpoint(c, slot, pc, r, abandoned);
    }
  }

  lemma OthersKeepEndpoint(c: Cr, before: Slot, after: Slot, pc: Pc)
    requires EndpointLocal(c, before, pc) && OthersMayDo(c, before, after)
    ensures EndpointLocal(c, after, pc)
  {
  }

  function Partings(c: Cr): Change {
    (w: World, l: Label) => l.Answered? && l.cr == c && Parts(c, SlotOf(w, c.name), PcOf(w, c), l.reply)
  }

  function Rejoinings(c: Cr): Change {
    (w: World, l: Label) =>
      || ((l.OutsideAdds? || l.OutsideRemoves?) && l.name == c.name)
      || (l.Answered? && l.cr == c && Rejoins(SlotOf(w, c.name), PcOf(w, c), l.reply))
  }

  lemma StepKeepsEndpoint(w: World, l: Label, c: Cr)
    requires Inv(w) && EndpointLocal(c, SlotOf(w, c.name), PcOf(w, c))
    ensures var w' := Step(w, l); EndpointLocal(c, SlotOf(w', c.name), PcOf(w', c))
  {
    if l.Answered? {
      hide Answer, Local, EndpointLocal;
      var slot, pc := SlotOf(w, c.name), PcOf(w, l.cr);
      assert Local(l.cr, SlotOf(w, l.cr.name), pc, l.cr in w.abandoned);
      if l.cr == c {
        CallParts(c, slot, pc, l.reply, c in w.abandoned);
      } else if l.cr.name == c.name {
        StepIsWhatOthersMayDo(c, l.cr, slot, pc, l.reply, l.cr in w.abandoned);
        OthersKeepEndpoint(c, slot, Answer(l.cr, slot, pc, l.reply).slot, PcOf(w, c));
      }
    }
  }

  lemma StepParts(w: World, l: Label, c: Cr)
    requires Inv(w) && EndpointLocal(c, SlotOf(w, c.name), PcOf(w, c))
    ensures Elsewhere(c, SlotOf(Step(w, l), c.name)) <==>
      Partings(c)(w, l) || (Elsewhere(c, SlotOf(w, c.name)) && !Rejoinings(c)(w, l))
  {
    if l.Answered? {
      hide Answer, Local, EndpointLocal, Parts, Rejoins;
      var slot, pc := SlotOf(w, c.name), PcOf(w, l.cr);
      assert Local(l.cr, SlotOf(w, l.cr.name), pc, l.cr in w.abandoned);
      if l.cr == c {
        CallParts(c, slot, pc, l.reply, c in w.abandoned);
      } else if l.cr.name == c.name {
        OthersLeaveTheHeld(c, l.cr, slot, pc, l.reply, l.cr in w.abandoned);
      }
    }
  }

  /**
  At every point of every run, core has a CR's own entry at another endpoint than its claim records, if and
  only if it took a delivery the claim did not record, or an endpoint was recorded over an entry left at
  another, and since then nothing was recorded, delivered, removed or given back.
  */
  lemma {:induction false} ElsewhereIff(labels: seq<Label>, c: Cr)
    ensures var w := Exec(INITIAL, labels); EndpointLocal(c, SlotOf(w, c.name), PcOf(w, c))
    ensures Elsewhere(c, SlotOf(Exec(INITIAL, labels), c.name)) <==> Stands(labels, Partings(c), Rejoinings(c))
    decreases |labels|
  {
    if labels != [] {
      var n := |labels| - 1;
      ElsewhereIff(labels[..n], c);
      EveryRunIsSafe(labels[..n]);
      LastLabel(labels, n);
      StepKeepsEndpoint(At(labels, n), labels[n], c);
      StepParts(At(labels, n), labels[n], c);
      StandsStep(labels, Partings(c), Rejoinings(c), n);
    }
  }
}

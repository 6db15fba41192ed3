/**
"Started" on a claim, for every MCPServer: exactly when no start has been seen since the endpoint that the
claim records, and exactly when the entry core has now was never started.
*/
module RegistrationStarts {
  import opened Wrappers
  import opened RegistrationProtocol
  import opened RegistrationSafety
  import opened RegistrationRuns
  import opened RegistrationEndpoint

  // ---- "Started" kept for an endpoint that was never started ----

  /** The claim says started, and core took no start since the endpoint on it was recorded. */
  predicate Carried(c: Cr, slot: Slot) {
    Holds(c, slot.lease) && slot.lease.value.started && !slot.startSeen
  }

  /** A delivery in place is recorded on a claim that says started. */
  predicate Carries(pc: Pc, r: Reply) {
    pc.RecordDelivery? && pc.held.started && TookEffect(r)
  }

  /** The claim is given back, "started" is taken off it, or core takes a start. */
  predicate Drops(slot: Slot, pc: Pc, r: Reply) {
    && TookEffect(r)
    && (|| pc.RefusedRelease? || pc.GiveBack? || pc.DeletionRelease? || pc.PlainRecord?
        || (pc.StartServer? && slot.server.Some?))
  }

  /** What a CR about to record a start relies on besides `Local`. */
  predicate StartIsSeen(slot: Slot, pc: Pc) {
    pc.RecordStart? ==> slot.startSeen
  }

  lemma ClaimCallChangesCarried(c: Cr, slot: Slot, pc: Pc, r: Reply, abandoned: bool)
    requires Local(c, slot, pc, abandoned) && StartIsSeen(slot, pc) && !Reads(pc) && !CallsCore(pc)
    ensures var e := AnswerClaim(c, slot, pc, r); StartIsSeen(e.slot, e.pc)
    ensures Carried(c, AnswerClaim(c, slot, pc, r).slot) <==>
      Carries(pc, r) || (Carried(c, slot) && !Drops(slot, pc, r))
  {
  }

  lemma CoreCallChangesCarried(c: Cr, slot: Slot, pc: Pc, r: Reply)
    requires CallsCore(pc)
    ensures var e := AnswerCore(c, slot, pc, r); StartIsSeen(e.slot, e.pc)
    ensures Carried(c, AnswerCore(c, slot, pc, r).slot) <==> Carried(c, slot) && !Drops(slot, pc, r)
  {
  }

  lemma CallChangesCarried(c: Cr, slot: Slot, pc: Pc, r: Reply, abandoned: bool)
    requires Local(c, slot, pc, abandoned) && StartIsSeen(slot, pc)
    ensures var e := Answer(c, slot, pc, r); StartIsSeen(e.slot, e.pc)
    ensures Carried(c, Answer(c, slot, pc, r).slot) <==>
      Carries(pc, r) || (Carried(c, slot) && !Drops(slot, pc, r))
  {
    hide AnswerClaim, AnswerCore, Local, StartIsSeen, Carried;
    if CallsCore(pc) {
      CoreCallChangesCarried(c, slot, pc, r);
    } else if !Reads(pc) {
      ClaimCallChangesCarried(c, slot, pc, r, abandoned);
    } else {
      ReadLeadsToNoRecord(c, slot, pc, r);
    }
  }

  lemma ReadLeadsToNoRecord(c: Cr, slot: Slot, pc: Pc, r: Reply)
    requires Reads(pc)
    ensures StartIsSeen(slot, AnswerRead(c, slot, pc, r))
  {
  }

  function CarriedDeliveries(c: Cr): Change {
    (w: World, l: Label) => l.Answered? && l.cr == c && Carries(PcOf(w, c), l.reply)
  }

  function CarriedDrops(c: Cr): Change {
    (w: World, l: Label) => l.Answered? && l.cr == c && Drops(SlotOf(w, c.name), PcOf(w, c), l.reply)
  }

  lemma RecordsUnderItsClaim(c: Cr, slot: Slot, pc: Pc, abandoned: bool)
    requires Local(c, slot, pc, abandoned) && pc.RecordStart?
    ensures Holds(c, slot.lease)
  {
  }

  lemma StepChangesCarried(w: World, l: Label, c: Cr)
    requires Inv(w) && StartIsSeen(SlotOf(w, c.name), PcOf(w, c))
    ensures var w' := Step(w, l);
      && StartIsSeen(SlotOf(w', c.name), PcOf(w', c))
      && (Carried(c, SlotOf(w', c.name)) <==>
          CarriedDeliveries(c)(w, l) || (Carried(c, SlotOf(w, c.name)) && !CarriedDrops(c)(w, l)))
  {
    hide Answer, ClaimCopy, FoundNoClaim, SawNothingOfItsOwn;
    assert Local(c, SlotOf(w, c.name), PcOf(w, c), c in w.abandoned);
    if PcOf(w, c).RecordStart? {
      RecordsUnderItsClaim(c, SlotOf(w, c.name), PcOf(w, c), c in w.abandoned);
    }
    if l.Answered? {
      var slot, pc := SlotOf(w, c.name), PcOf(w, l.cr);
      assert Local(l.cr, SlotOf(w, l.cr.name), pc, l.cr in w.abandoned);
      if l.cr == c {
        CallChangesCarried(c, slot, pc, l.reply, c in w.abandoned);
      } else if l.cr.name == c.name {
        OthersLeaveTheHeld(c, l.cr, slot, pc, l.reply, l.cr in w.abandoned);
      }
    }
  }

  /**
  At every point of every run, a claim says started though core took no start since its endpoint was
  recorded, if and only if a delivery was recorded on a started claim, and since then the claim was not
  given back, its endpoint not replaced, and core took no start of the CR's.
  */
  lemma {:induction false} CarriedIff(labels: seq<Label>, c: Cr)
    ensures var w := Exec(INITIAL, labels);
      && StartIsSeen(SlotOf(w, c.name), PcOf(w, c))
      && (Carried(c, SlotOf(w, c.name)) <==> Stands(labels, CarriedDeliveries(c), CarriedDrops(c)))
    decreases |labels|
  {
    if labels != [] {
      var n := |labels| - 1;
      CarriedIff(labels[..n], c);
      EveryRunIsSafe(labels[..n]);
      LastLabel(labels, n);
      StepChangesCarried(At(labels, n), labels[n], c);
      StandsStep(labels, CarriedDeliveries(c), CarriedDrops(c), n);
    }
  }

  // ---- "Started" over an entry that was never started ----

  /** The claim says started, and the entry core has was never started. */
  predicate OverUnstarted(c: Cr, slot: Slot) {
    Holds(c, slot.lease) && slot.lease.value.started && slot.server.Some? && !slot.server.value.started
  }

  /** A name whose claim still says started is registered anew, or a start is recorded over another entry. */
  predicate PutsUnstarted(slot: Slot, pc: Pc, r: Reply) {
    && TookEffect(r)
    && (|| (pc.Register? && pc.held.started && slot.server.None?)
        || (pc.RecordStart? && slot.server.Some? && !slot.server.value.started))
  }

  predicate EndsUnstarted(slot: Slot, pc: Pc, r: Reply) {
    Withdraws(pc, r) || (TookEffect(r) && (pc.PlainRecord? || (pc.StartServer? && slot.server.Some?)))
  }

  lemma ClaimCallChangesUnstarted(c: Cr, slot: Slot, pc: Pc, r: Reply, abandoned: bool)
    requires Local(c, slot, pc, abandoned) && !Reads(pc) && !CallsCore(pc)
    ensures OverUnstarted(c, AnswerClaim(c, slot, pc, r).slot) <==>
      PutsUnstarted(slot, pc, r) || (OverUnstarted(c, slot) && !EndsUnstarted(slot, pc, r))
  {
  }

  lemma CoreCallChangesUnstarted(c: Cr, slot: Slot, pc: Pc, r: Reply, abandoned: bool)
    requires Local(c, slot, pc, abandoned) && CallsCore(pc)
    ensures OverUnstarted(c, AnswerCore(c, slot, pc, r).slot) <==>
      PutsUnstarted(slot, pc, r) || (OverUnstarted(c, slot) && !EndsUnstarted(slot, pc, r))
  {
  }

  lemma CallChangesUnstarted(c: Cr, slot: Slot, pc: Pc, r: Reply, abandoned: bool)
    requires Local(c, slot, pc, abandoned)
    ensures OverUnstarted(c, Answer(c, slot, pc, r).slot) <==>
      PutsUnstarted(slot, pc, r) || (OverUnstarted(c, slot) && !EndsUnstarted(slot, pc, r))
  {
    hide AnswerClaim, AnswerCore, Local, OverUnstarted;
    if CallsCore(pc) {
      CoreCallChangesUnstarted(c, slot, pc, r, abandoned);
    } else if !Reads(pc) {
      ClaimCallChangesUnstarted(c, slot, pc, r, abandoned);
    }
  }

  /** By the CR's own call, or by an outsider who puts an entry under a claim that says started. */
  function UnstartedEntries(c: Cr): Change {
    (w: World, l: Label) =>
      var slot := SlotOf(w, c.name);
      || (l.OutsideAdds? && l.name == c.name && Holds(c, slot.lease) && slot.lease.value.started)
      || (l.Answered? && l.cr == c && PutsUnstarted(slot, PcOf(w, c), l.reply))
  }

  function UnstartedEnds(c: Cr): Change {
    (w: World, l: Label) =>
      || (l.OutsideRemoves? && l.name == c.name)
      || (l.Answered? && l.cr == c && EndsUnstarted(SlotOf(w, c.name), PcOf(w, c), l.reply))
  }

  lemma StepChangesUnstarted(w: World, l: Label, c: Cr)
    requires Inv(w)
    ensures OverUnstarted(c, SlotOf(Step(w, l), c.name)) <==>
      UnstartedEntries(c)(w, l) || (OverUnstarted(c, SlotOf(w, c.name)) && !UnstartedEnds(c)(w, l))
  {
    if l.Answered? {
      hide Answer, Local, PutsUnstarted, EndsUnstarted;
      var slot, pc := SlotOf(w, c.name), PcOf(w, l.cr);
      assert Local(l.cr, SlotOf(w, l.cr.name), pc, l.cr in w.abandoned);
      if l.cr == c {
        CallChangesUnstarted(c, slot, pc, l.reply, c in w.abandoned);
      } else if l.cr.name == c.name {
        OthersLeaveTheHeld(c, l.cr, slot, pc, l.reply, l.cr in w.abandoned);
      }
    }
  }

  /**
  At every point of every run, a claim says started over an entry core was never asked to start, if and
  only if the CR registered the name anew under a claim that still said so, or recorded a start after the
  entry had been replaced, or an outsider put an entry under such a claim, and nothing has ended it since.
  */
  lemma {:induction false} OverUnstartedIff(labels: seq<Label>, c: Cr)
    ensures OverUnstarted(c, SlotOf(Exec(INITIAL, labels), c.name)) <==>
      Stands(labels, UnstartedEntries(c), UnstartedEnds(c))
    decreases |labels|
  {
    if labels != [] {
      var n := |labels| - 1;
      OverUnstartedIff(labels[..n], c);
      EveryRunIsSafe(labels[..n]);
      LastLabel(labels, n);
      StepChangesUnstarted(At(labels, n), labels[n], c);
      StandsStep(labels, UnstartedEntries(c), UnstartedEnds(c), n);
    }
  }
}

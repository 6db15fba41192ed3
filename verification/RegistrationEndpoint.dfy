/**
What the claim of a plain MCPServer says about core, at every point between two calls: exactly when the
endpoint recorded on it is the endpoint core has, and that "started" has a start behind it.
*/
module RegistrationEndpoint {
  import opened Wrappers
  import opened RegistrationProtocol
  import opened RegistrationSafety
  import opened RegistrationRuns

  /** A pass of an MCPServer with no peer identity. */
  predicate PlainPass(pc: Pc) {
    && !pc.AskCapabilities? && !pc.RefusedDelete? && !pc.RefusedRelease?
    && (pc.Idle? || pc.DeletionReadClaim? || pc.DeletionDelete? || pc.DeletionRelease? || pc.input.tls.None?)
  }

  /** The claim agrees with core: with its own entry's endpoint, with there being none, and with a start. */
  predicate ClaimAgrees(c: Cr, slot: Slot) {
    Holds(c, slot.lease) ==>
      && (Mine(c, slot) ==> slot.lease.value.endpoint in {slot.server.value.endpoint, DISCOVERED})
      && (slot.lease.value.endpoint == "" ==> !Mine(c, slot))
      && (slot.lease.value.started ==> slot.startSeen)
  }

  /** The CR's own entry has no endpoint, and the claim does not say it is being taken over. */
  predicate Unaddressed(c: Cr, slot: Slot) {
    Holds(c, slot.lease) && Mine(c, slot) && slot.server.value.endpoint == "" && slot.lease.value.endpoint != DISCOVERED
  }

  /** What a plain CR's claim says as long as its own entry has an endpoint. */
  predicate Recorded(c: Cr, slot: Slot) {
    Holds(c, slot.lease) ==>
      && (Mine(c, slot) && slot.server.value.endpoint != "" ==>
        slot.lease.value.endpoint in {slot.server.value.endpoint, DISCOVERED})
      && (slot.lease.value.started ==> slot.startSeen)
      && slot.lease.value.tls.None?
  }

  /** What a plain CR's pass relies on besides `Local`. */
  predicate PlainLocal(c: Cr, slot: Slot, pc: Pc) {
    && PlainPass(pc)
    && Recorded(c, slot)
    && (Mine(c, slot) && slot.server.value.tls.None? ==> slot.server.value.endpoint != "")
    && (pc.AskHealth? && pc.claim.Some? ==> pc.claim.value.endpoint == pc.input.endpoint)
    && (pc.Register? ==> pc.held.endpoint == pc.input.endpoint != "")
    && (pc.Deliver? || pc.RecordDelivery? ==> pc.moving && pc.held.endpoint == DISCOVERED && !pc.held.started)
    && (pc.RecordDelivery? && Mine(c, slot) ==> slot.server.value.endpoint == pc.input.endpoint)
    && (pc.PlainRecord? && Mine(c, slot) ==> slot.server.value.endpoint == "" == pc.held.endpoint)
    && (pc.RecordStart? ==> slot.startSeen)
  }

  lemma AgreesUnlessUnaddressed(c: Cr, slot: Slot, pc: Pc)
    requires PlainLocal(c, slot, pc)
    ensures ClaimAgrees(c, slot) <==> !Unaddressed(c, slot)
  {
  }

  lemma PlainReadKeeps(c: Cr, slot: Slot, pc: Pc, r: Reply, abandoned: bool)
    requires Reads(pc) && Local(c, slot, pc, abandoned) && PlainLocal(c, slot, pc)
    ensures PlainLocal(c, slot, AnswerRead(c, slot, pc, r))
  {
  }

  lemma PlainClaimCallKeeps(c: Cr, slot: Slot, pc: Pc, r: Reply, abandoned: bool)
    requires !Reads(pc) && !CallsCore(pc) && Local(c, slot, pc, abandoned) && PlainLocal(c, slot, pc)
    ensures var e := AnswerClaim(c, slot, pc, r); PlainLocal(c, e.slot, e.pc)
  {
  }

  lemma PlainCoreCallKeeps(c: Cr, slot: Slot, pc: Pc, r: Reply, abandoned: bool)
    requires CallsCore(pc) && Local(c, slot, pc, abandoned) && PlainLocal(c, slot, pc)
    ensures var e := AnswerCore(c, slot, pc, r); PlainLocal(c, e.slot, e.pc)
  {
  }

  lemma OthersKeepPlain(c: Cr, before: Slot, after: Slot, pc: Pc, abandoned: bool)
    requires Local(c, before, pc, abandoned) && PlainLocal(c, before, pc) && OthersMayDo(c, before, after)
    ensures PlainLocal(c, after, pc)
  {
  }

  /** A run in which `c` never declares a peer identity; other CRs of the name, and outsiders, may. */
  predicate PlainRun(labels: seq<Label>, c: Cr) {
    forall l :: l in labels && l.Begin? && l.cr == c ==> l.input.tls.None?
  }

  ghost predicate PlainInv(w: World, c: Cr) {
    Inv(w) && PlainLocal(c, SlotOf(w, c.name), PcOf(w, c))
  }

  lemma PlainAnswer(w: World, d: Cr, r: Reply, c: Cr)
    requires PlainInv(w, c)
    ensures var w' := Step(w, Answered(d, r)); PlainLocal(c, SlotOf(w', c.name), PcOf(w', c))
  {
    var slot, pc := SlotOf(w, d.name), PcOf(w, d);
    assert Local(c, SlotOf(w, c.name), PcOf(w, c), c in w.abandoned);
    if d == c {
      if Reads(pc) {
        PlainReadKeeps(c, slot, pc, r, c in w.abandoned);
      } else if CallsCore(pc) {
        PlainCoreCallKeeps(c, slot, pc, r, c in w.abandoned);
      } else {
        PlainClaimCallKeeps(c, slot, pc, r, c in w.abandoned);
      }
    } else if d.name == c.name {
      StepIsWhatOthersMayDo(c, d, slot, pc, r, d in w.abandoned);
      OthersKeepPlain(c, slot, Answer(d, slot, pc, r).slot, PcOf(w, c), c in w.abandoned);
    }
  }

  /** One step of the world, as the plain CR's own invariant sees it. */
  lemma PlainStep(w: World, l: Label, c: Cr)
    requires PlainInv(w, c) && PlainRun([l], c)
    ensures PlainInv(Step(w, l), c)
  {
    StepKeepsInv(w, l);
    assert l in [l];
    if l.Answered? {
      PlainAnswer(w, l.cr, l.reply, c);
    }
  }

  lemma {:induction false} PlainRunKeeps(labels: seq<Label>, c: Cr)
    requires PlainRun(labels, c)
    ensures PlainInv(Exec(INITIAL, labels), c)
    decreases |labels|
  {
    if labels == [] {
      EveryRunIsSafe([]);
    } else {
      var n := |labels| - 1;
      PlainRunKeeps(labels[..n], c);
      LastLabel(labels, n);
      PlainStep(At(labels, n), labels[n], c);
    }
  }

  // ---- What makes the claim disagree, and what ends it ----

  /** A takeover is recorded that left the CR's entry in core with no endpoint. */
  predicate RecordsUnaddressed(c: Cr, slot: Slot, pc: Pc, r: Reply) {
    pc.RecordDelivery? && TookEffect(r) && pc.input.endpoint == "" && Mine(c, slot)
  }

  /** The entry is removed, or the name given back. */
  predicate Withdraws(pc: Pc, r: Reply) {
    && TookEffect(r)
    && (|| pc.RefusedDelete? || pc.PlainDelete? || pc.DeletionDelete?
        || pc.RefusedRelease? || pc.GiveBack? || pc.DeletionRelease?)
  }

  /** The one recorded endpoint that says nothing about core's. */
  predicate RecordsDiscovered(pc: Pc, r: Reply) {
    pc.PlainRecord? && TookEffect(r) && pc.input.endpoint == DISCOVERED
  }

  predicate MovesUnaddressed(w: World, l: Label, c: Cr) {
    l.Answered? && l.cr == c && RecordsUnaddressed(c, SlotOf(w, c.name), PcOf(w, c), l.reply)
  }

  predicate Withdrawn(w: World, l: Label, c: Cr) {
    || ((l.OutsideAdds? || l.OutsideRemoves?) && l.name == c.name)
    || (l.Answered? && l.cr == c && (Withdraws(PcOf(w, c), l.reply) || RecordsDiscovered(PcOf(w, c), l.reply)))
  }

  lemma PlainClaimCallChangesIt(c: Cr, slot: Slot, pc: Pc, r: Reply, abandoned: bool)
    requires Local(c, slot, pc, abandoned) && PlainLocal(c, slot, pc) && !Reads(pc) && !CallsCore(pc)
    ensures Unaddressed(c, AnswerClaim(c, slot, pc, r).slot) <==>
      RecordsUnaddressed(c, slot, pc, r) || (Unaddressed(c, slot) && !Withdraws(pc, r) && !RecordsDiscovered(pc, r))
  {
  }

  lemma PlainCoreCallChangesIt(c: Cr, slot: Slot, pc: Pc, r: Reply, abandoned: bool)
    requires Local(c, slot, pc, abandoned) && PlainLocal(c, slot, pc) && CallsCore(pc)
    ensures Unaddressed(c, AnswerCore(c, slot, pc, r).slot) <==> Unaddressed(c, slot) && !Withdraws(pc, r)
  {
  }

  lemma PlainCallChangesIt(c: Cr, slot: Slot, pc: Pc, r: Reply, abandoned: bool)
    requires Local(c, slot, pc, abandoned) && PlainLocal(c, slot, pc)
    ensures Unaddressed(c, Answer(c, slot, pc, r).slot) <==>
      RecordsUnaddressed(c, slot, pc, r) || (Unaddressed(c, slot) && !Withdraws(pc, r) && !RecordsDiscovered(pc, r))
  {
    hide AnswerClaim, AnswerCore, Local, PlainLocal, Unaddressed;
    if CallsCore(pc) {
      PlainCoreCallChangesIt(c, slot, pc, r, abandoned);
    } else if !Reads(pc) {
      PlainClaimCallChangesIt(c, slot, pc, r, abandoned);
    }
  }

  /** Another CR's pass neither takes a held claim away nor touches core under it. */
  lemma OthersLeaveTheHeld(c: Cr, d: Cr, slot: Slot, pc: Pc, r: Reply, abandoned: bool)
    requires c != d && Local(d, slot, pc, abandoned)
    ensures var after := Answer(d, slot, pc, r).slot;
      && (Holds(c, after.lease) <==> Holds(c, slot.lease))
      && (Holds(c, slot.lease) ==> after == slot.(version := after.version))
  {
    if !Holds(d, slot.lease) {
      NonHolderLeavesCoreAlone(d, slot, pc, r, abandoned);
    }
    StepIsWhatOthersMayDo(c, d, slot, pc, r, abandoned);
  }

  lemma StepChangesUnaddressed(w: World, l: Label, c: Cr)
    requires PlainInv(w, c)
    ensures Unaddressed(c, SlotOf(Step(w, l), c.name)) <==>
      MovesUnaddressed(w, l, c) || (Unaddressed(c, SlotOf(w, c.name)) && !Withdrawn(w, l, c))
  {
    if l.Answered? {
      hide Answer, Local, PlainLocal, Withdraws;
      var slot, pc := SlotOf(w, c.name), PcOf(w, l.cr);
      assert Local(l.cr, SlotOf(w, l.cr.name), pc, l.cr in w.abandoned);
      if l.cr == c {
        PlainCallChangesIt(c, slot, pc, l.reply, c in w.abandoned);
      } else if l.cr.name == c.name {
        OthersLeaveTheHeld(c, l.cr, slot, pc, l.reply, l.cr in w.abandoned);
      }
    }
  }

  function UnaddressedMoves(c: Cr): Change {
    (w, l) => MovesUnaddressed(w, l, c)
  }

  function Withdrawals(c: Cr): Change {
    (w, l) => Withdrawn(w, l, c)
  }

  lemma {:induction false} UnaddressedIff(labels: seq<Label>, c: Cr)
    requires PlainRun(labels, c)
    ensures Unaddressed(c, SlotOf(Exec(INITIAL, labels), c.name)) <==>
      Stands(labels, UnaddressedMoves(c), Withdrawals(c))
    decreases |labels|
  {
    if labels != [] {
      var n := |labels| - 1;
      UnaddressedIff(labels[..n], c);
      PlainRunKeeps(labels[..n], c);
      LastLabel(labels, n);
      StepChangesUnaddressed(At(labels, n), labels[n], c);
      StandsStep(labels, UnaddressedMoves(c), Withdrawals(c), n);
    }
  }

  /**
  At every point of a plain CR's run its claim agrees with core, if and only if no takeover without an
  address has been recorded over an entry core took it for, or the entry or the claim has gone since.
  */
  lemma PlainClaimAgreesIff(labels: seq<Label>, c: Cr)
    requires PlainRun(labels, c)
    ensures ClaimAgrees(c, SlotOf(Exec(INITIAL, labels), c.name)) <==>
      !Stands(labels, UnaddressedMoves(c), Withdrawals(c))
  {
    var w := Exec(INITIAL, labels);
    PlainRunKeeps(labels, c);
    UnaddressedIff(labels, c);
    AgreesUnlessUnaddressed(c, SlotOf(w, c.name), PcOf(w, c));
  }

  // ---- Runs without such a takeover ----

  /** A takeover without an address is delivered to a key-pinned entry, the only kind core takes one for. */
  predicate ReachesPinned(slot: Slot, pc: Pc) {
    pc.Deliver? && pc.input.endpoint == "" && slot.server.Some? && slot.server.value.tls.Some?
  }

  predicate PinnedMove(w: World, l: Label, c: Cr) {
    l.Answered? && l.cr == c && ReachesPinned(SlotOf(w, c.name), PcOf(w, c))
  }

  predicate Addressed(c: Cr, slot: Slot, pc: Pc) {
    !Unaddressed(c, slot) && (pc.RecordDelivery? && pc.input.endpoint == "" ==> !Mine(c, slot))
  }

  lemma OwnCallKeepsAddressed(c: Cr, slot: Slot, pc: Pc, r: Reply, abandoned: bool)
    requires Local(c, slot, pc, abandoned) && PlainLocal(c, slot, pc)
    requires Addressed(c, slot, pc) && !ReachesPinned(slot, pc)
    ensures var e := Answer(c, slot, pc, r); Addressed(c, e.slot, e.pc)
  {
    hide Answer, Local, PlainLocal, Unaddressed;
    PlainCallChangesIt(c, slot, pc, r, abandoned);
    DeliveryFindsNoPin(c, slot, pc, r, abandoned);
  }

  /** A takeover without an address leads to a record only where the entry is not the CR's. */
  lemma DeliveryFindsNoPin(c: Cr, slot: Slot, pc: Pc, r: Reply, abandoned: bool)
    requires Local(c, slot, pc, abandoned) && PlainLocal(c, slot, pc) && !ReachesPinned(slot, pc)
    ensures var e := Answer(c, slot, pc, r); e.pc.RecordDelivery? && e.pc.input.endpoint == "" ==> !Mine(c, e.slot)
  {
  }

  lemma StepKeepsAddressed(w: World, l: Label, c: Cr)
    requires PlainInv(w, c) && Addressed(c, SlotOf(w, c.name), PcOf(w, c)) && !PinnedMove(w, l, c)
    ensures var w' := Step(w, l); Addressed(c, SlotOf(w', c.name), PcOf(w', c))
  {
    assert Local(c, SlotOf(w, c.name), PcOf(w, c), c in w.abandoned);
    StepChangesUnaddressed(w, l, c);
    if l.Answered? && l.cr == c {
      OwnCallKeepsAddressed(c, SlotOf(w, c.name), PcOf(w, c), l.reply, c in w.abandoned);
    } else if l.Answered? && l.cr.name == c.name {
      StepIsWhatOthersMayDo(c, l.cr, SlotOf(w, c.name), PcOf(w, l.cr), l.reply, l.cr in w.abandoned);
    }
  }

  lemma {:induction false} StaysAddressed(labels: seq<Label>, c: Cr)
    requires PlainRun(labels, c) && forall k | 0 <= k < |labels| :: !PinnedMove(At(labels, k), labels[k], c)
    ensures var w := Exec(INITIAL, labels); Addressed(c, SlotOf(w, c.name), PcOf(w, c))
    decreases |labels|
  {
    if labels != [] {
      hide Exec, Step;
      var n := |labels| - 1;
      forall k | 0 <= k < n ensures !PinnedMove(At(labels[..n], k), labels[..n][k], c) {
        SamePrefix(labels, n, k);
        assert !PinnedMove(At(labels, k), labels[k], c);
      }
      StaysAddressed(labels[..n], c);
      PlainRunKeeps(labels[..n], c);
      LastLabel(labels, n);
      StepKeepsAddressed(At(labels, n), labels[n], c);
    }
  }

  /**
  So a plain CR's claim agrees with core at every point of a run in which no address-less container
  delivers to a key-pinned entry: the entry has the claim's endpoint or the claim reads "discovered",
  a claim with no endpoint has nothing in core, and "started" has a start since that endpoint was recorded.
  */
  lemma PlainClaimAgreesWithCore(labels: seq<Label>, c: Cr)
    requires PlainRun(labels, c) && forall k | 0 <= k < |labels| :: !PinnedMove(At(labels, k), labels[k], c)
    ensures ClaimAgrees(c, SlotOf(Exec(INITIAL, labels), c.name))
  {
    PlainRunKeeps(labels, c);
    StaysAddressed(labels, c);
  }

  /** And such a delivery, once core answers it and the claim records it, makes the claim disagree. */
  lemma PinnedMoveBreaksIt(w: World, c: Cr)
    requires Inv(w) && ReachesPinned(SlotOf(w, c.name), PcOf(w, c))
    requires PcOf(w, c).moving && PcOf(w, c).input.tls.None?
    ensures var slot := SlotOf(Step(Step(w, Answered(c, Heard)), Answered(c, Heard)), c.name);
      Holds(c, slot.lease) && slot.lease.value.endpoint == "" && Mine(c, slot) && !ClaimAgrees(c, slot)
  {
    assert Local(c, SlotOf(w, c.name), PcOf(w, c), c in w.abandoned);
  }

  // ---- Servers that always have an address ----

  /** Remote servers move nothing, and a container's pass has the address it began with. */
  predicate MovesWithAddress(pc: Pc) {
    && (pc.AskProvenance? || pc.MoveTake? || pc.MoveTakeRead? || pc.Deliver? || pc.RecordDelivery? ==> pc.input.container)
    && (|| pc.Idle? || pc.DeletionReadClaim? || pc.DeletionDelete? || pc.DeletionRelease?
        || (pc.input.container ==> pc.input.endpoint != ""))
  }

  /** `c` is plain, and remote or a container whose pod has an address whenever a pass begins. */
  predicate AddressedRun(labels: seq<Label>, c: Cr) {
    PlainRun(labels, c)
    && forall l :: l in labels && l.Begin? && l.cr == c && l.input.container ==> l.input.endpoint != ""
  }

  lemma CallKeepsMoves(c: Cr, slot: Slot, pc: Pc, r: Reply, abandoned: bool)
    requires Local(c, slot, pc, abandoned) && PlainLocal(c, slot, pc) && MovesWithAddress(pc)
    ensures MovesWithAddress(Answer(c, slot, pc, r).pc)
  {
  }

  lemma {:induction false} AddressedRunKeeps(labels: seq<Label>, c: Cr)
    requires AddressedRun(labels, c)
    ensures MovesWithAddress(PcOf(Exec(INITIAL, labels), c))
    decreases |labels|
  {
    if labels != [] {
      var n := |labels| - 1;
      AddressedRunKeeps(labels[..n], c);
      PlainRunKeeps(labels[..n], c);
      LastLabel(labels, n);
      var w, l := At(labels, n), labels[n];
      assert Local(c, SlotOf(w, c.name), PcOf(w, c), c in w.abandoned);
      if l.Answered? && l.cr == c {
        CallKeepsMoves(c, SlotOf(w, c.name), PcOf(w, c), l.reply, c in w.abandoned);
      }
    }
  }

  /** A remote plain CR's claim agrees with core whatever anybody else does to the name, and so does a container's. */
  lemma AddressedClaimAgreesWithCore(labels: seq<Label>, c: Cr)
    requires AddressedRun(labels, c)
    ensures ClaimAgrees(c, SlotOf(Exec(INITIAL, labels), c.name))
  {
    forall k | 0 <= k < |labels| ensures !PinnedMove(At(labels, k), labels[k], c) {
      AddressedRunKeeps(labels[..k], c);
    }
    PlainClaimAgreesWithCore(labels, c);
  }
}

/**
Whose entry a CR's calls reach. A claim is on a name, and core's entry under the name can be somebody
else's all the same: one that was there when the claim was created, or one that replaced the CR's own.
*/
module RegistrationOwnership {
  import opened Wrappers
  import opened RegistrationProtocol
  import opened RegistrationSafety
  import opened RegistrationEndpoint
  import opened RegistrationRecovery
  import opened RegistrationRuns

  /** The CR holds the name, and what core has under it was not made by the CR. */
  predicate HoldsAnothers(c: Cr, slot: Slot) {
    Holds(c, slot.lease) && slot.server.Some? && !Mine(c, slot)
  }

  /** The claim is created over an entry that is there, and not the CR's. */
  predicate TakesOver(c: Cr, slot: Slot, pc: Pc, r: Reply) {
    (pc.Take? || pc.MoveTake?) && TookEffect(r) && slot.lease.None? && slot.server.Some? && !Mine(c, slot)
  }

  /** The entry is removed or delivered to, or the name given back. */
  predicate LetsGo(slot: Slot, pc: Pc, r: Reply) {
    || Withdraws(pc, r)
    || (TookEffect(r) && pc.Deliver? && slot.server.Some? && CoreTakesUpdate(pc.input, slot.server.value, pc.moving))
  }

  /** An outsider puts an entry under the held name, or the claim is created over one that is there. */
  predicate Intrudes(w: World, l: Label, c: Cr) {
    var slot := SlotOf(w, c.name);
    || (l.OutsideAdds? && l.name == c.name && Holds(c, slot.lease))
    || (l.Answered? && l.cr == c && TakesOver(c, slot, PcOf(w, c), l.reply))
  }

  predicate Clears(w: World, l: Label, c: Cr) {
    || (l.OutsideRemoves? && l.name == c.name)
    || (l.Answered? && l.cr == c && LetsGo(SlotOf(w, c.name), PcOf(w, c), l.reply))
  }

  lemma ClaimCallChangesIt(c: Cr, slot: Slot, pc: Pc, r: Reply, abandoned: bool)
    requires Local(c, slot, pc, abandoned) && !Reads(pc) && !CallsCore(pc)
    ensures HoldsAnothers(c, AnswerClaim(c, slot, pc, r).slot) <==>
      TakesOver(c, slot, pc, r) || (HoldsAnothers(c, slot) && !LetsGo(slot, pc, r))
  {
  }

  lemma CoreCallChangesIt(c: Cr, slot: Slot, pc: Pc, r: Reply, abandoned: bool)
    requires Local(c, slot, pc, abandoned) && CallsCore(pc)
    ensures HoldsAnothers(c, AnswerCore(c, slot, pc, r).slot) <==> HoldsAnothers(c, slot) && !LetsGo(slot, pc, r)
  {
  }

  lemma OwnCallChangesIt(c: Cr, slot: Slot, pc: Pc, r: Reply, abandoned: bool)
    requires Local(c, slot, pc, abandoned)
    ensures HoldsAnothers(c, Answer(c, slot, pc, r).slot) <==>
      TakesOver(c, slot, pc, r) || (HoldsAnothers(c, slot) && !LetsGo(slot, pc, r))
  {
    hide AnswerClaim, AnswerCore, Local, HoldsAnothers;
    if CallsCore(pc) {
      CoreCallChangesIt(c, slot, pc, r, abandoned);
    } else if !Reads(pc) {
      ClaimCallChangesIt(c, slot, pc, r, abandoned);
    }
  }

  lemma StepChangesIt(w: World, l: Label, c: Cr)
    requires Inv(w)
    ensures HoldsAnothers(c, SlotOf(Step(w, l), c.name)) <==>
      Intrudes(w, l, c) || (HoldsAnothers(c, SlotOf(w, c.name)) && !Clears(w, l, c))
  {
    if l.Answered? {
      assert Local(l.cr, SlotOf(w, l.cr.name), PcOf(w, l.cr), l.cr in w.abandoned);
      if l.cr == c {
        OwnCallChangesIt(c, SlotOf(w, c.name), PcOf(w, c), l.reply, c in w.abandoned);
      } else if l.cr.name == c.name {
        OthersLeaveTheHeld(c, l.cr, SlotOf(w, c.name), PcOf(w, l.cr), l.reply, l.cr in w.abandoned);
      }
    }
  }

  function Intrusions(c: Cr): Change {
    (w, l) => Intrudes(w, l, c)
  }

  function Clearings(c: Cr): Change {
    (w, l) => Clears(w, l, c)
  }

  /** Another's entry was brought under the claim, and nothing since has cleared it. */
  ghost predicate Intruded(labels: seq<Label>, c: Cr) {
    Stands(labels, Intrusions(c), Clearings(c))
  }

  /**
  At every point of every run, a CR holds its name over an entry that is not its own if and only if an
  outsider added one under its claim, or the claim was created over one, and nothing has cleared it since.
  */
  lemma {:induction false} HoldsAnothersIff(labels: seq<Label>, c: Cr)
    ensures HoldsAnothers(c, SlotOf(Exec(INITIAL, labels), c.name)) <==> Intruded(labels, c)
    decreases |labels|
  {
    if labels != [] {
      var n := |labels| - 1;
      HoldsAnothersIff(labels[..n], c);
      EveryRunIsSafe(labels[..n]);
      LastLabel(labels, n);
      StepChangesIt(At(labels, n), labels[n], c);
      StandsStep(labels, Intrusions(c), Clearings(c), n);
    }
  }

  /** So a call by which a CR is about to mutate core finds an entry of its own, or none, exactly until then. */
  lemma MutationsReachOwnEntriesIff(labels: seq<Label>, c: Cr)
    requires CallsCore(PcOf(Exec(INITIAL, labels), c))
    ensures var slot := SlotOf(Exec(INITIAL, labels), c.name);
      slot.server.None? || Mine(c, slot) <==> !Intruded(labels, c)
  {
    HoldsAnothersIff(labels, c);
    EveryRunIsSafe(labels);
    var w := Exec(INITIAL, labels);
    assert Local(c, SlotOf(w, c.name), PcOf(w, c), c in w.abandoned);
  }

  // ---- Deletions that could not deregister ----

  /** The removal a deletion asks of core is not answered. */
  function FailedRemovals(c: Cr): Change {
    (w: World, l: Label) => l.Answered? && l.cr == c && PcOf(w, c).DeletionDelete? && !l.reply.Heard?
  }

  function Never(): Change {
    (w: World, l: Label) => false
  }

  /** A CR counts as having abandoned its entry exactly from the first deletion whose removal was not answered. */
  lemma {:induction false} AbandonedIff(labels: seq<Label>, c: Cr)
    ensures c in Exec(INITIAL, labels).abandoned <==> Stands(labels, FailedRemovals(c), Never())
    decreases |labels|
  {
    if labels != [] {
      var n := |labels| - 1;
      AbandonedIff(labels[..n], c);
      LastLabel(labels, n);
      StandsStep(labels, FailedRemovals(c), Never(), n);
    }
  }

  // ---- A deletion that removes an outsider's server ----

  lemma CallsFrom(w: World, c: Cr, n: nat) returns (labels: seq<Label>)
    ensures forall l :: l in labels ==> l == Answered(c, Heard)
    ensures var w' := Exec(w, labels);
      (SlotOf(w', c.name), PcOf(w', c)) == Calls(c, SlotOf(w, c.name), PcOf(w, c), n)
  {
    labels := seq(n, _ => Answered(c, Heard));
    CallsAreARun(w, c, n);
  }

  /** The calls of the scenario, on the name alone. */
  lemma TakenOverAnothers(c: Cr, endpoint: string, other: string)
    requires endpoint != ""
    ensures var input := Input(false, endpoint, None); var theirs := Server(Outside, other, None, false);
      && Calls(c, EMPTY_SLOT, ReadClaim(input), 2) == (EMPTY_SLOT, Take(input))
      && var (slot, pc) := Calls(c, EMPTY_SLOT.(server := Some(theirs)), Take(input), 2);
        Holds(c, slot.lease) && slot.server == Some(theirs) && pc.GiveBack?
  {
  }

  lemma DeletionReachesIt(c: Cr, slot: Slot)
    requires Holds(c, slot.lease)
    ensures Calls(c, slot, DeletionReadClaim, 1) == (slot, DeletionDelete(slot.lease.value))
    ensures Calls(c, slot, DeletionDelete(slot.lease.value), 1).0 == slot.(server := None)
  {
  }

  /**
  An outsider adds the name between core's "not registered" and the claim, core answers the registration
  "already exists", and the operator dies before it gives the claim back: deleting the MCPServer then
  removes the outsider's server.
  */
  lemma DeletionRemovesAnothers(c: Cr, endpoint: string, other: string) returns (labels: seq<Label>)
    requires endpoint != ""
    ensures var w := Exec(INITIAL, labels); var slot := SlotOf(w, c.name);
      && PcOf(w, c).DeletionDelete? && slot.server == Some(Server(Outside, other, None, false))
      && SlotOf(Step(w, Answered(c, Heard)), c.name).server.None?
  {
    var input := Input(false, endpoint, None);
    TakenOverAnothers(c, endpoint, other);
    var begun := Step(INITIAL, Begin(c, input));
    var asks := CallsFrom(begun, c, 2);
    var added := Step(Exec(begun, asks), OutsideAdds(c.name, other, None));
    var takes := CallsFrom(added, c, 2);
    var died := Step(Exec(added, takes), Crash(c));
    var deleting := Step(died, BeginDeletion(c));
    DeletionReachesIt(c, SlotOf(deleting, c.name));
    var last := CallsFrom(deleting, c, 1);
    var l4 := [Crash(c)] + ([BeginDeletion(c)] + last);
    var l2 := [OutsideAdds(c.name, other, None)] + (takes + l4);
    labels := [Begin(c, input)] + (asks + l2);
    FourParts(begun, asks, OutsideAdds(c.name, other, None), takes, l4);
    Chained(INITIAL, Begin(c, input), asks + l2);
    Chained(Exec(added, takes), Crash(c), [BeginDeletion(c)] + last);
    Chained(died, BeginDeletion(c), last);
    DeleteTakesIt(Exec(deleting, last), c);
  }

  lemma FourParts(w: World, first: seq<Label>, l: Label, second: seq<Label>, third: seq<Label>)
    ensures Exec(w, first + ([l] + (second + third))) == Exec(Exec(Step(Exec(w, first), l), second), third)
  {
    ExecAppend(w, first, [l] + (second + third));
    Chained(Exec(w, first), l, second + third);
    ExecAppend(Step(Exec(w, first), l), second, third);
  }

  lemma DeleteTakesIt(w: World, c: Cr)
    requires PcOf(w, c).DeletionDelete?
    ensures SlotOf(Step(w, Answered(c, Heard)), c.name).server.None?
  {
  }
}

/**
What holds after every run of the registration machine: any number of MCPServers of one name, any
interleaving of their calls, any call failing before or after it took effect, a crash between any
two calls, and anybody else changing core meanwhile.
*/
module RegistrationSafety {
  import opened Wrappers
  import opened RegistrationProtocol

  /** Core's entry was last produced by a POST or PUT of `c`. */
  predicate Mine(c: Cr, slot: Slot) {
    slot.server.Some? && slot.server.value.maker == By(c)
  }

  /** The claim a pass has read and holds a copy of. */
  function ClaimCopy(pc: Pc): Option<Lease> {
    match pc
    case AskCapabilities(_, claim) => claim
    case AskHealth(_, claim) => claim
    case Deliver(_, held, _) => Some(held)
    case RecordDelivery(_, held, _) => Some(held)
    case RefusedDelete(_, held) => Some(held)
    case RefusedRelease(_, held) => Some(held)
    case PlainDelete(_, held) => Some(held)
    case PlainRecord(_, held) => Some(held)
    case Register(_, held) => Some(held)
    case RecordTls(_, held) => Some(held)
    case GiveBack(_, held) => Some(held)
    case StartServer(_, held) => Some(held)
    case RecordStart(_, held) => Some(held)
    case DeletionDelete(held) => Some(held)
    case DeletionRelease(held) => Some(held)
    case _ => None
  }

  /** A pass that has read that no claim exists. */
  predicate FoundNoClaim(pc: Pc) {
    ClaimCopy(pc).None? && !pc.Idle? && !pc.ReadClaim? && !pc.DeletionReadClaim?
  }

  /** A pass that has seen core without this CR's entry and not sent one since. */
  predicate SawNothingOfItsOwn(pc: Pc) {
    pc.Take? || pc.TakeRead? || pc.Register? || pc.GiveBack? || pc.RefusedRelease?
  }

  /** What CR `c`'s pass relies on between two of its calls. */
  predicate Local(c: Cr, slot: Slot, pc: Pc, abandoned: bool) {
    && (ClaimCopy(pc).Some? ==> slot.lease == ClaimCopy(pc) && Holds(c, slot.lease))
    && (FoundNoClaim(pc) ==> !Holds(c, slot.lease))
    && (SawNothingOfItsOwn(pc) ==> !Mine(c, slot))
    && (pc.DeletionRelease? ==> Mine(c, slot) ==> abandoned)
    && (Mine(c, slot) ==> Holds(c, slot.lease) || abandoned)
  }

  /** All that other MCPServers and outside writers can do to a name, as `c` sees it. */
  predicate OthersMayDo(c: Cr, before: Slot, after: Slot) {
    && (Holds(c, before.lease) ==> after.lease == before.lease && after.startSeen == before.startSeen)
    && (Holds(c, after.lease) ==> Holds(c, before.lease))
    && (Mine(c, after) ==>
      && Mine(c, before)
      && after.server.value.endpoint == before.server.value.endpoint
      && after.server.value.tls == before.server.value.tls)
  }

  lemma OwnReadKeepsLocal(c: Cr, slot: Slot, pc: Pc, r: Reply, abandoned: bool)
    requires Reads(pc) && Local(c, slot, pc, abandoned)
    ensures Local(c, slot, AnswerRead(c, slot, pc, r), abandoned)
  {
  }

  lemma OwnClaimCallKeepsLocal(c: Cr, slot: Slot, pc: Pc, r: Reply, abandoned: bool)
    requires !Reads(pc) && !CallsCore(pc) && Local(c, slot, pc, abandoned)
    ensures var e := AnswerClaim(c, slot, pc, r); Local(c, e.slot, e.pc, abandoned || e.abandons)
  {
  }

  lemma OwnCoreCallKeepsLocal(c: Cr, slot: Slot, pc: Pc, r: Reply, abandoned: bool)
    requires CallsCore(pc) && Local(c, slot, pc, abandoned)
    ensures var e := AnswerCore(c, slot, pc, r); Local(c, e.slot, e.pc, abandoned || e.abandons)
  {
  }

  /** A CR's own call keeps what its pass relies on. */
  lemma OwnStepKeepsLocal(c: Cr, slot: Slot, pc: Pc, r: Reply, abandoned: bool)
    requires Local(c, slot, pc, abandoned)
    ensures var e := Answer(c, slot, pc, r); Local(c, e.slot, e.pc, abandoned || e.abandons)
  {
    if Reads(pc) {
      OwnReadKeepsLocal(c, slot, pc, r, abandoned);
    } else if CallsCore(pc) {
      OwnCoreCallKeepsLocal(c, slot, pc, r, abandoned);
    } else {
      OwnClaimCallKeepsLocal(c, slot, pc, r, abandoned);
    }
  }

  lemma OthersKeepLocal(c: Cr, before: Slot, after: Slot, pc: Pc, abandoned: bool)
    requires Local(c, before, pc, abandoned) && OthersMayDo(c, before, after)
    ensures Local(c, after, pc, abandoned)
  {
  }

  lemma StepIsWhatOthersMayDo(c: Cr, d: Cr, slot: Slot, pc: Pc, r: Reply, abandoned: bool)
    requires c != d && Local(d, slot, pc, abandoned)
    ensures OthersMayDo(c, slot, Answer(d, slot, pc, r).slot)
  {
  }

  // ---- Histories ----

  function HolderNext(e: Event, name: string, holder: Option<Cr>): Option<Cr> {
    if e.cr.name != name then holder
    else match e
      case Taken(c) => Some(c)
      case Released(_) => None
      case Sent(_, _) => holder
  }

  /** Who holds a name's claim after a history. */
  function HolderAfter(h: seq<Event>, name: string): Option<Cr> {
    if h == [] then None else HolderNext(h[|h| - 1], name, HolderAfter(h[..|h| - 1], name))
  }

  /** A claim is taken only while free, and released and acted under only by its holder. */
  predicate Allowed(e: Event, holder: Option<Cr>) {
    match e
    case Taken(_) => holder.None?
    case Released(c) => holder == Some(c)
    case Sent(c, _) => holder == Some(c)
  }

  ghost predicate Lawful(h: seq<Event>) {
    forall i :: 0 <= i < |h| ==> Allowed(h[i], HolderAfter(h[..i], h[i].cr.name))
  }

  function HolderOf(slot: Slot): Option<Cr> {
    if slot.lease.Some? then Some(slot.lease.value.holder) else None
  }

  lemma HistoryStep(h: seq<Event>, e: Event)
    requires Lawful(h) && Allowed(e, HolderAfter(h, e.cr.name))
    ensures Lawful(h + [e])
    ensures forall name :: HolderAfter(h + [e], name) == HolderNext(e, name, HolderAfter(h, name))
  {
    var longer := h + [e];
    assert longer[..|longer| - 1] == h;
    forall i | 0 <= i < |longer| ensures Allowed(longer[i], HolderAfter(longer[..i], longer[i].cr.name)) {
      if i < |h| {
        assert longer[..i] == h[..i];
      }
    }
  }

  lemma StepIsLawful(c: Cr, slot: Slot, pc: Pc, r: Reply, abandoned: bool)
    requires Local(c, slot, pc, abandoned)
    ensures var e := Answer(c, slot, pc, r);
      && |e.events| <= 1
      && (e.events == [] ==> HolderOf(e.slot) == HolderOf(slot))
      && (|e.events| == 1 ==>
        && e.events[0].cr == c
        && Allowed(e.events[0], HolderOf(slot))
        && HolderOf(e.slot) == HolderNext(e.events[0], c.name, HolderOf(slot)))
  {
  }

  // ---- The invariant over runs ----

  ghost predicate Inv(w: World) {
    && (forall c: Cr :: Local(c, SlotOf(w, c.name), PcOf(w, c), c in w.abandoned))
    && (forall name: string :: HolderAfter(w.history, name) == HolderOf(SlotOf(w, name)))
    && Lawful(w.history)
  }

  /** A pass's step keeps every CR's invariant, if it keeps its own and does what others may do. */
  lemma PassStepKeepsLocals(w: World, w': World, c: Cr)
    requires Inv(w)
    requires forall n :: n != c.name ==> SlotOf(w', n) == SlotOf(w, n)
    requires forall d: Cr :: d != c ==> PcOf(w', d) == PcOf(w, d) && (d in w'.abandoned <==> d in w.abandoned)
    requires forall d: Cr :: d != c && d.name == c.name ==> OthersMayDo(d, SlotOf(w, c.name), SlotOf(w', c.name))
    requires Local(c, SlotOf(w', c.name), PcOf(w', c), c in w'.abandoned)
    ensures forall d: Cr :: Local(d, SlotOf(w', d.name), PcOf(w', d), d in w'.abandoned)
  {
    forall d: Cr ensures Local(d, SlotOf(w', d.name), PcOf(w', d), d in w'.abandoned) {
      if d != c && d.name == c.name {
        OthersKeepLocal(d, SlotOf(w, c.name), SlotOf(w', c.name), PcOf(w, d), d in w.abandoned);
      }
    }
  }

  /** A step that adds at most one lawful event keeps the history in agreement with the claims. */
  lemma EventsKeepHistory(w: World, w': World, name: string, events: seq<Event>)
    requires Lawful(w.history) && forall n: string :: HolderAfter(w.history, n) == HolderOf(SlotOf(w, n))
    requires forall n :: n != name ==> SlotOf(w', n) == SlotOf(w, n)
    requires w'.history == w.history + events && |events| <= 1
    requires events == [] ==> HolderOf(SlotOf(w', name)) == HolderOf(SlotOf(w, name))
    requires |events| == 1 ==>
      && events[0].cr.name == name && Allowed(events[0], HolderOf(SlotOf(w, name)))
      && HolderOf(SlotOf(w', name)) == HolderNext(events[0], name, HolderOf(SlotOf(w, name)))
    ensures Lawful(w'.history)
    ensures forall n: string :: HolderAfter(w'.history, n) == HolderOf(SlotOf(w', n))
  {
    if events == [] {
      assert w'.history == w.history;
    } else {
      assert w'.history == w.history + [events[0]];
      HistoryStep(w.history, events[0]);
    }
    forall n: string ensures HolderAfter(w'.history, n) == HolderOf(SlotOf(w', n)) {
      assert HolderAfter(w.history, n) == HolderOf(SlotOf(w, n));
    }
  }

  lemma AnswerKeepsInv(w: World, c: Cr, r: Reply)
    requires Inv(w)
    ensures Inv(Step(w, Answered(c, r)))
  {
    var w' := Step(w, Answered(c, r));
    var slot, pc := SlotOf(w, c.name), PcOf(w, c);
    var e := Answer(c, slot, pc, r);
    OwnStepKeepsLocal(c, slot, pc, r, c in w.abandoned);
    forall d: Cr | d != c ensures OthersMayDo(d, slot, e.slot) {
      StepIsWhatOthersMayDo(d, c, slot, pc, r, c in w.abandoned);
    }
    PassStepKeepsLocals(w, w', c);
    StepIsLawful(c, slot, pc, r, c in w.abandoned);
    EventsKeepHistory(w, w', c.name, e.events);
  }

  lemma PassChangeKeepsInv(w: World, w': World, c: Cr)
    requires Inv(w)
    requires w'.slots == w.slots && w'.abandoned == w.abandoned && w'.history == w.history
    requires forall d: Cr :: d != c ==> PcOf(w', d) == PcOf(w, d)
    requires PcOf(w', c) == PcOf(w, c) || PcOf(w', c).Idle? || PcOf(w', c).ReadClaim? || PcOf(w', c).DeletionReadClaim?
    ensures Inv(w')
  {
    forall d: Cr ensures Local(d, SlotOf(w', d.name), PcOf(w', d), d in w'.abandoned) {
      assert Local(d, SlotOf(w, d.name), PcOf(w, d), d in w.abandoned);
    }
  }

  lemma StepKeepsInv(w: World, l: Label)
    requires Inv(w)
    ensures Inv(Step(w, l))
  {
    var w' := Step(w, l);
    match l
    case Answered(c, r) => AnswerKeepsInv(w, c, r);
    case Begin(c, _) => PassChangeKeepsInv(w, w', c);
    case BeginDeletion(c) => PassChangeKeepsInv(w, w', c);
    case Crash(c) => PassChangeKeepsInv(w, w', c);
    case OutsideAdds(name, _, _) => OutsideKeepsInv(w, w', name);
    case OutsideRemoves(name) => OutsideKeepsInv(w, w', name);
  }

  lemma OutsideKeepsInv(w: World, w': World, name: string)
    requires Inv(w)
    requires w'.passes == w.passes && w'.abandoned == w.abandoned && w'.history == w.history
    requires forall n :: n != name ==> SlotOf(w', n) == SlotOf(w, n)
    requires forall c: Cr :: OthersMayDo(c, SlotOf(w, name), SlotOf(w', name))
    requires HolderOf(SlotOf(w', name)) == HolderOf(SlotOf(w, name))
    ensures Inv(w')
  {
    forall d: Cr ensures Local(d, SlotOf(w', d.name), PcOf(w', d), d in w'.abandoned) {
      if d.name == name {
        OthersKeepLocal(d, SlotOf(w, name), SlotOf(w', name), PcOf(w, d), d in w.abandoned);
      }
    }
  }

  lemma {:induction false} ExecKeepsInv(w: World, labels: seq<Label>)
    requires Inv(w)
    ensures Inv(Exec(w, labels))
    decreases |labels|
  {
    if labels != [] {
      StepKeepsInv(w, labels[0]);
      ExecKeepsInv(Step(w, labels[0]), labels[1..]);
    }
  }

  lemma EveryRunIsSafe(labels: seq<Label>)
    ensures Inv(Exec(INITIAL, labels))
  {
    ExecKeepsInv(INITIAL, labels);
  }

  // ---- What the claim protects ----

  /** A server an MCPServer's POST or PUT left in core is covered by its claim, or was abandoned by its deletion. */
  lemma RegisteredIsClaimed(labels: seq<Label>, c: Cr)
    ensures var w := Exec(INITIAL, labels); var slot := SlotOf(w, c.name);
      Mine(c, slot) ==> Holds(c, slot.lease) || c in w.abandoned
  {
    EveryRunIsSafe(labels);
  }

  /** A name's holder changes only in a call of the holder's own pass, which records the release. */
  lemma OnlyTheHolderLetsGo(labels: seq<Label>, l: Label, c: Cr)
    requires Holds(c, SlotOf(Exec(INITIAL, labels), c.name).lease)
    requires !Holds(c, SlotOf(Exec(INITIAL, labels + [l]), c.name).lease)
    ensures l.Answered? && l.cr == c
    ensures Exec(INITIAL, labels + [l]).history == Exec(INITIAL, labels).history + [Released(c)]
  {
    var w := Exec(INITIAL, labels);
    ExecAppend(INITIAL, labels, [l]);
    assert Exec(w, [l]) == Step(w, l);
    EveryRunIsSafe(labels);
    if l.Answered? && l.cr.name == c.name {
      var slot, pc := SlotOf(w, c.name), PcOf(w, l.cr);
      if l.cr == c {
        StepIsLawful(c, slot, pc, l.reply, c in w.abandoned);
      } else {
        StepIsWhatOthersMayDo(c, l.cr, slot, pc, l.reply, l.cr in w.abandoned);
      }
    }
  }

  /** Every call that changes core was sent by the CR holding the name's claim at that moment. */
  lemma MutationsHappenUnderTheClaim(labels: seq<Label>, i: nat)
    requires i < |Exec(INITIAL, labels).history| && Exec(INITIAL, labels).history[i].Sent?
    ensures var h := Exec(INITIAL, labels).history;
      HolderAfter(h[..i], h[i].cr.name) == Some(h[i].cr)
  {
    EveryRunIsSafe(labels);
    var h := Exec(INITIAL, labels).history;
    assert Allowed(h[i], HolderAfter(h[..i], h[i].cr.name));
  }

  lemma {:induction false} HolderKeptWithoutRelease(h: seq<Event>, i: nat, j: nat, c: Cr)
    requires i <= j <= |h| && Lawful(h) && HolderAfter(h[..i], c.name) == Some(c)
    requires forall k :: i <= k < j ==> h[k] != Released(c)
    ensures HolderAfter(h[..j], c.name) == Some(c)
    decreases j - i
  {
    if i < j {
      HolderKeptWithoutRelease(h, i, j - 1, c);
      assert h[..j][..|h[..j]| - 1] == h[..j - 1];
      assert h[..j][|h[..j]| - 1] == h[j - 1];
      assert Allowed(h[j - 1], HolderAfter(h[..j - 1], h[j - 1].cr.name));
    }
  }

  /** Two MCPServers of one name never mutate core's entry without a release by the first in between. */
  lemma MutationsAreSeparatedByARelease(labels: seq<Label>, i: nat, j: nat)
    requires i < j < |Exec(INITIAL, labels).history|
    requires var h := Exec(INITIAL, labels).history;
      h[i].Sent? && h[j].Sent? && h[i].cr != h[j].cr && h[i].cr.name == h[j].cr.name
    ensures var h := Exec(INITIAL, labels).history;
      exists k :: i < k < j && h[k] == Released(h[i].cr)
  {
    EveryRunIsSafe(labels);
    var h := Exec(INITIAL, labels).history;
    var c := h[i].cr;
    assert Allowed(h[i], HolderAfter(h[..i], c.name));
    assert Allowed(h[j], HolderAfter(h[..j], c.name));
    if forall k :: i <= k < j ==> h[k] != Released(c) {
      HolderKeptWithoutRelease(h, i, j, c);
    }
  }

  /** Whether the CR ever came to hold its name. */
  predicate EverHeld(h: seq<Event>, c: Cr) {
    Taken(c) in h
  }

  lemma {:induction false} HolderTookIt(h: seq<Event>, c: Cr)
    requires HolderAfter(h, c.name) == Some(c)
    ensures EverHeld(h, c)
    decreases |h|
  {
    var e := h[|h| - 1];
    if e != Taken(c) {
      HolderTookIt(h[..|h| - 1], c);
    }
  }

  lemma {:induction false} LawfulSendersHeld(h: seq<Event>, c: Cr, i: nat)
    requires Lawful(h) && i < |h| && h[i].Sent? && h[i].cr == c
    ensures EverHeld(h, c)
  {
    assert Allowed(h[i], HolderAfter(h[..i], c.name));
    HolderTookIt(h[..i], c);
  }

  lemma NonHolderLeavesCoreAlone(c: Cr, slot: Slot, pc: Pc, r: Reply, abandoned: bool)
    requires Local(c, slot, pc, abandoned) && !Holds(c, slot.lease)
    ensures Answer(c, slot, pc, r).slot.server == slot.server
  {
  }

  /** A CR that has not won its name, a mirror or one told NameTaken, has not touched core's entry. */
  lemma BystanderLeavesCoreAlone(labels: seq<Label>, r: Reply, c: Cr)
    requires !EverHeld(Exec(INITIAL, labels).history, c)
    ensures SlotOf(Exec(INITIAL, labels + [Answered(c, r)]), c.name).server ==
            SlotOf(Exec(INITIAL, labels), c.name).server
    ensures forall call :: Sent(c, call) !in Exec(INITIAL, labels).history
  {
    var w := Exec(INITIAL, labels);
    ExecAppend(INITIAL, labels, [Answered(c, r)]);
    assert Exec(w, [Answered(c, r)]) == Step(w, Answered(c, r));
    EveryRunIsSafe(labels);
    if Holds(c, SlotOf(w, c.name).lease) {
      HolderTookIt(w.history, c);
    }
    NonHolderLeavesCoreAlone(c, SlotOf(w, c.name), PcOf(w, c), r, c in w.abandoned);
    forall call ensures Sent(c, call) !in w.history {
      if Sent(c, call) in w.history {
        var i :| 0 <= i < |w.history| && w.history[i] == Sent(c, call);
        LawfulSendersHeld(w.history, c, i);
      }
    }
  }
}

/**
Crash recovery: what one undisturbed pass makes of whatever earlier passes and crashes left behind,
and exactly when that is the state the MCPServer asks for.
*/
module RegistrationRecovery {
  import opened Wrappers
  import opened RegistrationProtocol
  import opened RegistrationSafety
  import opened RegistrationEndpoint
  import opened RegistrationStarts

  /** Every call of a pass leads to a later one. */
  function CallsLeft(pc: Pc): nat {
    match pc
    case Idle => 0
    case ReadClaim(_) => 22
    case AskCapabilities(_, _) => 21
    case RefusedDelete(_, _) => 20
    case RefusedRelease(_, _) => 19
    case PlainDelete(_, _) => 16
    case PlainRecord(_, _) => 15
    case AskHealth(_, _) => 14
    case AskProvenance(_) => 13
    case MoveTake(_) => 12
    case MoveTakeRead(_) => 11
    case Deliver(_, _, moving) => if moving then 10 else 18
    case RecordDelivery(_, _, moving) => if moving then 9 else 17
    case Take(_) => 8
    case TakeRead(_) => 7
    case Register(_, _) => 6
    case RecordTls(_, _) => 5
    case GiveBack(_, _) => 4
    case StartServer(_, _) => 3
    case RecordStart(_, _) => 2
    case DeletionReadClaim => 3
    case DeletionDelete(_) => 2
    case DeletionRelease(_) => 1
  }

  lemma PassesAdvance(c: Cr, slot: Slot, pc: Pc, r: Reply)
    requires !pc.Idle?
    ensures CallsLeft(Answer(c, slot, pc, r).pc) < CallsLeft(pc)
  {
  }

  /** The rest of a pass in which every call is processed and nobody else touches the name. */
  function Undisturbed(c: Cr, slot: Slot, pc: Pc): (Slot, seq<Event>)
    decreases CallsLeft(pc)
  {
    if pc.Idle? then (slot, [])
    else
      PassesAdvance(c, slot, pc, Heard);
      var e := Answer(c, slot, pc, Heard);
      var (slot', events) := Undisturbed(c, e.slot, e.pc);
      (slot', e.events + events)
  }

  function OnePass(c: Cr, input: Input, slot: Slot): (Slot, seq<Event>) {
    Undisturbed(c, slot, ReadClaim(input))
  }

  /** An undisturbed pass is a run of the machine: so many answers, all of them `Heard`. */
  lemma {:induction false} UndisturbedIsARun(w: World, c: Cr) returns (labels: seq<Label>)
    ensures forall l :: l in labels ==> l == Answered(c, Heard)
    ensures var w' := Exec(w, labels); var (slot, events) := Undisturbed(c, SlotOf(w, c.name), PcOf(w, c));
      SlotOf(w', c.name) == slot && w'.history == w.history + events && PcOf(w', c).Idle?
    decreases CallsLeft(PcOf(w, c))
  {
    labels := [];
    if !PcOf(w, c).Idle? {
      var l := Answered(c, Heard);
      var e, w1 := HeardStep(w, c);
      PassesAdvance(c, SlotOf(w, c.name), PcOf(w, c), Heard);
      var rest := UndisturbedIsARun(w1, c);
      labels := [l] + rest;
      assert labels[1..] == rest;
      Reassociate(w.history, e.events, Undisturbed(c, e.slot, e.pc).1);
    } else {
      assert w.history + [] == w.history;
    }
  }

  lemma Reassociate<T>(a: seq<T>, b: seq<T>, c: seq<T>)
    ensures (a + b) + c == a + (b + c)
  {
  }

  /** One processed call, in the machine and in the recursive account of the pass. */
  lemma HeardStep(w: World, c: Cr) returns (e: Effect, next: World)
    requires !PcOf(w, c).Idle?
    ensures next == Step(w, Answered(c, Heard)) && e == Answer(c, SlotOf(w, c.name), PcOf(w, c), Heard)
    ensures SlotOf(next, c.name) == e.slot && PcOf(next, c) == e.pc && next.history == w.history + e.events
    ensures Undisturbed(c, SlotOf(w, c.name), PcOf(w, c)) ==
      (Undisturbed(c, e.slot, e.pc).0, e.events + Undisturbed(c, e.slot, e.pc).1)
  {
    e, next := Answer(c, SlotOf(w, c.name), PcOf(w, c), Heard), Step(w, Answered(c, Heard));
  }

  /**
  The state the MCPServer asks for: its claim and core agree with its spec, and core has been told
  to start the entry; or, for a plain server without an endpoint, core holds nothing.
  */
  predicate Converged(c: Cr, input: Input, slot: Slot) {
    && Holds(c, slot.lease)
    && slot.lease.value.endpoint == input.endpoint
    && slot.lease.value.tls == input.tls
    && if input.tls.None? && input.endpoint == "" then slot.server.None?
       else
         && slot.server.Some?
         && slot.server.value.endpoint == input.endpoint
         && slot.server.value.tls == input.tls
         && (input.endpoint != "" ==> slot.lease.value.started && slot.server.value.started)
  }

  /** From the health read on, the claim already records the spec. */
  predicate SettlesFromHealth(input: Input, claimStarted: bool, server: Option<Server>) {
    server.Some? ==>
      && (input.tls.Some? || input.endpoint != "")
      && server.value.endpoint == input.endpoint
      && server.value.tls == input.tls
      && (input.endpoint == "" || server.value.started || !claimStarted)
  }

  /** The part of `Recoverable` for a name this CR holds. */
  predicate RecoverableClaim(input: Input, held: Lease, server: Option<Server>) {
    if NeedsDelivery(input, held) then
      server.Some? ==>
        && (input.tls.Some? || input.endpoint != "")
        && (input.endpoint == "" || server.value.started || !held.started)
    else if NeedsReplacing(input, held) then
      held.endpoint == "" ==> SettlesFromHealth(input, false, server)
    else
      SettlesFromHealth(input, held.started, server)
  }

  /**
  Exactly when one undisturbed pass converges, read off the claim and core before it. A name another CR
  holds is not this one's to settle. A free name must be free in core as well, or be a container's to
  take over with nothing left to start. A claim that records the spec already is not compared with core,
  so core must agree; one that records "started" is not started again. A claim that records something
  else is delivered in place if the server is or was key-pinned, and replaced otherwise.
  */
  predicate Recoverable(c: Cr, input: Input, slot: Slot) {
    if slot.lease.None? then
      slot.server.None? || (input.container && input.tls.Some? && input.endpoint == "")
    else
      slot.lease.value.holder == c && RecoverableClaim(input, slot.lease.value, slot.server)
  }

  // ---- The tail of a pass, last call first ----

  lemma FromStart(c: Cr, slot: Slot, input: Input)
    requires slot.lease.Some? && slot.server.Some?
    ensures var (s, _) := Undisturbed(c, slot, StartServer(input, slot.lease.value));
      && s.lease == Some(slot.lease.value.(started := true, version := slot.version))
      && s.server == Some(slot.server.value.(started := true))
  {
    var e := Answer(c, slot, StartServer(input, slot.lease.value), Heard);
    var e' := Answer(c, e.slot, e.pc, Heard);
    assert e'.pc.Idle?;
    assert Undisturbed(c, e.slot, e.pc).0 == e'.slot;
  }

  lemma FromRegister(c: Cr, slot: Slot, input: Input)
    requires Holds(c, slot.lease) && slot.server.None?
    requires slot.lease.value.endpoint == input.endpoint && (input.tls.Some? || input.endpoint != "")
    ensures var (s, _) := Undisturbed(c, slot, Register(input, slot.lease.value)); Converged(c, input, s)
  {
    var e := Answer(c, slot, Register(input, slot.lease.value), Heard);
    var e' := Answer(c, e.slot, e.pc, Heard);
    assert Undisturbed(c, e.slot, e.pc).0 == Undisturbed(c, e'.slot, e'.pc).0;
    if input.endpoint != "" {
      assert e'.pc == StartServer(input, e'.slot.lease.value);
      FromStart(c, e'.slot, input);
    }
  }

  lemma FromHealth(c: Cr, slot: Slot, input: Input)
    requires Holds(c, slot.lease)
    requires slot.lease.value.endpoint == input.endpoint && slot.lease.value.tls == input.tls
    ensures var (s, _) := Undisturbed(c, slot, AskHealth(input, slot.lease));
      Converged(c, input, s) <==> SettlesFromHealth(input, slot.lease.value.started, slot.server)
  {
    var e := Answer(c, slot, AskHealth(input, slot.lease), Heard);
    assert e.slot == slot;
    if e.pc.StartServer? {
      FromStart(c, slot, input);
    } else if e.pc.Register? {
      FromRegister(c, slot, input);
    }
  }

  lemma FromDelivery(c: Cr, slot: Slot, input: Input)
    requires Holds(c, slot.lease) && NeedsDelivery(input, slot.lease.value)
    ensures var (s, _) := Undisturbed(c, slot, Deliver(input, slot.lease.value, false));
      Converged(c, input, s) <==> RecoverableClaim(input, slot.lease.value, slot.server)
  {
    var e := Answer(c, slot, Deliver(input, slot.lease.value, false), Heard);
    if e.pc.RecordDelivery? {
      var e' := Answer(c, e.slot, e.pc, Heard);
      assert Undisturbed(c, e.slot, e.pc).0 == Undisturbed(c, e'.slot, e'.pc).0;
      FromHealth(c, e'.slot, input);
    }
  }

  lemma FromReplacing(c: Cr, slot: Slot, input: Input)
    requires Holds(c, slot.lease) && NeedsReplacing(input, slot.lease.value)
    ensures var (s, _) := Undisturbed(c, slot, AfterRefusalCheck(input, slot.lease));
      Converged(c, input, s) <==> RecoverableClaim(input, slot.lease.value, slot.server)
  {
    var e := Answer(c, slot, AfterRefusalCheck(input, slot.lease), Heard);
    if e.pc.PlainRecord? {
      var e' := Answer(c, e.slot, e.pc, Heard);
      assert Undisturbed(c, e.slot, e.pc).0 == Undisturbed(c, e'.slot, e'.pc).0;
      FromHealth(c, e'.slot, input);
    } else {
      FromHealth(c, e.slot, input);
    }
  }

  lemma FromRefusalCheck(c: Cr, slot: Slot, input: Input)
    requires Holds(c, slot.lease)
    ensures var (s, _) := Undisturbed(c, slot, AfterRefusalCheck(input, slot.lease));
      Converged(c, input, s) <==> RecoverableClaim(input, slot.lease.value, slot.server)
  {
    if NeedsDelivery(input, slot.lease.value) {
      FromDelivery(c, slot, input);
    } else if NeedsReplacing(input, slot.lease.value) {
      FromReplacing(c, slot, input);
    } else {
      FromHealth(c, slot, input);
    }
  }

  lemma FromTake(c: Cr, slot: Slot, input: Input)
    requires slot.lease.None? && slot.server.None?
    ensures Converged(c, input, Undisturbed(c, slot, Take(input)).0)
  {
    var e := Answer(c, slot, Take(input), Heard);
    assert Undisturbed(c, slot, Take(input)).0 == Undisturbed(c, e.slot, e.pc).0;
    if e.pc.Register? {
      FromRegister(c, e.slot, input);
    }
  }

  lemma FromFreeName(c: Cr, slot: Slot, input: Input)
    requires slot.lease.None?
    ensures slot.server.None? ==> Converged(c, input, Undisturbed(c, slot, AskHealth(input, None)).0)
    ensures slot.server.Some? && !input.container ==> !Converged(c, input, Undisturbed(c, slot, AskHealth(input, None)).0)
  {
    var e := Answer(c, slot, AskHealth(input, None), Heard);
    assert Undisturbed(c, slot, AskHealth(input, None)).0 == Undisturbed(c, e.slot, e.pc).0;
    if slot.server.None? {
      FromTake(c, slot, input);
    }
  }

  /** A name the claim is free for and core holds: a mirror, or a container's server to be moved. */
  lemma FromDiscovered(c: Cr, slot: Slot, input: Input)
    requires slot.lease.None? && slot.server.Some? && input.container
    ensures var (s, _) := Undisturbed(c, slot, AskHealth(input, None));
      && Holds(c, s.lease) && !s.lease.value.started
      && if CoreTakesUpdate(input, slot.server.value, true) then
           && s.lease.value.endpoint == input.endpoint && s.lease.value.tls == input.tls
           && s.server == Some(Server(By(c), input.endpoint, DeliveredTls(input, slot.server.value, true), slot.server.value.started))
         else
           && s.lease.value.endpoint == DISCOVERED && s.lease.value.tls.None? && s.server == slot.server
  {
    var e1 := Answer(c, slot, AskHealth(input, None), Heard);
    var e2 := Answer(c, e1.slot, e1.pc, Heard);
    var e3 := Answer(c, e2.slot, e2.pc, Heard);
    var e4 := Answer(c, e3.slot, e3.pc, Heard);
    assert Undisturbed(c, slot, AskHealth(input, None)).0 == Undisturbed(c, e1.slot, e1.pc).0;
    assert Undisturbed(c, e1.slot, e1.pc).0 == Undisturbed(c, e2.slot, e2.pc).0;
    assert Undisturbed(c, e2.slot, e2.pc).0 == Undisturbed(c, e3.slot, e3.pc).0;
    assert Undisturbed(c, e3.slot, e3.pc).0 == Undisturbed(c, e4.slot, e4.pc).0;
    if e4.pc.RecordDelivery? {
      var e5 := Answer(c, e4.slot, e4.pc, Heard);
      assert Undisturbed(c, e4.slot, e4.pc).0 == e5.slot;
    }
  }

  lemma QuietCall(c: Cr, slot: Slot, pc: Pc)
    requires !pc.Idle? && Reads(pc)
    ensures Undisturbed(c, slot, pc) == Undisturbed(c, slot, Answer(c, slot, pc, Heard).pc)
  {
    var e := Answer(c, slot, pc, Heard);
    var (slot', events) := Undisturbed(c, slot, e.pc);
    assert [] + events == events;
  }

  /** The first calls of a pass change nothing. */
  lemma OnePassStarts(c: Cr, input: Input, slot: Slot)
    requires slot.lease.None? || Holds(c, slot.lease)
    ensures OnePass(c, input, slot) == Undisturbed(c, slot, AfterRefusalCheck(input, slot.lease))
  {
    QuietCall(c, slot, ReadClaim(input));
    if AfterClaim(input, slot.lease).AskCapabilities? {
      QuietCall(c, slot, AskCapabilities(input, slot.lease));
    }
  }

  lemma OthersNameIsLeft(c: Cr, input: Input, slot: Slot)
    requires slot.lease.Some? && slot.lease.value.holder != c
    ensures OnePass(c, input, slot) == (slot, [])
  {
    QuietCall(c, slot, ReadClaim(input));
  }

  // ---- The theorems ----

  /** From any state of the claim and of core, one undisturbed pass converges if and only if it is recoverable. */
  lemma OnePassConvergesIffRecoverable(c: Cr, input: Input, slot: Slot)
    ensures Converged(c, input, OnePass(c, input, slot).0) <==> Recoverable(c, input, slot)
  {
    if slot.lease.Some? && slot.lease.value.holder != c {
      OthersNameIsLeft(c, input, slot);
    } else {
      OnePassStarts(c, input, slot);
      if slot.lease.Some? {
        FromRefusalCheck(c, slot, input);
      } else {
        FromFreeName(c, slot, input);
        if slot.server.Some? && input.container {
          FromDiscovered(c, slot, input);
        }
      }
    }
  }

  /** Once converged, a pass sends nothing and changes nothing. */
  lemma ConvergedStaysQuiet(c: Cr, input: Input, slot: Slot)
    requires Converged(c, input, slot)
    ensures OnePass(c, input, slot) == (slot, [])
  {
    OnePassStarts(c, input, slot);
    QuietCall(c, slot, AskHealth(input, slot.lease));
  }

  /**
  Taking over a server core discovered. The first pass does not start it, so it is enough only when there
  is nothing to start: a key-pinned container that has no address yet. The second pass ends it, unless a
  plain container took over an entry with a tls block, which core keeps and no pass compares.
  */
  lemma MoveTakesTwoPasses(c: Cr, input: Input, slot: Slot)
    requires slot.lease.None? && slot.server.Some? && input.container
    ensures Converged(c, input, OnePass(c, input, slot).0) <==> input.tls.Some? && input.endpoint == ""
    ensures Converged(c, input, OnePass(c, input, OnePass(c, input, slot).0).0) <==>
      input.tls.Some? || slot.server.value.tls.None?
  {
    OnePassStarts(c, input, slot);
    FromDiscovered(c, slot, input);
    OnePassConvergesIffRecoverable(c, input, slot);
    OnePassConvergesIffRecoverable(c, input, OnePass(c, input, slot).0);
  }

  /** The claim says started at the endpoint asked for, and the entry core holds now was never started. */
  predicate StaleStart(c: Cr, input: Input, slot: Slot) {
    OverUnstarted(c, slot) && slot.lease.value.endpoint == input.endpoint != ""
  }

  /** The name is this CR's and core holds nothing under it or a plain entry of its own, or it is free in both. */
  predicate OwnOrFree(c: Cr, slot: Slot) {
    if Holds(c, slot.lease) then slot.server.None? || (Mine(c, slot) && slot.server.value.tls.None?)
    else slot.lease.None? && slot.server.None?
  }

  /**
  Any point of any run of a plain CR: one undisturbed pass converges exactly when the state is recoverable;
  and as long as the name is its own or free, that comes to this: the claim's "started" is not stale.
  */
  lemma PlainPassRecovers(labels: seq<Label>, c: Cr, input: Input)
    requires PlainRun(labels, c) && input.tls.None?
    ensures var slot := SlotOf(Exec(INITIAL, labels), c.name);
      Converged(c, input, OnePass(c, input, slot).0) <==>
      if OwnOrFree(c, slot) && input.endpoint != DISCOVERED then !StaleStart(c, input, slot) else Recoverable(c, input, slot)
  {
    PlainRunKeeps(labels, c);
    OnePassConvergesIffRecoverable(c, input, SlotOf(Exec(INITIAL, labels), c.name));
  }

  // ---- Where recovery does not reach ----

  /** An undisturbed registration from scratch, as labels. */
  lemma RegistersFromScratch(c: Cr, input: Input) returns (labels: seq<Label>)
    requires input.endpoint != ""
    ensures forall l :: l in labels ==> l in {Begin(c, input), Answered(c, Heard)}
    ensures var w := Exec(INITIAL, labels); PcOf(w, c).Idle? && Converged(c, input, SlotOf(w, c.name))
  {
    var w := Step(INITIAL, Begin(c, input));
    var rest := UndisturbedIsARun(w, c);
    labels := [Begin(c, input)] + rest;
    assert labels[1..] == rest;
    OnePassConvergesIffRecoverable(c, input, EMPTY_SLOT);
  }

  /** A pass begins, has so many calls processed, and dies. */
  function Dying(c: Cr, input: Input, calls: nat): (labels: seq<Label>)
    ensures forall l :: l in labels ==> l in {Begin(c, input), Answered(c, Heard), Crash(c)}
  {
    [Begin(c, input)] + seq(calls, _ => Answered(c, Heard)) + [Crash(c)]
  }

  /** Where so many processed calls in a row leave a name and a pass. */
  function Calls(c: Cr, slot: Slot, pc: Pc, n: nat): (Slot, Pc)
    decreases n
  {
    if n == 0 then (slot, pc)
    else var e := Answer(c, slot, pc, Heard); Calls(c, e.slot, e.pc, n - 1)
  }

  lemma {:induction false} CallsAreARun(w: World, c: Cr, n: nat)
    ensures var w' := Exec(w, seq(n, _ => Answered(c, Heard)));
      (SlotOf(w', c.name), PcOf(w', c)) == Calls(c, SlotOf(w, c.name), PcOf(w, c), n)
    decreases n
  {
    var labels := seq(n, _ => Answered(c, Heard));
    if n > 0 {
      assert labels[1..] == seq(n - 1, _ => Answered(c, Heard));
      CallsAreARun(Step(w, Answered(c, Heard)), c, n - 1);
    }
  }

  lemma DyingPass(w: World, c: Cr, input: Input, n: nat)
    requires PcOf(w, c).Idle?
    ensures var w' := Exec(w, Dying(c, input, n));
      SlotOf(w', c.name) == Calls(c, SlotOf(w, c.name), ReadClaim(input), n).0 && PcOf(w', c).Idle?
  {
    var calls := seq(n, _ => Answered(c, Heard));
    var begun := Step(w, Begin(c, input));
    var ended := Exec(begun, calls);
    CallsAreARun(begun, c, n);
    assert Exec(w, [Begin(c, input)] + calls) == ended by {
      assert ([Begin(c, input)] + calls)[1..] == calls;
    }
    ExecAppend(w, [Begin(c, input)] + calls, [Crash(c)]);
    assert Exec(ended, [Crash(c)]) == Step(ended, Crash(c));
  }

  /** A claim that records the spec, and an entry: no pass sends anything any more. */
  lemma RecordedAndStartedStaysQuiet(c: Cr, input: Input, slot: Slot)
    requires Holds(c, slot.lease) && slot.server.Some? && slot.lease.value.started
    requires slot.lease.value.endpoint == input.endpoint && slot.lease.value.tls == input.tls
    ensures OnePass(c, input, slot) == (slot, [])
  {
    OnePassStarts(c, input, slot);
    QuietCall(c, slot, AskHealth(input, slot.lease));
  }

  /** The plain steps of the two scenarios below, on the name alone. */
  lemma ReplacedAndReverted(c: Cr, one: Input, two: Input, slot: Slot)
    requires Converged(c, one, slot) && one.tls.None? && two.tls.None?
    requires one.endpoint != "" && two.endpoint != "" && one.endpoint != two.endpoint
    ensures var deleted := Calls(c, slot, ReadClaim(two), 2).0;
      && deleted == slot.(server := None)
      && var again := Calls(c, deleted, ReadClaim(one), 3).0;
        again == slot.(server := Some(Server(By(c), one.endpoint, None, false)))
  {
  }

  lemma DeliveredUnrecorded(c: Cr, one: Input, two: Input, slot: Slot)
    requires Converged(c, one, slot) && one.tls.Some? && two.tls == one.tls
    requires one.endpoint != "" && two.endpoint != "" && one.endpoint != two.endpoint
    ensures var delivered := Calls(c, slot, ReadClaim(two), 3).0;
      delivered == slot.(server := Some(Server(By(c), two.endpoint, two.tls, true)))
    ensures var recorded := Calls(c, slot, ReadClaim(two), 4).0;
      Holds(c, recorded.lease) && recorded.lease.value.endpoint == two.endpoint
      && recorded.lease.value.started && !recorded.startSeen
  {
  }

  lemma ReplacedAndRevertedRun(w: World, c: Cr, one: Input, two: Input)
    requires PcOf(w, c).Idle? && Converged(c, one, SlotOf(w, c.name)) && one.tls.None? && two.tls.None?
    requires one.endpoint != "" && two.endpoint != "" && one.endpoint != two.endpoint
    ensures SlotOf(Exec(w, Dying(c, two, 2) + Dying(c, one, 3)), c.name) ==
            SlotOf(w, c.name).(server := Some(Server(By(c), one.endpoint, None, false)))
  {
    var w' := Exec(w, Dying(c, two, 2));
    ExecAppend(w, Dying(c, two, 2), Dying(c, one, 3));
    DyingPass(w, c, two, 2);
    DyingPass(w', c, one, 3);
    ReplacedAndReverted(c, one, two, SlotOf(w, c.name));
  }

  /**
  A stale "started" is reachable by a plain CR alone, with no call failing and nobody else touching
  core: the endpoint changes, the operator dies between the delete and the record, the endpoint
  changes back, and the operator dies between the registration and the start.
  */
  lemma StaleStartIsReachable(c: Cr, first: string, second: string) returns (labels: seq<Label>)
    requires first != "" && second != "" && first != second
    ensures PlainRun(labels, c) && forall l :: l in labels ==> !l.OutsideAdds? && !l.OutsideRemoves?
    ensures var input := Input(false, first, None); var slot := SlotOf(Exec(INITIAL, labels), c.name);
      && Mine(c, slot) && StaleStart(c, input, slot)
      && OnePass(c, input, slot) == (slot, []) && !Converged(c, input, slot)
  {
    hide Exec, Step, OnePass;
    var one, two := Input(false, first, None), Input(false, second, None);
    var start := RegistersFromScratch(c, one);
    var w := Exec(INITIAL, start);
    labels := start + (Dying(c, two, 2) + Dying(c, one, 3));
    ExecAppend(INITIAL, start, Dying(c, two, 2) + Dying(c, one, 3));
    ReplacedAndRevertedRun(w, c, one, two);
    RecordedAndStartedStaysQuiet(c, one, SlotOf(w, c.name).(server := Some(Server(By(c), first, None, false))));
  }

  /** A pass over a converged claim whose entry is gone, up to the start it is about to send. */
  lemma RegistersAgain(c: Cr, input: Input, slot: Slot)
    requires Converged(c, input, slot) && input.tls.None? && input.endpoint != ""
    ensures var (s, pc) := Calls(c, slot.(server := None), ReadClaim(input), 4);
      && pc.StartServer? && s.lease.Some? && s.lease.value == slot.lease.value.(version := s.lease.value.version)
      && s.server == Some(Server(By(c), input.endpoint, None, false))
  {
  }

  /** Core loses the entry, and the pass that registers it again has its start refused. */
  function LosesItsStart(c: Cr, input: Input): seq<Label> {
    [OutsideRemoves(c.name)] + ([Begin(c, input)] + (seq(4, _ => Answered(c, Heard)) + [Answered(c, Refused)]))
  }

  lemma Chained(w: World, l: Label, rest: seq<Label>)
    ensures Exec(w, [l] + rest) == Exec(Step(w, l), rest)
  {
    assert ([l] + rest)[1..] == rest;
  }

  lemma RefusedStart(w: World, c: Cr)
    requires PcOf(w, c).StartServer?
    ensures var w' := Step(w, Answered(c, Refused)); SlotOf(w', c.name) == SlotOf(w, c.name) && PcOf(w', c).Idle?
  {
  }

  lemma LosesItsStartRun(w: World, c: Cr, input: Input)
    requires PcOf(w, c).Idle? && Converged(c, input, SlotOf(w, c.name)) && input.tls.None? && input.endpoint != ""
    ensures var w' := Exec(w, LosesItsStart(c, input)); var slot, lease := SlotOf(w', c.name), SlotOf(w, c.name).lease;
      && PcOf(w', c).Idle? && slot.lease.Some? && slot.lease.value == lease.value.(version := slot.lease.value.version)
      && slot.server == Some(Server(By(c), input.endpoint, None, false))
  {
    var calls := seq(4, _ => Answered(c, Heard));
    var lost := Step(w, OutsideRemoves(c.name));
    var begun := Step(lost, Begin(c, input));
    assert SlotOf(begun, c.name) == SlotOf(w, c.name).(server := None) && PcOf(begun, c) == ReadClaim(input);
    hide Exec, Step, Converged;
    Chained(w, OutsideRemoves(c.name), [Begin(c, input)] + (calls + [Answered(c, Refused)]));
    Chained(lost, Begin(c, input), calls + [Answered(c, Refused)]);
    ExecAppend(begun, calls, [Answered(c, Refused)]);
    ExecOne(Exec(begun, calls), Answered(c, Refused));
    CallsAreARun(begun, c, 4);
    RegistersAgain(c, input, SlotOf(w, c.name));
    RefusedStart(Exec(begun, calls), c);
  }

  /**
  It takes neither a crash nor a changed endpoint: core loses the entry, the next pass registers it under
  the claim that still says started, and core refuses the start. No later pass tries again.
  */
  lemma StaleStartWithoutACrash(c: Cr, endpoint: string) returns (labels: seq<Label>)
    requires endpoint != ""
    ensures forall l :: l in labels ==> !l.Crash? && !l.OutsideAdds? && (l.Answered? ==> !l.reply.Lost?)
    ensures forall l :: l in labels && l.Begin? ==> l == Begin(c, Input(false, endpoint, None))
    ensures var input := Input(false, endpoint, None); var w := Exec(INITIAL, labels); var slot := SlotOf(w, c.name);
      && PcOf(w, c).Idle? && Mine(c, slot) && StaleStart(c, input, slot)
      && OnePass(c, input, slot) == (slot, []) && !Converged(c, input, slot)
  {
    hide Exec, Step, OnePass;
    var input := Input(false, endpoint, None);
    var start := RegistersFromScratch(c, input);
    labels := start + LosesItsStart(c, input);
    ExecAppend(INITIAL, start, LosesItsStart(c, input));
    LosesItsStartRun(Exec(INITIAL, start), c, input);
    RecordedAndStartedStaysQuiet(c, input, SlotOf(Exec(INITIAL, labels), c.name));
  }

  /**
  A key-pinned CR whose address changes, is delivered, and changes back before the delivery is
  recorded leaves core at the other address, and no later pass looks: the claim records the spec.
  */
  lemma UnrecordedDeliveryIsReachable(c: Cr, tls: Tls, first: string, second: string) returns (labels: seq<Label>)
    requires first != "" && second != "" && first != second
    ensures forall l :: l in labels ==> !l.OutsideAdds? && !l.OutsideRemoves? && (l.Begin? ==> l.input.tls == Some(tls))
    ensures var input := Input(true, first, Some(tls)); var slot := SlotOf(Exec(INITIAL, labels), c.name);
      && Mine(c, slot) && slot.server.value.endpoint == second
      && OnePass(c, input, slot) == (slot, []) && !Converged(c, input, slot)
  {
    var one, two := Input(true, first, Some(tls)), Input(true, second, Some(tls));
    var start := RegistersFromScratch(c, one);
    labels := start + Dying(c, two, 3);
    var w1 := Exec(INITIAL, start);
    ExecAppend(INITIAL, start, Dying(c, two, 3));
    DyingPass(w1, c, two, 3);
    DeliveredUnrecorded(c, one, two, SlotOf(w1, c.name));
    RecordedAndStartedStaysQuiet(c, one, SlotOf(Exec(INITIAL, labels), c.name));
  }

  /**
  The endpoint theorem's "started" clause is for plain CRs only: a key-pinned server that moves keeps
  "started" on a claim that records an endpoint core was never asked to start.
  */
  lemma KeyPinnedStartIsNotOfThisEndpoint(c: Cr, tls: Tls, first: string, second: string) returns (labels: seq<Label>)
    requires first != "" && second != "" && first != second
    ensures forall l :: l in labels ==> l.Begin? ==> l.input.tls == Some(tls)
    ensures var slot := SlotOf(Exec(INITIAL, labels), c.name);
      Holds(c, slot.lease) && slot.lease.value.endpoint == second && slot.lease.value.started && !slot.startSeen
  {
    var one, two := Input(true, first, Some(tls)), Input(true, second, Some(tls));
    var start := RegistersFromScratch(c, one);
    labels := start + Dying(c, two, 4);
    var w1 := Exec(INITIAL, start);
    ExecAppend(INITIAL, start, Dying(c, two, 4));
    DyingPass(w1, c, two, 4);
    DeliveredUnrecorded(c, one, two, SlotOf(w1, c.name));
  }

  lemma {:induction false} CallsInTwo(c: Cr, slot: Slot, pc: Pc, n: nat, m: nat)
    ensures var (s, p) := Calls(c, slot, pc, n); Calls(c, slot, pc, n + m) == Calls(c, s, p, m)
    decreases n
  {
    if n > 0 {
      var e := Answer(c, slot, pc, Heard);
      CallsInTwo(c, e.slot, e.pc, n - 1, m);
    }
  }

  /** A container's first pass reads a free claim, core's entry and its provenance, and goes to take it over. */
  lemma ReadsBeforeMove(c: Cr, slot: Slot, endpoint: string)
    requires slot.lease.None? && slot.server.Some?
    ensures var input := Input(true, endpoint, None); Calls(c, slot, ReadClaim(input), 3) == (slot, MoveTake(input))
  {
  }

  /** Where the six calls of a container's first pass over an entry with a tls block lead, without an address. */
  lemma MovedWithoutAddress(c: Cr, tls: Tls, slot: Slot)
    requires slot.lease.None? && slot.server.Some? && slot.server.value.tls == Some(tls)
    ensures var moved := Calls(c, slot, ReadClaim(Input(true, "", None)), 6).0;
      && Holds(c, moved.lease) && moved.lease.value.endpoint == ""
      && moved.server == Some(Server(By(c), "", Some(tls), slot.server.value.started))
  {
    var input := Input(true, "", None);
    CallsInTwo(c, slot, ReadClaim(input), 3, 3);
    ReadsBeforeMove(c, slot, "");
    MoveCalls(c, tls, slot);
  }

  lemma MoveCalls(c: Cr, tls: Tls, slot: Slot)
    requires slot.lease.None? && slot.server.Some? && slot.server.value.tls == Some(tls)
    ensures var moved := Calls(c, slot, MoveTake(Input(true, "", None)), 3).0;
      && Holds(c, moved.lease) && moved.lease.value.endpoint == ""
      && moved.server == Some(Server(By(c), "", Some(tls), slot.server.value.started))
  {
  }

  /**
  The one way a plain CR's claim comes to disagree with core: a container without an address takes over a
  key-pinned entry, whose endpoint core clears, and then a claim with no endpoint has something in core.
  */
  lemma KeyPinnedEntryMovedWithoutAddress(c: Cr, tls: Tls, endpoint: string) returns (labels: seq<Label>)
    ensures forall l :: l in labels && l.Begin? ==> l.input.tls.None?
    ensures var slot := SlotOf(Exec(INITIAL, labels), c.name);
      Holds(c, slot.lease) && slot.lease.value.endpoint == "" && Mine(c, slot)
  {
    var added, input := OutsideAdds(c.name, endpoint, Some(tls)), Input(true, "", None);
    labels := [added] + Dying(c, input, 6);
    var w := Step(INITIAL, added);
    assert Exec(INITIAL, [added]) == w;
    ExecAppend(INITIAL, [added], Dying(c, input, 6));
    DyingPass(w, c, input, 6);
    MovedWithoutAddress(c, tls, SlotOf(w, c.name));
  }
}

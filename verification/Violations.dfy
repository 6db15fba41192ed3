/**
The violation ledger of an MCPServer. A violation that persists is recorded once, when it starts; what was
active before is not a field of its own but is read back out of the condition's printed message.
*/
module Violations {
  import opened Wrappers
  import opened Strings

  const MAX_VIOLATION_RECORDS := 100
  const ACTIVE_PREFIX := "Active violations: "

  // ---- Printing the active types and reading them back ----

  function Join(items: seq<string>, separator: string): string {
    if items == [] then ""
    else if |items| == 1 then items[0]
    else items[0] + separator + Join(items[1..], separator)
  }

  function SplitAtCommas(s: string): (parts: seq<string>)
    ensures |parts| > 0
  {
    if s == "" then [""]
    else
      var rest := SplitAtCommas(s[1..]);
      if s[0] == ',' then [""] + rest else [[s[0]] + rest[0]] + rest[1..]
  }

  /** White space as Unicode has it, which is what Go trims. */
  predicate IsSpace(c: char) {
    || c in {' ', '\t', '\n', '\r', '\U{0B}', '\U{0C}', '\U{85}', '\U{A0}'}
    || c in {'\U{1680}', '\U{2028}', '\U{2029}', '\U{202F}', '\U{205F}', '\U{3000}'}
    || '\U{2000}' <= c <= '\U{200A}'
  }

  function TrimLeft(s: string): string {
    if s != "" && IsSpace(s[0]) then TrimLeft(s[1..]) else s
  }

  function TrimRight(s: string): string {
    if s != "" && IsSpace(s[|s| - 1]) then TrimRight(s[..|s| - 1]) else s
  }

  function TrimSpace(s: string): string {
    TrimRight(TrimLeft(s))
  }

  function Trimmed(parts: seq<string>): set<string> {
    set i | 0 <= i < |parts| && TrimSpace(parts[i]) != "" :: TrimSpace(parts[i])
  }

  datatype Condition = Condition(isTrue: bool, message: string)

  function Message(types: seq<string>): string {
    ACTIVE_PREFIX + Join(types, ", ")
  }

  /** activeViolationTypes: what a True condition lists after the prefix. */
  function ActiveTypes(c: Option<Condition>): set<string> {
    if c.None? || !c.value.isTrue || !(ACTIVE_PREFIX <= c.value.message) then {}
    else Trimmed(SplitAtCommas(c.value.message[|ACTIVE_PREFIX|..]))
  }

  /** A type that survives printing: something, without commas, not starting or ending in space. */
  predicate Clean(t: string) {
    t != "" && ',' !in t && !IsSpace(t[0]) && !IsSpace(t[|t| - 1])
  }

  lemma {:induction false} SplitAfterOne(t: string, rest: string)
    requires ',' !in t
    ensures SplitAtCommas(t) == [t]
    ensures SplitAtCommas(t + "," + rest) == [t] + SplitAtCommas(rest)
    decreases |t|
  {
    var s := t + "," + rest;
    if t == "" {
      assert s[1..] == rest;
    } else {
      SplitAfterOne(t[1..], rest);
      assert s[1..] == t[1..] + "," + rest;
      assert [t[0]] + t[1..] == t;
    }
  }

  lemma TrimClean(t: string)
    requires Clean(t)
    ensures TrimSpace(t) == t && TrimSpace(" " + t) == t
  {
    assert (" " + t)[1..] == t;
  }

  /** The parts between the commas of a printed list: the types, all but the first after a space. */
  lemma {:induction false} SplitPrinted(types: seq<string>, lead: string)
    requires (forall t :: t in types ==> Clean(t)) && types != [] && (lead == "" || lead == " ")
    ensures Trimmed(SplitAtCommas(lead + Join(types, ", "))) == set t | t in types
    decreases |types|
  {
    var t := types[0];
    assert Clean(t);
    if |types| == 1 {
      assert types == [t] && Join(types, ", ") == t;
      FirstPart(t, lead, []);
      SplitAfterOne(lead + t, "");
    } else {
      SplitOffFirst(t, lead, Join(types[1..], ", "));
      SplitPrinted(types[1..], " ");
      assert types == [t] + types[1..];
    }
  }

  lemma SplitOffFirst(t: string, lead: string, rest: string)
    requires Clean(t) && (lead == "" || lead == " ")
    ensures Trimmed(SplitAtCommas(lead + (t + ", " + rest))) == {t} + Trimmed(SplitAtCommas(" " + rest))
  {
    Regrouped(lead, t, rest);
    FirstPart(t, lead, SplitAtCommas(" " + rest));
    SplitAfterOne(lead + t, " " + rest);
  }

  lemma Regrouped(lead: string, t: string, rest: string)
    ensures lead + (t + ", " + rest) == (lead + t) + "," + (" " + rest)
  {
  }

  lemma FirstPart(t: string, lead: string, rest: seq<string>)
    requires Clean(t) && (lead == "" || lead == " ")
    ensures ',' !in lead + t
    ensures Trimmed([lead + t] + rest) == {t} + Trimmed(rest)
    ensures rest == [] ==> Trimmed([lead + t]) == {t}
  {
    TrimClean(t);
    assert "" + t == t;
    TrimmedStep(lead + t, rest);
    if rest == [] {
      assert [lead + t] + rest == [lead + t];
      assert Trimmed(rest) == {};
    }
  }

  lemma TrimmedStep(part: string, rest: seq<string>)
    ensures Trimmed([part] + rest) == (if TrimSpace(part) == "" then {} else {TrimSpace(part)}) + Trimmed(rest)
  {
    var parts := [part] + rest;
    forall t | t in Trimmed(rest) ensures t in Trimmed(parts) {
      var i :| 0 <= i < |rest| && TrimSpace(rest[i]) == t;
      assert parts[i + 1] == rest[i];
    }
    if TrimSpace(part) != "" {
      assert parts[0] == part;
    }
  }

  /** What is printed is read back: the active set survives the trip through the message. */
  lemma ActiveTypesAreReadBack(types: seq<string>)
    requires forall t :: t in types ==> Clean(t)
    ensures ActiveTypes(Some(Condition(true, Message(types)))) == set t | t in types
  {
    assert Message(types)[|ACTIVE_PREFIX|..] == Join(types, ", ");
    if types == [] {
      assert TrimSpace("") == "";
    } else {
      SplitPrinted(types, "");
      assert "" + Join(types, ", ") == Join(types, ", ");
    }
  }

  // ---- One pass ----

  datatype Kind = CapabilityDrift | UndeclaredTool

  function Text(kind: Kind): string {
    match kind
    case CapabilityDrift => "capability_drift"
    case UndeclaredTool => "undeclared_tool"
  }

  datatype Severity = High | Medium

  datatype Detail = PolicyNotApplied | TooMany(tools: int, declared: int)

  datatype Record = Record(kind: Kind, detail: Detail, severity: Severity, action: string, timestamp: int)

  datatype Reason = WrittenUnenforced | WrittenUnverified | OtherReason(text: string)

  /** The network policy's condition: whether it is True, and its reason. */
  datatype Applied = Applied(isTrue: bool, reason: Reason)

  /** The declared capabilities: how many egress rules, the tool limit, the enforcement mode. */
  datatype Capabilities = Capabilities(egress: Option<nat>, maxTools: Option<int>, enforcementMode: string)

  datatype Pass = Pass(capabilities: Option<Capabilities>, policy: Option<Applied>, toolsCount: int, now: int)

  /** Egress is declared, and no policy was even written for it. */
  predicate Drifts(p: Pass)
    requires p.capabilities.Some?
  {
    && p.capabilities.value.egress.Some? && p.capabilities.value.egress.value > 0
    && (p.policy.None? || (!p.policy.value.isTrue && p.policy.value.reason.OtherReason?))
  }

  predicate TooManyTools(p: Pass)
    requires p.capabilities.Some?
  {
    && p.capabilities.value.maxTools.Some? && p.capabilities.value.maxTools.value > 0
    && p.toolsCount > p.capabilities.value.maxTools.value
  }

  predicate Finds(p: Pass, kind: Kind)
    requires p.capabilities.Some?
  {
    match kind
    case CapabilityDrift => Drifts(p)
    case UndeclaredTool => TooManyTools(p)
  }

  function Mode(p: Pass): string
    requires p.capabilities.Some?
  {
    if p.capabilities.value.enforcementMode == "" then "alert" else p.capabilities.value.enforcementMode
  }

  function RecordOf(p: Pass, kind: Kind): Record
    requires p.capabilities.Some? && Finds(p, kind)
  {
    match kind
    case CapabilityDrift => Record(CapabilityDrift, PolicyNotApplied, High, Mode(p), p.now)
    case UndeclaredTool =>
      Record(UndeclaredTool, TooMany(p.toolsCount, p.capabilities.value.maxTools.value), Medium, Mode(p), p.now)
  }

  function FoundOf(p: Pass, kind: Kind): seq<Record>
    requires p.capabilities.Some?
  {
    if Finds(p, kind) then [RecordOf(p, kind)] else []
  }

  /** The violations a pass finds, at most one of each type. */
  function Found(p: Pass): seq<Record>
    requires p.capabilities.Some?
  {
    FoundOf(p, CapabilityDrift) + FoundOf(p, UndeclaredTool)
  }

  function Types(records: seq<Record>): seq<string> {
    if records == [] then [] else Types(records[..|records| - 1]) + [Text(records[|records| - 1].kind)]
  }

  /** Those of the records whose type was not active. */
  function Fresh(records: seq<Record>, active: set<string>): seq<Record> {
    if records == [] then []
    else
      var r := records[|records| - 1];
      Fresh(records[..|records| - 1], active) + if Text(r.kind) in active then [] else [r]
  }

  function Newest(records: seq<Record>): seq<Record> {
    if |records| > MAX_VIOLATION_RECORDS then records[|records| - MAX_VIOLATION_RECORDS..] else records
  }

  /** What is stored between passes. */
  datatype Ledger = Ledger(violations: seq<Record>, detected: Option<Condition>)

  const CLEARED := Condition(false, "No capability violations detected")

  function Recorded(l: Ledger, p: Pass): Ledger {
    if p.capabilities.None? then l
    else if Found(p) == [] then l.(detected := if l.detected.Some? && l.detected.value.isTrue then Some(CLEARED) else l.detected)
    else Ledger(Newest(l.violations + Fresh(Found(p), ActiveTypes(l.detected))),
                Some(Condition(true, Message(Sort(Types(Found(p)))))))
  }

  method Detect(p: Pass) returns (newViolations: seq<Record>)
    requires p.capabilities.Some?
    ensures newViolations == Found(p)
  {
    newViolations := [];
    if Drifts(p) {
      newViolations := newViolations + [RecordOf(p, CapabilityDrift)];
    }
    if TooManyTools(p) {
      newViolations := newViolations + [RecordOf(p, UndeclaredTool)];
    }
  }

  /** The types found, and the records of those that were not active. */
  method SeparateRisen(records: seq<Record>, previouslyActive: set<string>)
    returns (activeTypes: seq<string>, risen: seq<Record>)
    ensures activeTypes == Types(records) && risen == Fresh(records, previouslyActive)
  {
    activeTypes, risen := [], [];
    for i := 0 to |records|
      invariant activeTypes == Types(records[..i]) && risen == Fresh(records[..i], previouslyActive)
    {
      var v := records[i];
      assert records[..i + 1][..i] == records[..i];
      activeTypes := activeTypes + [Text(v.kind)];
      if Text(v.kind) !in previouslyActive {
        risen := risen + [v];
      }
    }
    assert records[..|records|] == records;
  }

  /** The status fields the pass updates in place. */
  class ServerStatus {
    var violations: seq<Record>
    var detected: Option<Condition>

    ghost function State(): Ledger
      reads this
    {
      Ledger(violations, detected)
    }

    constructor (l: Ledger)
      ensures State() == l
    {
      violations, detected := l.violations, l.detected;
    }

    method ReconcileViolationDetection(p: Pass)
      modifies this
      ensures State() == Recorded(old(State()), p)
    {
      if p.capabilities.None? {
        return;
      }
      var newViolations := Detect(p);
      if |newViolations| == 0 {
        if detected.Some? && detected.value.isTrue {
          detected := Some(CLEARED);
        }
        return;
      }
      var activeTypes, risen := SeparateRisen(newViolations, ActiveTypes(detected));
      violations := violations + risen;
      if |violations| > MAX_VIOLATION_RECORDS {
        var overflow := |violations| - MAX_VIOLATION_RECORDS;
        violations := violations[overflow..];
      }
      detected := Some(Condition(true, Message(Sort(activeTypes))));
    }
  }

  // ---- One pass, from what it reads ----

  /** Egress is declared, and nothing says that a policy was written for it. */
  predicate ReadsDrift(caps: Capabilities, policy: Option<Applied>) {
    && caps.egress.Some? && caps.egress.value > 0
    && (policy.None? || (!policy.value.isTrue && policy.value.reason !in {WrittenUnenforced, WrittenUnverified}))
  }

  lemma FoundFromReadings(p: Pass)
    requires p.capabilities.Some?
    ensures var caps := p.capabilities.value; var mode := if caps.enforcementMode == "" then "alert" else caps.enforcementMode;
      && FoundOf(p, CapabilityDrift) ==
           (if ReadsDrift(caps, p.policy) then [Record(CapabilityDrift, PolicyNotApplied, High, mode, p.now)] else [])
      && FoundOf(p, UndeclaredTool) ==
           (if caps.maxTools.Some? && 0 < caps.maxTools.value < p.toolsCount
            then [Record(UndeclaredTool, TooMany(p.toolsCount, caps.maxTools.value), Medium, mode, p.now)] else [])
  {
  }

  lemma RecordedInTwo(l: Ledger, p: Pass)
    requires p.capabilities.Some?
    ensures var a, b, active := FoundOf(p, CapabilityDrift), FoundOf(p, UndeclaredTool), ActiveTypes(l.detected);
      Recorded(l, p).violations == if a + b == [] then l.violations else Newest(l.violations + (Fresh(a, active) + Fresh(b, active)))
  {
    FreshOfFound(p, ActiveTypes(l.detected));
  }

  /** One record, kept if its type was not active. */
  lemma FreshOfOne(r: Record, active: set<string>)
    ensures Fresh([r], active) == if Text(r.kind) in active then [] else [r]
  {
    assert [r][..0] == [];
  }

  /**
  A pass with capabilities, from the raw readings. Drift: egress is declared, and the network policy's
  condition is missing, or not True for a reason other than that the policy was written but is not known to be
  enforced. Tools: a positive limit, and more tools than that. Each is recorded unless it was active before,
  with the mode of the spec or "alert", and the list keeps its newest hundred.
  */
  lemma PassFromReadings(l: Ledger, p: Pass)
    requires p.capabilities.Some?
    ensures var caps, active := p.capabilities.value, ActiveTypes(l.detected);
      var drift, tools := ReadsDrift(caps, p.policy), caps.maxTools.Some? && 0 < caps.maxTools.value < p.toolsCount;
      var mode := if caps.enforcementMode == "" then "alert" else caps.enforcementMode;
      var a := if drift && "capability_drift" !in active
               then [Record(CapabilityDrift, PolicyNotApplied, High, mode, p.now)] else [];
      var b := if tools && "undeclared_tool" !in active
               then [Record(UndeclaredTool, TooMany(p.toolsCount, caps.maxTools.value), Medium, mode, p.now)] else [];
      var all := l.violations + (a + b);
      Recorded(l, p).violations ==
        if !drift && !tools then l.violations else if |all| > 100 then all[|all| - 100..] else all
  {
    hide Recorded, FoundOf, Fresh, ActiveTypes, ReadsDrift;
    var caps, active := p.capabilities.value, ActiveTypes(l.detected);
    var mode := if caps.enforcementMode == "" then "alert" else caps.enforcementMode;
    FoundFromReadings(p);
    RecordedInTwo(l, p);
    FreshOfNone(active);
    FreshOfOne(Record(CapabilityDrift, PolicyNotApplied, High, mode, p.now), active);
    if caps.maxTools.Some? {
      FreshOfOne(Record(UndeclaredTool, TooMany(p.toolsCount, caps.maxTools.value), Medium, mode, p.now), active);
    }
  }

  lemma FreshOfNone(active: set<string>)
    ensures Fresh([], active) == []
  {
  }

  /** What it found is what its condition then says is active; a condition that was True and finds nothing is cleared. */
  lemma ActiveFromReadings(l: Ledger, p: Pass)
    requires p.capabilities.Some?
    ensures var caps, after := p.capabilities.value, Recorded(l, p).detected;
      var drift, tools := ReadsDrift(caps, p.policy), caps.maxTools.Some? && 0 < caps.maxTools.value < p.toolsCount;
      && ("capability_drift" in ActiveTypes(after) <==> drift)
      && ("undeclared_tool" in ActiveTypes(after) <==> tools)
      && (after.Some? && after.value.isTrue <==> drift || tools)
      && (!drift && !tools && l.detected.Some? && l.detected.value.isTrue ==>
            after == Some(Condition(false, "No capability violations detected")))
      && (!drift && !tools && (l.detected.None? || !l.detected.value.isTrue) ==> after == l.detected)
  {
    ActiveIsReadBack(l, p, CapabilityDrift);
    ActiveIsReadBack(l, p, UndeclaredTool);
    hide ActiveTypes;
    assert Found(p) == [] <==> !Drifts(p) && !TooManyTools(p);
  }

  /** The message it prints, letter for letter. */
  lemma MessageFromReadings(l: Ledger, p: Pass)
    requires p.capabilities.Some?
    ensures var caps, after := p.capabilities.value, Recorded(l, p).detected;
      var drift, tools := ReadsDrift(caps, p.policy), caps.maxTools.Some? && 0 < caps.maxTools.value < p.toolsCount;
      && (drift && tools ==> after.Some?)
      && (drift && tools ==> after.value.message == "Active violations: " + ("capability_drift" + ", " + "undeclared_tool"))
      && (drift && !tools ==> after.Some? && after.value.message == "Active violations: " + "capability_drift")
      && (!drift && tools ==> after.Some? && after.value.message == "Active violations: " + "undeclared_tool")
  {
    hide ReadsDrift, Fresh;
    FoundFromReadings(p);
    FreshOfFound(p, {});
    TypesOfOne(p, CapabilityDrift, {});
    TypesOfOne(p, UndeclaredTool, {});
    PrintedPair("capability_drift", "undeclared_tool");
  }

  lemma PrintedPair(a: string, b: string)
    requires a != "" && b != "" && a[0] < b[0]
    ensures Message(Sort([a] + [b])) == ACTIVE_PREFIX + (a + ", " + b)
    ensures Message(Sort([a] + [])) == ACTIVE_PREFIX + a && Message(Sort([] + [b])) == ACTIVE_PREFIX + b
  {
    assert [a] + [b] == [a, b] && [a] + [] == [a] && [] + [b] == [b];
    assert [a, b][1..] == [b] && [b][1..] == [] && [a][1..] == [];
    assert Sort([b]) == [b] && Sort([a]) == [a] && Sort([a, b]) == [a, b];
    assert Join([a, b], ", ") == a + ", " + b;
  }

  /** Without capabilities a pass does nothing. */
  lemma NoCapabilitiesNothing(l: Ledger, p: Pass)
    requires p.capabilities.None?
    ensures Recorded(l, p) == l
  {
  }

  // ---- Over any sequence of passes ----

  function Run(l: Ledger, passes: seq<Pass>): Ledger {
    if passes == [] then l else Recorded(Run(l, passes[..|passes| - 1]), passes[|passes| - 1])
  }

  /** The types active after these passes: those the last pass with capabilities found. */
  predicate ActiveAfter(start: set<string>, passes: seq<Pass>, kind: Kind) {
    if passes == [] then Text(kind) in start
    else
      var p := passes[|passes| - 1];
      if p.capabilities.None? then ActiveAfter(start, passes[..|passes| - 1], kind) else Finds(p, kind)
  }

  /** A rising edge: this pass finds the type and it was not active before. No condition, no message. */
  predicate Rises(start: set<string>, passes: seq<Pass>, k: nat, kind: Kind)
    requires k < |passes|
  {
    passes[k].capabilities.Some? && Finds(passes[k], kind) && !ActiveAfter(start, passes[..k], kind)
  }

  function RecordIfRisen(start: set<string>, passes: seq<Pass>, k: nat, kind: Kind): seq<Record>
    requires k < |passes|
  {
    if Rises(start, passes, k, kind) then [RecordOf(passes[k], kind)] else []
  }

  /** Every record there ever was: at each pass, drift and then tools, each if it rises. */
  function FullHistory(start: set<string>, passes: seq<Pass>): seq<Record> {
    if passes == [] then []
    else
      var n := |passes| - 1;
      FullHistory(start, passes[..n])
      + (RecordIfRisen(start, passes, n, CapabilityDrift) + RecordIfRisen(start, passes, n, UndeclaredTool))
  }

  lemma TextsAreClean()
    ensures forall kind :: Clean(Text(kind))
    ensures Text(CapabilityDrift) != Text(UndeclaredTool)
  {
    assert Text(CapabilityDrift)[0] == 'c' && Text(UndeclaredTool)[0] == 'u';
    forall kind ensures Clean(Text(kind)) {
      match kind
      case CapabilityDrift => assert Text(kind)[15] == 't';
      case UndeclaredTool => assert Text(kind)[14] == 'l';
    }
  }

  lemma TypesOfTwo(a: seq<Record>, b: seq<Record>, active: set<string>)
    requires |a| <= 1 && |b| <= 1
    ensures Types(a + b) == Types(a) + Types(b)
    ensures Fresh(a + b, active) == Fresh(a, active) + Fresh(b, active)
  {
    if b == [] {
      assert a + b == a;
    } else {
      assert (a + b)[..|a|] == a && b[..0] == [];
    }
  }

  lemma TypesOfOne(p: Pass, kind: Kind, active: set<string>)
    requires p.capabilities.Some?
    ensures Types(FoundOf(p, kind)) == if Finds(p, kind) then [Text(kind)] else []
    ensures Fresh(FoundOf(p, kind), active) == if Finds(p, kind) && Text(kind) !in active then [RecordOf(p, kind)] else []
  {
    assert Finds(p, kind) ==> FoundOf(p, kind)[..0] == [];
  }

  lemma FreshOfFound(p: Pass, active: set<string>)
    requires p.capabilities.Some?
    ensures Fresh(Found(p), active) == Fresh(FoundOf(p, CapabilityDrift), active) + Fresh(FoundOf(p, UndeclaredTool), active)
    ensures Types(Found(p)) == Types(FoundOf(p, CapabilityDrift)) + Types(FoundOf(p, UndeclaredTool))
  {
    TypesOfTwo(FoundOf(p, CapabilityDrift), FoundOf(p, UndeclaredTool), active);
  }

  lemma MembersOfTwo(list: seq<string>, hasA: bool, a: string, hasB: bool, b: string)
    requires list == (if hasA then [a] else []) + (if hasB then [b] else []) && a != b && Clean(a) && Clean(b)
    ensures (a in list <==> hasA) && (b in list <==> hasB) && forall t :: t in list ==> Clean(t)
  {
  }

  /** The types found, as they are printed. */
  lemma TypesOfFound(p: Pass, kind: Kind)
    requires p.capabilities.Some?
    ensures Text(kind) in Types(Found(p)) <==> Finds(p, kind)
    ensures forall t :: t in Types(Found(p)) ==> Clean(t)
  {
    TextsAreClean();
    FreshOfFound(p, {});
    TypesOfOne(p, CapabilityDrift, {});
    TypesOfOne(p, UndeclaredTool, {});
    MembersOfTwo(Types(Found(p)), Drifts(p), Text(CapabilityDrift), TooManyTools(p), Text(UndeclaredTool));
  }

  /** The condition a pass leaves is read back as the types the pass found. */
  lemma ActiveIsReadBack(l: Ledger, p: Pass, kind: Kind)
    requires p.capabilities.Some?
    ensures Text(kind) in ActiveTypes(Recorded(l, p).detected) <==> Finds(p, kind)
  {
    var types := Types(Found(p));
    TypesOfFound(p, kind);
    if Found(p) != [] {
      SortedTypesAreReadBack(types);
    }
  }

  lemma SortedTypesAreReadBack(types: seq<string>)
    requires forall t :: t in types ==> Clean(t)
    ensures ActiveTypes(Some(Condition(true, Message(Sort(types))))) == set t | t in types
  {
    SortSorts(types);
    assert forall t :: t in Sort(types) <==> t in multiset(Sort(types));
    assert forall t :: t in types <==> t in multiset(types);
    ActiveTypesAreReadBack(Sort(types));
  }

  lemma DropTwice<T>(s: seq<T>, i: nat, j: nat)
    requires i + j <= |s|
    ensures s[i..][j..] == s[i + j..]
  {
  }

  lemma NewestOfNewest(a: seq<Record>, b: seq<Record>)
    ensures Newest(Newest(a) + b) == Newest(a + b)
  {
    if |a| > MAX_VIOLATION_RECORDS {
      var cut := |a| - MAX_VIOLATION_RECORDS;
      assert (a + b)[cut..] == a[cut..] + b;
      DropTwice(a + b, cut, |b|);
      assert b == [] ==> a[cut..] + b == (a + b)[cut..][0..];
    }
  }

  /** One pass appends exactly the records of its rising edges to whatever the ledger held. */
  lemma PassAppendsEdges(before: Ledger, start: set<string>, passes: seq<Pass>, n: nat)
    requires n + 1 == |passes| && passes[n].capabilities.Some? && |before.violations| <= MAX_VIOLATION_RECORDS
    requires forall kind :: Text(kind) in ActiveTypes(before.detected) <==> ActiveAfter(start, passes[..n], kind)
    ensures Recorded(before, passes[n]).violations ==
      Newest(before.violations
             + (RecordIfRisen(start, passes, n, CapabilityDrift) + RecordIfRisen(start, passes, n, UndeclaredTool)))
  {
    var p, active := passes[n], ActiveTypes(before.detected);
    FreshOfFound(p, active);
    TypesOfOne(p, CapabilityDrift, active);
    TypesOfOne(p, UndeclaredTool, active);
    assert Fresh(FoundOf(p, CapabilityDrift), active) == RecordIfRisen(start, passes, n, CapabilityDrift);
    assert Fresh(FoundOf(p, UndeclaredTool), active) == RecordIfRisen(start, passes, n, UndeclaredTool);
    if Found(p) == [] {
      assert Fresh(Found(p), active) == [];
      assert before.violations + [] == before.violations;
    }
  }

  /** The newest hundred of the full history, and a message that still says what was active. */
  ghost predicate Agrees(end: Ledger, l: Ledger, passes: seq<Pass>) {
    && end.violations == Newest(l.violations + FullHistory(ActiveTypes(l.detected), passes))
    && (forall kind :: Text(kind) in ActiveTypes(end.detected) <==> ActiveAfter(ActiveTypes(l.detected), passes, kind))
  }

  lemma PassKeepsAgreement(before: Ledger, l: Ledger, passes: seq<Pass>, n: nat)
    requires n + 1 == |passes| && Agrees(before, l, passes[..n])
    ensures Agrees(Recorded(before, passes[n]), l, passes)
  {
    var start, p := ActiveTypes(l.detected), passes[n];
    var history := l.violations + FullHistory(start, passes[..n]);
    var more := RecordIfRisen(start, passes, n, CapabilityDrift) + RecordIfRisen(start, passes, n, UndeclaredTool);
    assert l.violations + FullHistory(start, passes) == history + more;
    if p.capabilities.None? {
      assert history + more == history;
    } else {
      PassAppendsEdges(before, start, passes, n);
      NewestOfNewest(history, more);
      forall kind ensures Text(kind) in ActiveTypes(Recorded(before, p).detected) <==> ActiveAfter(start, passes, kind) {
        ActiveIsReadBack(before, p, kind);
      }
    }
  }

  /** After any passes from any ledger. */
  lemma {:induction false} LedgerIsNewestOfHistory(l: Ledger, passes: seq<Pass>)
    requires |l.violations| <= MAX_VIOLATION_RECORDS
    ensures Agrees(Run(l, passes), l, passes)
    decreases |passes|
  {
    if passes == [] {
      assert l.violations + [] == l.violations;
    } else {
      var n := |passes| - 1;
      LedgerIsNewestOfHistory(l, passes[..n]);
      PassKeepsAgreement(Run(l, passes[..n]), l, passes, n);
    }
  }

  function Count(records: seq<Record>, kind: Kind): nat {
    if records == [] then 0
    else Count(records[..|records| - 1], kind) + if records[|records| - 1].kind == kind then 1 else 0
  }

  function Edges(start: set<string>, passes: seq<Pass>, kind: Kind): nat {
    if passes == [] then 0
    else Edges(start, passes[..|passes| - 1], kind) + if Rises(start, passes, |passes| - 1, kind) then 1 else 0
  }

  lemma {:induction false} CountBoth(a: seq<Record>, b: seq<Record>, kind: Kind)
    ensures Count(a + b, kind) == Count(a, kind) + Count(b, kind)
  {
    if b == [] {
      assert a + b == a;
    } else {
      assert (a + b)[..|a + b| - 1] == a + b[..|b| - 1];
      CountBoth(a, b[..|b| - 1], kind);
    }
  }

  /** One record per rising edge, of each type. */
  lemma {:induction false} OneRecordPerEdge(start: set<string>, passes: seq<Pass>, kind: Kind)
    ensures Count(FullHistory(start, passes), kind) == Edges(start, passes, kind)
    decreases |passes|
  {
    if passes != [] {
      var n := |passes| - 1;
      OneRecordPerEdge(start, passes[..n], kind);
      var drift := RecordIfRisen(start, passes, n, CapabilityDrift);
      var tools := RecordIfRisen(start, passes, n, UndeclaredTool);
      CountBoth(FullHistory(start, passes[..n]), drift + tools, kind);
      CountBoth(drift, tools, kind);
    }
  }
}

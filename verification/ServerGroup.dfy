/**
MCPServerGroup: the aggregate of the servers a selector picks, and the health policy over it. Counts
are 32-bit, as in the API type; the policy's arithmetic wraps and truncates as Go's does.
*/
module ServerGroup {
  import opened Wrappers
  import opened MergePatch
  import StatusWrite

  const TWO_TO_THE_32 := 0x1_0000_0000
  const MAX_INT32 := 0x7FFF_FFFF

  /** An integer kept in 32 bits, two's complement. */
  function Int32(n: int): (r: int)
    ensures -MAX_INT32 - 1 <= r <= MAX_INT32
    ensures 0 <= n <= MAX_INT32 ==> r == n
  {
    var low := n % TWO_TO_THE_32;
    if low > MAX_INT32 then low - TWO_TO_THE_32 else low
  }

  lemma WholeTurns(n: int, k: int)
    ensures (n + k * TWO_TO_THE_32) % TWO_TO_THE_32 == n % TWO_TO_THE_32
  {
    var q, r := n / TWO_TO_THE_32, n % TWO_TO_THE_32;
    assert n + k * TWO_TO_THE_32 == (q + k) * TWO_TO_THE_32 + r;
  }

  /** A counter that wraps holds what the count wraps to. */
  lemma Int32Increment(n: int)
    ensures Int32(Int32(n) + 1) == Int32(n + 1)
  {
    var low := n % TWO_TO_THE_32;
    WholeTurns(low + 1, n / TWO_TO_THE_32);
    WholeTurns(low + 1, -1);
    assert Int32(n) == low || Int32(n) == low - TWO_TO_THE_32;
    assert (Int32(n) + 1) % TWO_TO_THE_32 == (low + 1) % TWO_TO_THE_32 == (n + 1) % TWO_TO_THE_32;
  }

  /** Go's division: it truncates toward zero. */
  function Quotient(a: int, b: int): int
    requires b != 0
  {
    var q := (if a < 0 then -a else a) / (if b < 0 then -b else b);
    if (a < 0) == (b < 0) then q else -q
  }

  // ---- The entities ----

  datatype Member = Member(name: string, namespace: string, state: string)

  /** How a member counts. */
  datatype Bucket = Ready | Degraded | Cold | Initializing | Dead

  datatype Kind = IsReady | IsAvailable | IsDegraded

  datatype Truth = True | False | Unknown

  datatype Condition = Condition(kind: Kind, truth: Truth, reason: string)

  datatype Policy = Policy(minPercentage: int, minCount: Option<int>)

  datatype Status = Status(
    providerCount: int,
    readyCount: int,
    degradedCount: int,
    coldCount: int,
    initializingCount: int,
    deadCount: int,
    providers: seq<Member>,
    conditions: seq<Condition>
  )

  /** One condition per kind: the one there is replaced where it stands, a new one goes last. */
  function SetCondition(conditions: seq<Condition>, c: Condition): (r: seq<Condition>)
    ensures Find(r, c.kind) == Some(c)
    ensures forall kind | kind != c.kind :: Find(r, kind) == Find(conditions, kind)
  {
    if conditions == [] then [c]
    else if conditions[0].kind == c.kind then [c] + conditions[1..]
    else
      var rest := SetCondition(conditions[1..], c);
      assert ([conditions[0]] + rest)[1..] == rest;
      [conditions[0]] + rest
  }

  function Find(conditions: seq<Condition>, kind: Kind): Option<Condition> {
    if conditions == [] then None
    else if conditions[0].kind == kind then Some(conditions[0])
    else Find(conditions[1..], kind)
  }

  // ---- Counting ----

  /** What a member counts as: one that is starting, or has no state yet, is initializing. */
  function CountedAs(state: string): Bucket {
    match state
    case "Ready" => Ready
    case "Degraded" => Degraded
    case "Cold" => Cold
    case "Dead" => Dead
    case _ => Initializing
  }

  function Tally(members: seq<Member>, bucket: Bucket): nat {
    if members == [] then 0
    else Tally(members[..|members| - 1], bucket)
         + if CountedAs(members[|members| - 1].state) == bucket then 1 else 0
  }

  /** The same count, kept in a 32-bit counter. */
  function Counted(members: seq<Member>, bucket: Bucket): int {
    if members == [] then 0
    else
      var before := Counted(members[..|members| - 1], bucket);
      if CountedAs(members[|members| - 1].state) == bucket then Int32(before + 1) else before
  }

  lemma CountedNext(items: seq<Member>, i: nat, bucket: Bucket)
    requires i < |items|
    ensures Counted(items[..i + 1], bucket) ==
      if CountedAs(items[i].state) == bucket then Int32(Counted(items[..i], bucket) + 1) else Counted(items[..i], bucket)
  {
    assert items[..i + 1][..i] == items[..i];
  }

  lemma {:induction false} CounterHoldsTheTally(members: seq<Member>, bucket: Bucket)
    ensures Counted(members, bucket) == Int32(Tally(members, bucket))
  {
    if members != [] {
      CounterHoldsTheTally(members[..|members| - 1], bucket);
      Int32Increment(Tally(members[..|members| - 1], bucket));
    }
  }

  /** The listed members whose state is one of these, by their places in the list. */
  function Having(members: seq<Member>, states: set<string>): set<int> {
    set i | 0 <= i < |members| && members[i].state in states
  }

  /** Every count is the number of listed members in that state; any other state, or none, is initializing. */
  predicate Faithful(s: Status) {
    && s.providerCount == Int32(|s.providers|)
    && s.readyCount == Int32(|Having(s.providers, {"Ready"})|)
    && s.degradedCount == Int32(|Having(s.providers, {"Degraded"})|)
    && s.coldCount == Int32(|Having(s.providers, {"Cold"})|)
    && s.deadCount == Int32(|Having(s.providers, {"Dead"})|)
    && s.initializingCount == Int32(|s.providers| - |Having(s.providers, {"Ready", "Degraded", "Cold", "Dead"})|)
  }

  lemma {:induction false} TalliesAddUp(members: seq<Member>)
    ensures Tally(members, Ready) + Tally(members, Degraded) + Tally(members, Cold)
            + Tally(members, Initializing) + Tally(members, Dead) == |members|
  {
    if members != [] {
      TalliesAddUp(members[..|members| - 1]);
    }
  }

  /** The places of the members that count as `bucket`. */
  function Places(members: seq<Member>, bucket: Bucket): set<int> {
    set i | 0 <= i < |members| && CountedAs(members[i].state) == bucket
  }

  lemma {:induction false} TallyIsPlaces(members: seq<Member>, bucket: Bucket)
    ensures Tally(members, bucket) == |Places(members, bucket)|
  {
    hide CountedAs;
    if members != [] {
      var n := |members| - 1;
      TallyIsPlaces(members[..n], bucket);
      var before, here := Places(members[..n], bucket), if CountedAs(members[n].state) == bucket then {n} else {};
      assert Places(members, bucket) == before + here && before !! here;
    }
  }

  /** A bucket with one state of its own. */
  lemma TallyOfState(members: seq<Member>, bucket: Bucket, state: string)
    requires forall m | m in members :: CountedAs(m.state) == bucket <==> m.state == state
    ensures Places(members, bucket) == Having(members, {state}) && Tally(members, bucket) == |Having(members, {state})|
  {
    hide CountedAs;
    TallyIsPlaces(members, bucket);
  }

  lemma HavingEither(members: seq<Member>, some: set<string>, more: set<string>)
    requires some !! more
    ensures |Having(members, some + more)| == |Having(members, some)| + |Having(members, more)|
  {
    assert Having(members, some + more) == Having(members, some) + Having(members, more);
    assert Having(members, some) !! Having(members, more);
  }

  lemma FourStates(members: seq<Member>, a: string, b: string, c: string, d: string)
    requires a != b && a != c && a != d && b != c && b != d && c != d
    ensures |Having(members, {a, b, c, d})|
            == |Having(members, {a})| + |Having(members, {b})| + |Having(members, {c})| + |Having(members, {d})|
  {
    hide Having;
    HavingEither(members, {a}, {b});
    HavingEither(members, {a} + {b}, {c});
    HavingEither(members, {a} + {b} + {c}, {d});
    assert {a} + {b} + {c} + {d} == {a, b, c, d};
  }

  /** The tallies, by the states as they are written. */
  lemma TalliesByState(members: seq<Member>)
    ensures Tally(members, Ready) == |Having(members, {"Ready"})|
    ensures Tally(members, Degraded) == |Having(members, {"Degraded"})|
    ensures Tally(members, Cold) == |Having(members, {"Cold"})|
    ensures Tally(members, Dead) == |Having(members, {"Dead"})|
    ensures Tally(members, Initializing) == |members| - |Having(members, {"Ready", "Degraded", "Cold", "Dead"})|
  {
    hide Tally, Having, Places;
    TallyOfState(members, Ready, "Ready");
    TallyOfState(members, Degraded, "Degraded");
    TallyOfState(members, Cold, "Cold");
    TallyOfState(members, Dead, "Dead");
    TalliesAddUp(members);
    assert "Degraded"[2] == 'g' && "Cold"[0] == 'C' && "Dead"[0] == 'D' && "Ready"[0] == 'R';
    FourStates(members, "Ready", "Degraded", "Cold", "Dead");
  }

  /** Ready, Degraded, Cold, Initializing and Dead add up to the member count, which is the length of the list. */
  lemma FaithfulCountsAddUp(s: Status)
    requires Faithful(s) && |s.providers| <= MAX_INT32
    ensures s.readyCount + s.degradedCount + s.coldCount + s.initializingCount + s.deadCount == s.providerCount
    ensures s.providerCount == |s.providers|
    ensures 0 <= s.readyCount <= s.providerCount
  {
    TalliesAddUp(s.providers);
    TalliesByState(s.providers);
  }

  // ---- The health policy ----

  predicate IsHealthy(s: Status, policy: Option<Policy>) {
    if s.providerCount == 0 then false
    else if policy.None? then s.readyCount > 0
    else if policy.value.minCount.Some? then s.readyCount >= policy.value.minCount.value
    else Quotient(Int32(s.readyCount * 100), s.providerCount) >= policy.value.minPercentage
  }

  lemma FloorMeets(n: nat, d: nat, p: int)
    requires d > 0
    ensures n / d >= p <==> n >= p * d
  {
    var q, r := n / d, n % d;
    assert n == q * d + r;
    if q >= p {
      assert q * d >= p * d;
    } else {
      assert (q + 1) * d <= p * d;
    }
  }

  /** With no minimum count, healthy means the ready share is at least the percentage, while 100 * ready fits. */
  lemma PercentageIsExact(s: Status, percentage: int)
    requires s.providerCount > 0 && 0 <= s.readyCount <= MAX_INT32 / 100
    ensures IsHealthy(s, Some(Policy(percentage, None))) <==> s.readyCount * 100 >= percentage * s.providerCount
  {
    FloorMeets(s.readyCount * 100, s.providerCount, percentage);
  }

  lemma WrapLosesATurn(x: int)
    requires x > MAX_INT32
    ensures Int32(x) <= x - TWO_TO_THE_32
  {
  }

  lemma FloorLosesOne(low: nat, high: nat, d: nat)
    requires d > 0 && low + d <= high
    ensures low / d < high / d
  {
    FloorMeets(high, d, low / d + 1);
    assert (low / d + 1) * d == low / d * d + d <= low + d;
  }

  lemma WrappedQuotientIsLess(product: nat, wrapped: int, d: nat)
    requires 0 < d <= MAX_INT32 < product && wrapped <= product - TWO_TO_THE_32
    ensures Quotient(wrapped, d) < product / d && product / d * d <= product
  {
    FloorMeets(product, d, product / d);
    FloorMeets(product, d, 1);
    if wrapped >= 0 {
      FloorLosesOne(wrapped, product, d);
    }
  }

  /** Past that the product wraps, and the test is wrong at the very percentage the group is at. */
  lemma PercentageWraps(s: Status)
    requires 0 < s.providerCount <= MAX_INT32 && s.readyCount * 100 > MAX_INT32
    ensures var percentage := s.readyCount * 100 / s.providerCount;
      && s.readyCount * 100 >= percentage * s.providerCount
      && !IsHealthy(s, Some(Policy(percentage, None)))
  {
    hide Int32, Quotient;
    var product := s.readyCount * 100;
    WrapLosesATurn(product);
    WrappedQuotientIsLess(product, Int32(product), s.providerCount);
  }

  predicate TestsAt(s: Status, percentage: int) {
    IsHealthy(s, Some(Policy(percentage, None))) <==> s.readyCount * 100 >= percentage * s.providerCount
  }

  /** So the test agrees with the exact one at every percentage if and only if 100 * ready fits 32 bits. */
  lemma PercentageIsExactIff(s: Status)
    requires 0 < s.providerCount <= MAX_INT32 && s.readyCount >= 0
    ensures (forall percentage :: TestsAt(s, percentage)) <==> s.readyCount * 100 <= MAX_INT32
  {
    if s.readyCount * 100 <= MAX_INT32 {
      forall percentage ensures TestsAt(s, percentage) {
        PercentageIsExact(s, percentage);
      }
    } else {
      PercentageWraps(s);
      assert !TestsAt(s, s.readyCount * 100 / s.providerCount);
    }
  }

  // ---- One pass ----

  /** What a selector turned out to be, and what listing by it returned. */
  datatype Selection = NoSelector | InvalidSelector | ListFailed | Listed(items: seq<Member>)

  function Judged(s: Status, policy: Option<Policy>): seq<Condition> {
    if s.providerCount == 0 then
      SetCondition(SetCondition(SetCondition(s.conditions,
        Condition(IsReady, Unknown, "NoProviders")),
        Condition(IsAvailable, False, "NoProviders")),
        Condition(IsDegraded, False, "NoProviders"))
    else
      var available := if s.readyCount > 0 then Condition(IsAvailable, True, "ProvidersAvailable")
                       else Condition(IsAvailable, False, "NoReadyProviders");
      var ready := if IsHealthy(s, policy) then Condition(IsReady, True, "HealthyThresholdMet")
                   else Condition(IsReady, False, "HealthyThresholdNotMet");
      var degraded := if Int32(s.degradedCount + s.deadCount) > 0 then Condition(IsDegraded, True, "UnhealthyProviders")
                      else Condition(IsDegraded, False, "AllHealthy");
      SetCondition(SetCondition(SetCondition(s.conditions, available), ready), degraded)
  }

  /** The status over these members, as counted, before it is judged. */
  function WithCounts(s: Status, items: seq<Member>): Status {
    Status(Int32(|items|), Counted(items, Ready), Counted(items, Degraded), Counted(items, Cold),
           Counted(items, Initializing), Counted(items, Dead), items, s.conditions)
  }

  /** The status a pass ends with: from the members when it could list them, otherwise the one it read. */
  function Reconciled(s: Status, policy: Option<Policy>, selection: Selection): Status {
    match selection
    case NoSelector => s.(conditions := SetCondition(s.conditions, Condition(IsReady, Unknown, "NoSelector")))
    case InvalidSelector => s.(conditions := SetCondition(s.conditions, Condition(IsReady, False, "InvalidSelector")))
    case ListFailed => s
    case Listed(items) =>
      var counted := WithCounts(s, items);
      counted.(conditions := Judged(counted, policy))
  }

  /** The group object a pass works on; `status` is its field, assigned in place. */
  class Group {
    const policy: Option<Policy>
    var status: Status

    constructor (policy: Option<Policy>, read: Status)
      ensures this.policy == policy && status == read
    {
      this.policy, status := policy, read;
    }

    method SetGroupCondition(kind: Kind, truth: Truth, reason: string)
      modifies this`status
      ensures status == old(status).(conditions := SetCondition(old(status).conditions, Condition(kind, truth, reason)))
    {
      status := status.(conditions := SetCondition(status.conditions, Condition(kind, truth, reason)));
    }

    method EvaluateConditions()
      modifies this`status
      ensures status == old(status).(conditions := Judged(old(status), policy))
    {
      if status.providerCount == 0 {
        SetGroupCondition(IsReady, Unknown, "NoProviders");
        SetGroupCondition(IsAvailable, False, "NoProviders");
        SetGroupCondition(IsDegraded, False, "NoProviders");
        return;
      }
      ghost var counted := status;
      if status.readyCount > 0 {
        SetGroupCondition(IsAvailable, True, "ProvidersAvailable");
      } else {
        SetGroupCondition(IsAvailable, False, "NoReadyProviders");
      }
      assert IsHealthy(status, policy) == IsHealthy(counted, policy);
      if IsHealthy(status, policy) {
        SetGroupCondition(IsReady, True, "HealthyThresholdMet");
      } else {
        SetGroupCondition(IsReady, False, "HealthyThresholdNotMet");
      }
      var unhealthyCount := Int32(status.degradedCount + status.deadCount);
      if unhealthyCount > 0 {
        SetGroupCondition(IsDegraded, True, "UnhealthyProviders");
      } else {
        SetGroupCondition(IsDegraded, False, "AllHealthy");
      }
    }

    /** Ends with the status of `Reconciled`; `write` says whether the pass goes on to write it. */
    method ReconcileNormal(selection: Selection) returns (write: bool)
      modifies this`status
      ensures status == Reconciled(old(status), policy, selection)
      ensures write <==> !selection.ListFailed?
      ensures selection.Listed? ==> Faithful(status) && status.providers == selection.items
      ensures !selection.Listed? ==> status.(conditions := old(status).conditions) == old(status)
      ensures selection.NoSelector? ==> Find(status.conditions, IsReady) == Some(Condition(IsReady, Unknown, "NoSelector"))
      ensures selection.InvalidSelector? ==> Find(status.conditions, IsReady) == Some(Condition(IsReady, False, "InvalidSelector"))
      ensures selection.ListFailed? ==> status == old(status)
    {
      if selection.NoSelector? {
        SetGroupCondition(IsReady, Unknown, "NoSelector");
        return true;
      }
      if selection.InvalidSelector? {
        SetGroupCondition(IsReady, False, "InvalidSelector");
        return true;
      }
      if selection.ListFailed? {
        return false;
      }
      var items := selection.items;
      assert forall bucket :: Counted(items[..0], bucket) == 0;
      hide CountedAs, Int32, Judged, SetCondition, Faithful;
      var readyCount, degradedCount, coldCount, initializingCount, deadCount := 0, 0, 0, 0, 0;
      var memberStatuses: seq<Member> := [];
      var i := 0;
      while i < |items|
        invariant 0 <= i <= |items| && memberStatuses == items[..i] && status == old(status)
        invariant readyCount == Counted(items[..i], Ready)
        invariant degradedCount == Counted(items[..i], Degraded)
        invariant coldCount == Counted(items[..i], Cold)
        invariant initializingCount == Counted(items[..i], Initializing)
        invariant deadCount == Counted(items[..i], Dead)
      {
        var p := items[i];
        forall bucket {
          CountedNext(items, i, bucket);
        }
        memberStatuses := memberStatuses + [Member(p.name, p.namespace, p.state)];
        match CountedAs(p.state) {
          case Ready => readyCount := Int32(readyCount + 1);
          case Degraded => degradedCount := Int32(degradedCount + 1);
          case Cold => coldCount := Int32(coldCount + 1);
          case Dead => deadCount := Int32(deadCount + 1);
          case Initializing => initializingCount := Int32(initializingCount + 1);
        }
        i := i + 1;
      }
      assert items[..i] == items;
      status := status.(providerCount := Int32(|items|), readyCount := readyCount, degradedCount := degradedCount,
        coldCount := coldCount, initializingCount := initializingCount, deadCount := deadCount,
        providers := memberStatuses);
      assert status == WithCounts(old(status), items);
      EvaluateConditions();
      ReconciledStaysFaithful(old(status), policy, selection);
      return true;
    }
  }

  /** A pass that counts leaves faithful counts; one that returns early leaves the counts it read. */
  lemma ReconciledStaysFaithful(s: Status, policy: Option<Policy>, selection: Selection)
    requires Faithful(s) || selection.Listed?
    ensures Faithful(Reconciled(s, policy, selection))
    ensures !selection.Listed? ==> Reconciled(s, policy, selection).(conditions := s.conditions) == s
  {
    if selection.Listed? {
      CounterHoldsTheTally(selection.items, Ready);
      CounterHoldsTheTally(selection.items, Degraded);
      CounterHoldsTheTally(selection.items, Cold);
      CounterHoldsTheTally(selection.items, Initializing);
      CounterHoldsTheTally(selection.items, Dead);
      TalliesByState(selection.items);
    }
  }

  /** A condition of this kind says this, for this reason. */
  predicate Says(conditions: seq<Condition>, kind: Kind, truth: Truth, reason: string) {
    Find(conditions, kind) == Some(Condition(kind, truth, reason))
  }

  /** What the three conditions say of a group that is empty, available, degraded and healthy, or not. */
  predicate SaysAll(conditions: seq<Condition>, empty: bool, available: bool, degraded: bool, healthy: bool) {
    if empty then
      && Says(conditions, IsReady, Unknown, "NoProviders")
      && Says(conditions, IsAvailable, False, "NoProviders")
      && Says(conditions, IsDegraded, False, "NoProviders")
    else
      && Says(conditions, IsAvailable, if available then True else False,
              if available then "ProvidersAvailable" else "NoReadyProviders")
      && Says(conditions, IsDegraded, if degraded then True else False, if degraded then "UnhealthyProviders" else "AllHealthy")
      && Says(conditions, IsReady, if healthy then True else False,
              if healthy then "HealthyThresholdMet" else "HealthyThresholdNotMet")
  }

  lemma JudgedAgrees(s: Status, policy: Option<Policy>)
    requires s.degradedCount >= 0 && s.deadCount >= 0 && s.degradedCount + s.deadCount <= MAX_INT32
    ensures SaysAll(Judged(s, policy), s.providerCount == 0, s.readyCount > 0, s.degradedCount + s.deadCount > 0,
                    IsHealthy(s, policy))
  {
  }

  /** Some listed member is in one of these states. */
  predicate SomeIn(items: seq<Member>, states: set<string>) {
    exists m :: m in items && m.state in states
  }

  lemma HavingSome(items: seq<Member>, states: set<string>)
    ensures |Having(items, states)| > 0 <==> SomeIn(items, states)
  {
    if m :| m in items && m.state in states {
      var i :| 0 <= i < |items| && items[i] == m;
      assert i in Having(items, states);
    }
    if |Having(items, states)| > 0 {
      var i :| i in Having(items, states);
      assert items[i] in items;
    }
  }

  /**
  The group's health, from the states of its members: one ready member without a policy, a number of them
  with a minimum count, and otherwise a share of them, as long as 100 times the ready ones fits 32 bits.
  */
  predicate MembersAreHealthy(items: seq<Member>, policy: Option<Policy>) {
    var ready := |Having(items, {"Ready"})|;
    if policy.None? then SomeIn(items, {"Ready"})
    else if policy.value.minCount.Some? then ready >= policy.value.minCount.value
    else ready * 100 >= policy.value.minPercentage * |items|
  }

  /** No percentage is asked for, or 100 times the ready members fits 32 bits. */
  predicate ShareFits(items: seq<Member>, policy: Option<Policy>) {
    policy.Some? && policy.value.minCount.None? ==> |Having(items, {"Ready"})| * 100 <= MAX_INT32
  }

  lemma HealthByMembers(s: Status, policy: Option<Policy>, items: seq<Member>)
    requires items != [] && s.providerCount == |items| && s.readyCount == |Having(items, {"Ready"})|
    requires ShareFits(items, policy)
    ensures IsHealthy(s, policy) <==> MembersAreHealthy(items, policy)
  {
    hide Having;
    HavingSome(items, {"Ready"});
    if policy.Some? && policy.value.minCount.None? {
      PercentageIsExact(s, policy.value.minPercentage);
    }
  }

  /** What the three conditions say, and why, of the members listed, whatever conditions there were before. */
  lemma ConditionsAgreeWithMembers(s: Status, policy: Option<Policy>, items: seq<Member>)
    requires |items| <= MAX_INT32
    ensures var r := Reconciled(s, policy, Listed(items));
      SaysAll(r.conditions, items == [], SomeIn(items, {"Ready"}), SomeIn(items, {"Degraded", "Dead"}), IsHealthy(r, policy))
    ensures items != [] && ShareFits(items, policy) ==>
      (IsHealthy(Reconciled(s, policy, Listed(items)), policy) <==> MembersAreHealthy(items, policy))
  {
    hide Having, Judged, SomeIn, SaysAll, Int32, MembersAreHealthy, IsHealthy;
    var r := Reconciled(s, policy, Listed(items));
    var counted := r.(conditions := s.conditions);
    ReconciledCounts(s, policy, items);
    SameCountsSameHealth(r, counted, policy);
    JudgedAgrees(counted, policy);
    HavingSome(items, {"Ready"});
    HavingSome(items, {"Degraded", "Dead"});
    if items != [] && ShareFits(items, policy) {
      HealthByMembers(r, policy, items);
    }
  }

  lemma SameCountsSameHealth(s: Status, t: Status, policy: Option<Policy>)
    requires s.(conditions := t.conditions) == t
    ensures IsHealthy(s, policy) <==> IsHealthy(t, policy)
  {
  }

  /** A pass over fewer members than a counter holds leaves the numbers themselves. */
  lemma ReconciledCounts(s: Status, policy: Option<Policy>, items: seq<Member>)
    requires |items| <= MAX_INT32
    ensures var r := Reconciled(s, policy, Listed(items));
      && r.conditions == Judged(r.(conditions := s.conditions), policy)
      && r.providerCount == |items| && r.readyCount == |Having(items, {"Ready"})|
      && r.degradedCount >= 0 && r.deadCount >= 0
      && r.degradedCount + r.deadCount == |Having(items, {"Degraded", "Dead"})| <= MAX_INT32
  {
    hide Having, Judged;
    TalliesAddUp(items);
    TalliesByState(items);
    CounterHoldsTheTally(items, Ready);
    CounterHoldsTheTally(items, Degraded);
    CounterHoldsTheTally(items, Dead);
    assert "Degraded"[1] == 'e' && "Degraded"[2] == 'g' && "Dead"[2] == 'a';
    HavingEither(items, {"Degraded"}, {"Dead"});
    assert {"Degraded"} + {"Dead"} == {"Degraded", "Dead"};
  }

  // ---- Stored statuses, over whole runs ----

  function Field(j: Json, name: string): int {
    if j.Obj? && name in j.members && j.members[name].Num? then j.members[name].number else 0
  }

  /** A JSON status shows these counts and members; a count of zero and an empty list are left out. */
  predicate Shows(j: Json, s: Status) {
    && j.Obj?
    && Field(j, "providerCount") == s.providerCount && Field(j, "readyCount") == s.readyCount
    && Field(j, "degradedCount") == s.degradedCount && Field(j, "coldCount") == s.coldCount
    && Field(j, "initializingCount") == s.initializingCount && Field(j, "deadCount") == s.deadCount
    && ShowsMembers(if "providers" in j.members then j.members["providers"] else Arr([]), s.providers)
  }

  predicate ShowsMembers(j: Json, members: seq<Member>) {
    && j.Arr? && |j.items| == |members|
    && (forall i | 0 <= i < |members| :: j.items[i] == MemberJson(members[i]))
  }

  /** A member whose server has no state yet has no such field. */
  function MemberJson(m: Member): Json {
    var fields := map["name" := Str(m.name), "namespace" := Str(m.namespace)];
    Obj(if m.state == "" then fields else fields["state" := Str(m.state)])
  }

  /** Nothing in it is null or an object. */
  ghost predicate Flat(members: map<string, Json>) {
    forall k | k in members :: members[k].Num? || members[k].Arr?
  }

  /** Named counts beside the members there are; a count of zero is left out. */
  function WithCounters(members: map<string, Json>, names: seq<string>, counts: seq<int>): map<string, Json>
    requires |names| == |counts|
  {
    if names == [] then members
    else
      var n := |names| - 1;
      var rest := WithCounters(members, names[..n], counts[..n]);
      if counts[n] == 0 then rest else rest[names[n] := Num(counts[n])]
  }

  ghost predicate AllDiffer(names: seq<string>) {
    forall i, j | 0 <= i < j < |names| :: names[i] != names[j]
  }

  lemma {:induction false} CountersAreShown(members: map<string, Json>, names: seq<string>, counts: seq<int>)
    requires |names| == |counts| && AllDiffer(names) && Flat(members)
    requires forall name | name in names :: name !in members
    ensures var r := WithCounters(members, names, counts);
      && Flat(r)
      && (forall i | 0 <= i < |names| :: Field(Obj(r), names[i]) == counts[i])
      && (forall k | k !in names :: (k in r <==> k in members) && (k in members ==> r[k] == members[k]))
  {
    if names != [] {
      var n := |names| - 1;
      CountersAreShown(members, names[..n], counts[..n]);
      assert names[n] !in names[..n];
      forall i | 0 <= i < n ensures names[i] != names[n] && names[i] == names[..n][i] {
      }
    }
  }

  /** Nor is an empty list written. */
  function ProvidersJson(members: seq<Member>): (r: map<string, Json>)
    ensures r.Keys <= {"providers"} && Flat(r)
    ensures ShowsMembers(if "providers" in r then r["providers"] else Arr([]), members)
  {
    if members == [] then map[]
    else map["providers" := Arr(seq(|members|, i requires 0 <= i < |members| => MemberJson(members[i])))]
  }

  const COUNTERS := ["providerCount", "readyCount", "degradedCount", "coldCount", "initializingCount", "deadCount"]

  /** A status as it is marshaled, but for its conditions. */
  function StatusJson(s: Status): Json {
    Obj(WithCounters(ProvidersJson(s.providers), COUNTERS,
      [s.providerCount, s.readyCount, s.degradedCount, s.coldCount, s.initializingCount, s.deadCount]))
  }

  /** No pass is left out of `OfGroup`: whatever it read and computed shows in the JSON it read and writes. */
  lemma EveryPassIsByGroupPass(s: Status, policy: Option<Policy>, selection: Selection)
    ensures ByGroupPass(StatusJson(s), StatusJson(Reconciled(s, policy, selection)))
    ensures StatusWrite.IsStatus(StatusJson(s))
  {
    hide Reconciled;
    StatusIsShown(s);
    StatusIsShown(Reconciled(s, policy, selection));
  }

  lemma FlatIsAStatus(members: map<string, Json>)
    requires Flat(members)
    ensures StatusWrite.IsStatus(Obj(members))
  {
    var j := Obj(members);
    forall k | k in j.members ensures j.members[k] != Null && NullFree(j.members[k]) {
    }
  }

  lemma CountersDiffer()
    ensures AllDiffer(COUNTERS) && "providers" !in COUNTERS
  {
    var lengths := [13, 10, 13, 9, 17, 9];
    assert forall i | 0 <= i < 6 :: |COUNTERS[i]| == lengths[i];
    assert COUNTERS[0][0] == 'p' && COUNTERS[2][0] == 'd' && COUNTERS[3][0] == 'c' && COUNTERS[5][0] == 'd';
    assert "providers"[0] == 'p' && |"providers"| == 9;
  }

  lemma StatusIsShown(s: Status)
    ensures Shows(StatusJson(s), s) && StatusWrite.IsStatus(StatusJson(s))
  {
    hide ShowsMembers, WithCounters, ProvidersJson, NullFree, StatusWrite.IsStatus, MemberJson;
    var names, members := COUNTERS, ProvidersJson(s.providers);
    var counts := [s.providerCount, s.readyCount, s.degradedCount, s.coldCount, s.initializingCount, s.deadCount];
    CountersDiffer();
    CountersAreShown(members, names, counts);
    var r := WithCounters(members, names, counts);
    assert StatusJson(s) == Obj(r);
    FlatIsAStatus(r);
    assert Field(Obj(r), names[0]) == s.providerCount && Field(Obj(r), names[1]) == s.readyCount;
    assert Field(Obj(r), names[2]) == s.degradedCount && Field(Obj(r), names[3]) == s.coldCount;
    assert Field(Obj(r), names[4]) == s.initializingCount && Field(Obj(r), names[5]) == s.deadCount;
  }

  ghost predicate ShowsFaithful(j: Json) {
    exists s :: Shows(j, s) && Faithful(s)
  }

  /** `next` is what a pass over a group makes of the status `prev` it holds. */
  ghost predicate ByGroupPass(prev: Json, next: Json) {
    exists s: Status, policy: Option<Policy>, selection: Selection ::
      Shows(prev, s) && Shows(next, Reconciled(s, policy, selection))
  }

  /** Every status a pass computes in this run is computed by a group pass. */
  ghost predicate OfGroup(first: StatusWrite.Object, events: seq<StatusWrite.Event>) {
    forall k | 0 <= k < |events| && events[k].Computed? ::
      var before := StatusWrite.Run(StatusWrite.Initial(first), events[..k]);
      before.Some? && events[k].id in before.value.passes ==>
        ByGroupPass(before.value.passes[events[k].id].obj.status, events[k].status)
  }

  lemma MembersAreShownOnce(j: Json, a: seq<Member>, b: seq<Member>)
    requires ShowsMembers(j, a) && ShowsMembers(j, b)
    ensures a == b
  {
    forall i | 0 <= i < |a| ensures a[i] == b[i] {
      assert MemberJson(a[i]).members["name"] == MemberJson(b[i]).members["name"];
      assert MemberJson(a[i]).members["namespace"] == MemberJson(b[i]).members["namespace"];
      assert "state" in MemberJson(a[i]).members <==> a[i].state != "";
      assert "state" in MemberJson(b[i]).members <==> b[i].state != "";
      assert a[i].state != "" ==> MemberJson(a[i]).members["state"] == MemberJson(b[i]).members["state"];
    }
  }

  lemma SameCountsStayFaithful(s: Status, t: Status)
    requires Faithful(s) && s.(conditions := t.conditions) == t
    ensures Faithful(t)
  {
    hide Int32, Having;
  }

  lemma GroupPassShowsFaithful(prev: Json, next: Json)
    requires ShowsFaithful(prev) && ByGroupPass(prev, next)
    ensures ShowsFaithful(next)
  {
    var f :| Shows(prev, f) && Faithful(f);
    var s: Status, policy: Option<Policy>, selection: Selection :|
      Shows(prev, s) && Shows(next, Reconciled(s, policy, selection));
    hide Faithful, Reconciled, ShowsMembers;
    MembersAreShownOnce(if "providers" in prev.members then prev.members["providers"] else Arr([]), f.providers, s.providers);
    SameCountsStayFaithful(f, s);
    ReconciledStaysFaithful(s, policy, selection);
  }

  /** Every status stored, and every status a pass holds. */
  ghost predicate AllFaithful(s: StatusWrite.State) {
    forall status | StatusWrite.Holds(s, status) :: ShowsFaithful(status)
  }

  lemma StepKeepsAllFaithful(s: StatusWrite.State, e: StatusWrite.Event)
    requires StatusWrite.Inv(s) && StatusWrite.Enabled(s, e) && AllFaithful(s)
    requires e.Computed? ==> ByGroupPass(s.passes[e.id].obj.status, e.status)
    ensures AllFaithful(StatusWrite.Step(s, e))
  {
    if e.Computed? {
      assert StatusWrite.Holds(s, s.passes[e.id].obj.status);
      GroupPassShowsFaithful(s.passes[e.id].obj.status, e.status);
    }
    forall status | StatusWrite.Holds(StatusWrite.Step(s, e), status) ensures ShowsFaithful(status) {
      StatusWrite.StepHoldsNothingNew(s, e, status);
    }
  }

  /**
  In every status any run of group passes stores, whatever was stale, interleaved, lost or refused, the
  counts are those of the listed members.
  */
  lemma {:induction false} StoredCountsAreFaithful(first: StatusWrite.Object, events: seq<StatusWrite.Event>)
    requires first.version == 0 && StatusWrite.IsStatus(first.status) && ShowsFaithful(first.status)
    requires StatusWrite.Run(StatusWrite.Initial(first), events).Some? && OfGroup(first, events)
    ensures AllFaithful(StatusWrite.Run(StatusWrite.Initial(first), events).value)
    decreases |events|
  {
    if events != [] {
      var n := |events| - 1;
      var prefix := events[..n];
      assert OfGroup(first, prefix) by {
        assert forall k | 0 <= k < n :: prefix[..k] == events[..k];
      }
      StoredCountsAreFaithful(first, prefix);
      StatusWrite.RunKeepsInv(first, prefix);
      StepKeepsAllFaithful(StatusWrite.Run(StatusWrite.Initial(first), prefix).value, events[n]);
    }
  }

  /** A group starts with an empty status, which counts no members. */
  lemma EmptyStatusIsFaithful()
    ensures ShowsFaithful(EMPTY)
  {
    assert Shows(EMPTY, Status(0, 0, 0, 0, 0, 0, [], []));
  }
}

/**
compileL7Policy: the rules of every upstream flattened into the one policy core enforces for a
server. Flattening keeps what the rules mean: whatever a glob matches, a call is decided as it
would be on all the upstreams' rules together.
*/
module L7Policy {
  import opened Wrappers

  /** Globs over tool names, or selectors over headers: deny, then require-approval, then allow. */
  datatype Rules<T> = Rules(allow: seq<T>, deny: seq<T>, approval: seq<T>)

  datatype HeaderMatch = HeaderMatch(name: string, values: seq<string>)

  datatype ArgumentDeny = ArgumentDeny(secretPatterns: seq<string>, maxPayloadBytes: int)

  datatype Upstream = Upstream(
    tools: Option<Rules<string>>,
    headers: Option<Rules<HeaderMatch>>,
    arguments: Option<ArgumentDeny>
  )

  datatype Policy = Policy(upstreams: seq<Upstream>, defaultAction: string, mode: string)

  datatype Payload = Payload(
    tools: Rules<string>,
    headers: Option<Rules<HeaderMatch>>,
    secretPatterns: seq<string>,
    maxPayloadBytes: Option<int>,
    defaultAction: string,
    mode: string
  )

  // ---- Appending what is not there yet ----

  /** `dst`, then each value that is not in the list when its turn comes. */
  function Appended<T(==)>(dst: seq<T>, values: seq<T>): seq<T> {
    if values == [] then dst
    else
      var before := Appended(dst, values[..|values| - 1]);
      var v := values[|values| - 1];
      if v in before then before else before + [v]
  }

  function Unique<T(==)>(values: seq<T>): seq<T> {
    Appended([], values)
  }

  method AppendUnique<T(==)>(dst: seq<T>, values: seq<T>) returns (r: seq<T>)
    ensures r == Appended(dst, values)
  {
    r := dst;
    for i := 0 to |values|
      invariant r == Appended(dst, values[..i])
    {
      var v, found, j := values[i], false, 0;
      while j < |r| && !found
        invariant 0 <= j <= |r|
        invariant found <==> v in r[..j]
      {
        if r[j] == v {
          found := true;
        }
        j := j + 1;
      }
      assert !found ==> r[..j] == r;
      assert values[..i + 1][..i] == values[..i];
      if !found {
        r := r + [v];
      }
    }
    assert values[..|values|] == values;
  }

  lemma {:induction false} AppendedTwice<T>(dst: seq<T>, a: seq<T>, b: seq<T>)
    ensures Appended(Appended(dst, a), b) == Appended(dst, a + b)
  {
    if b == [] {
      assert a + b == a;
    } else {
      assert (a + b)[..|a + b| - 1] == a + b[..|b| - 1];
      AppendedTwice(dst, a, b[..|b| - 1]);
    }
  }

  /** Where a value first stands, or the length when it does not. */
  function First<T(==)>(values: seq<T>, v: T): nat {
    if values == [] || values[0] == v then 0 else 1 + First(values[1..], v)
  }

  lemma {:induction false} FirstInPrefix<T>(a: seq<T>, b: seq<T>, v: T)
    ensures v in a ==> First(a + b, v) == First(a, v) < |a|
    ensures v !in a ==> First(a + b, v) == |a| + First(b, v)
  {
    if a == [] {
      assert a + b == b;
    } else {
      assert (a + b)[1..] == a[1..] + b;
      FirstInPrefix(a[1..], b, v);
    }
  }

  /** The same values, each once, in the order in which they first occur. */
  lemma {:induction false} UniqueIsFirstOccurrences<T>(values: seq<T>)
    ensures forall v :: v in Unique(values) <==> v in values
    ensures forall i, j :: 0 <= i < j < |Unique(values)| ==>
      First(values, Unique(values)[i]) < First(values, Unique(values)[j])
  {
    if values != [] {
      var n := |values| - 1;
      var before, v := values[..n], values[n];
      UniqueIsFirstOccurrences(before);
      assert before + [v] == values;
      forall i, j | 0 <= i < j < |Unique(values)|
        ensures First(values, Unique(values)[i]) < First(values, Unique(values)[j])
      {
        FirstOfTwo(before, v, Unique(before), i, j);
      }
    }
  }

  lemma FirstOfTwo<T>(before: seq<T>, v: T, u: seq<T>, i: nat, j: nat)
    requires forall x :: x in u <==> x in before
    requires forall k, l :: 0 <= k < l < |u| ==> First(before, u[k]) < First(before, u[l])
    requires i < j < if v in u then |u| else |u| + 1
    ensures First(before + [v], u[i]) < First(before + [v], if j < |u| then u[j] else v)
  {
    assert u[i] in u;
    FirstInPrefix(before, [v], u[i]);
    if j < |u| {
      assert u[j] in u;
      FirstInPrefix(before, [v], u[j]);
    } else {
      FirstInPrefix(before, [v], v);
    }
  }

  // ---- The rules of all upstreams together ----

  const NO_TOOLS: Rules<string> := Rules([], [], [])
  const NO_HEADERS: Rules<HeaderMatch> := Rules([], [], [])

  function Tools(u: Upstream): Rules<string> {
    if u.tools.Some? then u.tools.value else NO_TOOLS
  }

  function Headers(u: Upstream): Rules<HeaderMatch> {
    if u.headers.Some? then u.headers.value else NO_HEADERS
  }

  function Secrets(u: Upstream): seq<string> {
    if u.arguments.Some? then u.arguments.value.secretPatterns else []
  }

  /** The upstream's payload limit; zero or less is no limit. */
  function Limit(u: Upstream): int {
    if u.arguments.Some? then u.arguments.value.maxPayloadBytes else 0
  }

  function Concat<T>(lists: seq<seq<T>>): seq<T> {
    if lists == [] then [] else Concat(lists[..|lists| - 1]) + lists[|lists| - 1]
  }

  function Each<T>(us: seq<Upstream>, list: Upstream -> seq<T>): seq<seq<T>> {
    seq(|us|, i requires 0 <= i < |us| => list(us[i]))
  }

  /** One list of the payload: the upstreams' lists end to end, without repeats. */
  function Flattened<T(==)>(us: seq<Upstream>, list: Upstream -> seq<T>): seq<T> {
    Unique(Concat(Each(us, list)))
  }

  lemma FlattenedStep<T>(us: seq<Upstream>, i: nat, list: Upstream -> seq<T>)
    requires i < |us|
    ensures Flattened(us[..i + 1], list) == Appended(Flattened(us[..i], list), list(us[i]))
  {
    assert Each(us[..i + 1], list)[..i] == Each(us[..i], list);
    AppendedTwice([], Concat(Each(us[..i], list)), list(us[i]));
  }

  lemma {:induction false} InConcat<T>(lists: seq<seq<T>>, v: T)
    ensures v in Concat(lists) <==> exists i :: 0 <= i < |lists| && v in lists[i]
  {
    if lists != [] {
      InConcat(lists[..|lists| - 1], v);
    }
  }

  /** A value is in the payload's list exactly when it is in some upstream's. */
  lemma InFlattened<T>(us: seq<Upstream>, list: Upstream -> seq<T>, v: T)
    ensures v in Flattened(us, list) <==> exists u :: u in us && v in list(u)
  {
    UniqueIsFirstOccurrences(Concat(Each(us, list)));
    InConcat(Each(us, list), v);
    if u :| u in us && v in list(u) {
      var i :| 0 <= i < |us| && us[i] == u;
      assert v in Each(us, list)[i];
    }
  }

  predicate IsLeastLimit(us: seq<Upstream>, least: Option<int>) {
    if least.None? then forall u | u in us :: Limit(u) <= 0
    else (exists u :: u in us && Limit(u) == least.value) && least.value > 0
         && forall u | u in us && Limit(u) > 0 :: least.value <= Limit(u)
  }

  predicate NoRules<T(==)>(r: Rules<T>) {
    r.allow == [] && r.deny == [] && r.approval == []
  }

  function ToolAllow(u: Upstream): seq<string> { Tools(u).allow }
  function ToolDeny(u: Upstream): seq<string> { Tools(u).deny }
  function ToolApproval(u: Upstream): seq<string> { Tools(u).approval }
  function HeaderAllow(u: Upstream): seq<HeaderMatch> { Headers(u).allow }
  function HeaderDeny(u: Upstream): seq<HeaderMatch> { Headers(u).deny }
  function HeaderApproval(u: Upstream): seq<HeaderMatch> { Headers(u).approval }

  function FlatTools(us: seq<Upstream>): Rules<string> {
    Rules(Flattened(us, ToolAllow), Flattened(us, ToolDeny), Flattened(us, ToolApproval))
  }

  function FlatHeaders(us: seq<Upstream>): Rules<HeaderMatch> {
    Rules(Flattened(us, HeaderAllow), Flattened(us, HeaderDeny), Flattened(us, HeaderApproval))
  }

  /** What the loop has gathered from these upstreams. */
  datatype Gathered = Gathered(tools: Rules<string>, headers: Rules<HeaderMatch>, secrets: seq<string>, limit: Option<int>)

  predicate IsGathered(us: seq<Upstream>, g: Gathered) {
    && g.tools == FlatTools(us)
    && g.headers == FlatHeaders(us)
    && g.secrets == Flattened(us, Secrets)
    && IsLeastLimit(us, g.limit)
  }

  predicate IsCompiled(policy: Policy, p: Payload) {
    && IsGathered(policy.upstreams, Gathered(p.tools, HeadersSent(p), p.secretPatterns, p.maxPayloadBytes))
    && (p.headers.None? <==> NoRules(FlatHeaders(policy.upstreams)))
    && p.defaultAction == (if policy.defaultAction == "" then "Deny" else policy.defaultAction)
    && p.mode == (if policy.mode == "" then "Audit" else policy.mode)
  }

  function HeadersSent(p: Payload): Rules<HeaderMatch> {
    if p.headers.Some? then p.headers.value else NO_HEADERS
  }

  function AppendedRules<T(==)>(r: Rules<T>, more: Rules<T>): Rules<T> {
    Rules(Appended(r.allow, more.allow), Appended(r.deny, more.deny), Appended(r.approval, more.approval))
  }

  method AppendRules<T(==)>(r: Rules<T>, more: Rules<T>) returns (next: Rules<T>)
    ensures next == AppendedRules(r, more)
  {
    var allow := AppendUnique(r.allow, more.allow);
    var deny := AppendUnique(r.deny, more.deny);
    var approval := AppendUnique(r.approval, more.approval);
    next := Rules(allow, deny, approval);
  }

  predicate IsNext(g: Gathered, u: Upstream, next: Gathered) {
    && next.tools == AppendedRules(g.tools, Tools(u))
    && next.headers == AppendedRules(g.headers, Headers(u))
    && next.secrets == Appended(g.secrets, Secrets(u))
    && next.limit == if Limit(u) > 0 && (g.limit.None? || Limit(u) < g.limit.value) then Some(Limit(u)) else g.limit
  }

  method GatherUpstream(g: Gathered, u: Upstream) returns (next: Gathered)
    ensures IsNext(g, u, next)
  {
    next := g;
    if u.tools.Some? {
      var tools := AppendRules(next.tools, u.tools.value);
      next := next.(tools := tools);
    }
    if u.headers.Some? {
      var headers := AppendRules(next.headers, u.headers.value);
      next := next.(headers := headers);
    }
    if u.arguments.Some? {
      var secrets := AppendUnique(next.secrets, u.arguments.value.secretPatterns);
      next := next.(secrets := secrets);
      var b := u.arguments.value.maxPayloadBytes;
      if b > 0 && (next.limit.None? || b < next.limit.value) {
        next := next.(limit := Some(b));
      }
    }
  }

  method GatherRules(us: seq<Upstream>) returns (g: Gathered)
    ensures IsGathered(us, g)
  {
    g := Gathered(NO_TOOLS, NO_HEADERS, [], None);
    for i := 0 to |us|
      invariant IsGathered(us[..i], g)
    {
      var next := GatherUpstream(g, us[i]);
      GatheredStep(us, i, g, next);
      g := next;
    }
    assert us[..|us|] == us;
  }

  method CompileL7Policy(policy: Policy) returns (payload: Payload)
    ensures IsCompiled(policy, payload)
  {
    var g := GatherRules(policy.upstreams);
    var defaultAction, mode := policy.defaultAction, policy.mode;
    if defaultAction == "" {
      defaultAction := "Deny";
    }
    if mode == "" {
      mode := "Audit";
    }
    payload := Payload(g.tools, None, g.secrets, g.limit, defaultAction, mode);
    if |g.headers.allow| > 0 || |g.headers.deny| > 0 || |g.headers.approval| > 0 {
      payload := payload.(headers := Some(g.headers));
    }
  }

  lemma GatheredStep(us: seq<Upstream>, i: nat, g: Gathered, next: Gathered)
    requires i < |us| && IsGathered(us[..i], g) && IsNext(g, us[i], next)
    ensures IsGathered(us[..i + 1], next)
  {
    FlattenedStep(us, i, ToolAllow);
    FlattenedStep(us, i, ToolDeny);
    FlattenedStep(us, i, ToolApproval);
    FlattenedStep(us, i, HeaderAllow);
    FlattenedStep(us, i, HeaderDeny);
    FlattenedStep(us, i, HeaderApproval);
    FlattenedStep(us, i, Secrets);
    LeastLimitStep(us[..i], us[i], g.limit, next.limit);
    assert us[..i] + [us[i]] == us[..i + 1];
  }

  lemma LeastLimitStep(us: seq<Upstream>, u: Upstream, least: Option<int>, next: Option<int>)
    requires IsLeastLimit(us, least)
    requires next == if Limit(u) > 0 && (least.None? || Limit(u) < least.value) then Some(Limit(u)) else least
    ensures IsLeastLimit(us + [u], next)
  {
    if next.Some? {
      assert next == least || Limit(u) == next.value;
      if next == least {
        var v :| v in us && Limit(v) == next.value;
        assert v in us + [u];
      } else {
        assert u in us + [u];
      }
    }
  }

  /** A glob is in the payload's list exactly when some upstream with tool rules has it in that list. */
  lemma ToolsAreTheUpstreams(policy: Policy, p: Payload, g: string)
    requires IsCompiled(policy, p)
    ensures g in p.tools.deny <==> exists u :: u in policy.upstreams && u.tools.Some? && g in u.tools.value.deny
    ensures g in p.tools.approval <==> exists u :: u in policy.upstreams && u.tools.Some? && g in u.tools.value.approval
    ensures g in p.tools.allow <==> exists u :: u in policy.upstreams && u.tools.Some? && g in u.tools.value.allow
  {
    InFlattened(policy.upstreams, ToolDeny, g);
    InFlattened(policy.upstreams, ToolApproval, g);
    InFlattened(policy.upstreams, ToolAllow, g);
  }

  /** So with header selectors, and the block is left out exactly when no upstream has any. */
  lemma HeadersAreTheUpstreams(policy: Policy, p: Payload, m: HeaderMatch)
    requires IsCompiled(policy, p)
    ensures p.headers.Some? && m in p.headers.value.deny <==>
      exists u :: u in policy.upstreams && u.headers.Some? && m in u.headers.value.deny
    ensures p.headers.Some? && m in p.headers.value.approval <==>
      exists u :: u in policy.upstreams && u.headers.Some? && m in u.headers.value.approval
    ensures p.headers.Some? && m in p.headers.value.allow <==>
      exists u :: u in policy.upstreams && u.headers.Some? && m in u.headers.value.allow
    ensures p.headers.Some? ==> |p.headers.value.allow| + |p.headers.value.deny| + |p.headers.value.approval| > 0
  {
    InFlattened(policy.upstreams, HeaderDeny, m);
    InFlattened(policy.upstreams, HeaderApproval, m);
    InFlattened(policy.upstreams, HeaderAllow, m);
  }

  /** An upstream that sets a limit: a positive one. */
  predicate Limits(u: Upstream, bytes: int) {
    u.arguments.Some? && u.arguments.value.maxPayloadBytes == bytes > 0
  }

  /** The patterns are the upstreams', the limit their least positive one, and the rest the spec's or its default. */
  lemma ArgumentsAreTheUpstreams(policy: Policy, p: Payload, s: string)
    requires IsCompiled(policy, p)
    ensures s in p.secretPatterns <==>
      exists u :: u in policy.upstreams && u.arguments.Some? && s in u.arguments.value.secretPatterns
    ensures p.maxPayloadBytes.None? ==> forall u, n :: u in policy.upstreams ==> !Limits(u, n)
    ensures p.maxPayloadBytes.Some? ==>
      && (exists u :: u in policy.upstreams && Limits(u, p.maxPayloadBytes.value))
      && (forall u, n :: u in policy.upstreams && Limits(u, n) ==> p.maxPayloadBytes.value <= n)
    ensures p.defaultAction == if policy.defaultAction == "" then "Deny" else policy.defaultAction
    ensures p.mode == if policy.mode == "" then "Audit" else policy.mode
  {
    InFlattened(policy.upstreams, Secrets, s);
    if p.maxPayloadBytes.Some? {
      var u :| u in policy.upstreams && Limit(u) == p.maxPayloadBytes.value;
      assert Limits(u, p.maxPayloadBytes.value);
    }
  }

  // ---- What the rules decide ----

  datatype Verdict = Denied | NeedsApproval | Allowed | ByDefault(action: string)

  /** A call on one list of rules: `matches` says which of its globs and selectors the call meets. */
  predicate Any<T>(list: seq<T>, matches: T -> bool) {
    exists i :: 0 <= i < |list| && matches(list[i])
  }

  function Decide<T>(r: Rules<T>, matches: T -> bool, defaultAction: string): Verdict {
    if Any(r.deny, matches) then Denied
    else if Any(r.approval, matches) then NeedsApproval
    else if Any(r.allow, matches) then Allowed
    else ByDefault(defaultAction)
  }

  /** The same call on the rules as they were written, upstream by upstream, taken together. */
  predicate AnyUpstream<T>(us: seq<Upstream>, list: Upstream -> seq<T>, matches: T -> bool) {
    exists u :: u in us && Any(list(u), matches)
  }

  function DecideTogether<T>(us: seq<Upstream>, deny: Upstream -> seq<T>, approval: Upstream -> seq<T>,
                             allow: Upstream -> seq<T>, matches: T -> bool, defaultAction: string): Verdict {
    if AnyUpstream(us, deny, matches) then Denied
    else if AnyUpstream(us, approval, matches) then NeedsApproval
    else if AnyUpstream(us, allow, matches) then Allowed
    else ByDefault(defaultAction)
  }

  lemma AnyFlattened<T>(us: seq<Upstream>, list: Upstream -> seq<T>, matches: T -> bool)
    ensures Any(Flattened(us, list), matches) <==> AnyUpstream(us, list, matches)
  {
    var flat := Flattened(us, list);
    if i :| 0 <= i < |flat| && matches(flat[i]) {
      InFlattened(us, list, flat[i]);
      var u :| u in us && flat[i] in list(u);
      var k :| 0 <= k < |list(u)| && list(u)[k] == flat[i];
      assert Any(list(u), matches);
    }
    if u :| u in us && Any(list(u), matches) {
      var k :| 0 <= k < |list(u)| && matches(list(u)[k]);
      InFlattened(us, list, list(u)[k]);
      assert list(u)[k] in flat;
    }
  }

  /** Flattening changes no decision on a tool call, whatever the globs match. */
  lemma ToolDecisionIsKept(policy: Policy, p: Payload, matches: string -> bool)
    requires IsCompiled(policy, p)
    ensures Decide(p.tools, matches, p.defaultAction)
            == DecideTogether(policy.upstreams, ToolDeny, ToolApproval, ToolAllow, matches, p.defaultAction)
    ensures Decide(p.tools, matches, p.defaultAction) ==
      if exists u :: u in policy.upstreams && u.tools.Some? && Any(u.tools.value.deny, matches) then Denied
      else if exists u :: u in policy.upstreams && u.tools.Some? && Any(u.tools.value.approval, matches) then NeedsApproval
      else if exists u :: u in policy.upstreams && u.tools.Some? && Any(u.tools.value.allow, matches) then Allowed
      else ByDefault(if policy.defaultAction == "" then "Deny" else policy.defaultAction)
  {
    AnyFlattened(policy.upstreams, ToolDeny, matches);
    AnyFlattened(policy.upstreams, ToolApproval, matches);
    AnyFlattened(policy.upstreams, ToolAllow, matches);
  }

  /** Nor on a request's headers; a payload without header rules decides as rules with none do. */
  lemma HeaderDecisionIsKept(policy: Policy, p: Payload, matches: HeaderMatch -> bool)
    requires IsCompiled(policy, p)
    ensures Decide(HeadersSent(p), matches, p.defaultAction)
            == DecideTogether(policy.upstreams, HeaderDeny, HeaderApproval, HeaderAllow, matches, p.defaultAction)
    ensures Decide(HeadersSent(p), matches, p.defaultAction) ==
      if exists u :: u in policy.upstreams && u.headers.Some? && Any(u.headers.value.deny, matches) then Denied
      else if exists u :: u in policy.upstreams && u.headers.Some? && Any(u.headers.value.approval, matches) then NeedsApproval
      else if exists u :: u in policy.upstreams && u.headers.Some? && Any(u.headers.value.allow, matches) then Allowed
      else ByDefault(if policy.defaultAction == "" then "Deny" else policy.defaultAction)
  {
    AnyFlattened(policy.upstreams, HeaderDeny, matches);
    AnyFlattened(policy.upstreams, HeaderApproval, matches);
    AnyFlattened(policy.upstreams, HeaderAllow, matches);
  }

  lemma SameUpstreams<T>(a: seq<Upstream>, b: seq<Upstream>, list: Upstream -> seq<T>, matches: T -> bool)
    requires forall u :: u in a <==> u in b
    ensures AnyUpstream(a, list, matches) <==> AnyUpstream(b, list, matches)
  {
  }

  lemma OneLeastLimit(a: seq<Upstream>, b: seq<Upstream>, p: Option<int>, q: Option<int>)
    requires forall u :: u in a <==> u in b
    requires IsLeastLimit(a, p) && IsLeastLimit(b, q)
    ensures p == q
  {
  }

  /** The order of the upstreams decides nothing: not a verdict, not a pattern, not the limit. */
  lemma OrderDecidesNothing(a: Policy, b: Policy, p: Payload, q: Payload,
                            tools: string -> bool, headers: HeaderMatch -> bool)
    requires IsCompiled(a, p) && IsCompiled(b, q) && a.defaultAction == b.defaultAction
    requires multiset(a.upstreams) == multiset(b.upstreams)
    ensures Decide(p.tools, tools, p.defaultAction) == Decide(q.tools, tools, q.defaultAction)
    ensures Decide(HeadersSent(p), headers, p.defaultAction) == Decide(HeadersSent(q), headers, q.defaultAction)
    ensures forall s :: s in p.secretPatterns <==> s in q.secretPatterns
    ensures p.maxPayloadBytes == q.maxPayloadBytes
  {
    var us, vs := a.upstreams, b.upstreams;
    assert forall u :: u in us <==> u in vs by {
      assert forall u :: u in us <==> u in multiset(us);
      assert forall u :: u in vs <==> u in multiset(vs);
    }
    ToolDecisionIsKept(a, p, tools);
    ToolDecisionIsKept(b, q, tools);
    SameUpstreams(us, vs, ToolDeny, tools);
    SameUpstreams(us, vs, ToolApproval, tools);
    SameUpstreams(us, vs, ToolAllow, tools);
    HeaderDecisionIsKept(a, p, headers);
    HeaderDecisionIsKept(b, q, headers);
    SameUpstreams(us, vs, HeaderDeny, headers);
    SameUpstreams(us, vs, HeaderApproval, headers);
    SameUpstreams(us, vs, HeaderAllow, headers);
    OneLeastLimit(us, vs, p.maxPayloadBytes, q.maxPayloadBytes);
    forall s ensures s in p.secretPatterns <==> s in q.secretPatterns {
      InFlattened(us, Secrets, s);
      InFlattened(vs, Secrets, s);
    }
  }
}

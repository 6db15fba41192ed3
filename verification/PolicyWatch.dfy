/**
Which egress policies a server event reaches, against what those policies' targets resolve to. A policy
is reconciled on events its own object does not show, so the mapping must find every policy whose target
set an event changes.
*/
module PolicyWatch {
  import opened Strings
  import opened Wrappers

  datatype Key = Key(namespace: string, name: string)

  type Labels = map<string, string>

  datatype Server = Server(labels: Labels, container: bool)

  /** A group's selector: missing, one that does not parse, or one that does. */
  datatype Selector = Absent | Unparsable | Parsed(id: nat)

  datatype TargetKind = ServerTarget | GroupTarget | UnknownTarget

  datatype Policy = Policy(key: Key, kind: TargetKind, target: string)

  /** What the cache holds; `matches` is label selection. */
  datatype Cluster = Cluster(
    servers: map<Key, Server>,
    groups: map<Key, Selector>,
    policies: seq<Policy>,
    matches: (nat, Labels) -> bool
  )

  // ---- What a policy's target resolves to ----

  predicate SelectorPicks(c: Cluster, s: Selector, labels: Labels) {
    s.Parsed? && c.matches(s.id, labels)
  }

  predicate GroupPicks(c: Cluster, group: Key, labels: Labels) {
    group in c.groups && SelectorPicks(c, c.groups[group], labels)
  }

  /** The servers a policy covers. */
  ghost function TargetSet(c: Cluster, p: Policy): set<Key> {
    match p.kind
    case ServerTarget => set k | k in c.servers && k == Key(p.key.namespace, p.target)
    case GroupTarget =>
      set k | k in c.servers && k.namespace == p.key.namespace
              && GroupPicks(c, Key(p.key.namespace, p.target), c.servers[k].labels)
    case UnknownTarget => {}
  }

  /** What its backstop is built from: the covered servers, and whether any of them runs pods. */
  datatype Resolution = Unresolved | SelectorError | Resolved(members: set<string>, hasPods: bool)

  ghost function Resolve(c: Cluster, p: Policy): Resolution {
    var group := Key(p.key.namespace, p.target);
    if p.kind.GroupTarget? && group in c.groups && c.groups[group].Unparsable? then SelectorError
    else
      var targets := TargetSet(c, p);
      if targets == {} then Unresolved
      else Resolved(set k | k in targets :: k.name, exists k :: k in targets && c.servers[k].container)
  }

  function NamesOf(list: seq<(string, Server)>): seq<string> {
    if list == [] then [] else NamesOf(list[..|list| - 1]) + [list[|list| - 1].0]
  }

  /** groupMembers: the listed servers' names, each once for each listing and sorted, and whether any runs pods. */
  method GroupMembers(list: seq<(string, Server)>) returns (names: seq<string>, hasPods: bool)
    ensures IsSorted(names) && multiset(names) == multiset(NamesOf(list))
    ensures multiset(names) == multiset(seq(|list|, i requires 0 <= i < |list| => list[i].0))
    ensures hasPods <==> exists i :: 0 <= i < |list| && list[i].1.container
  {
    names, hasPods := [], false;
    for i := 0 to |list|
      invariant names == NamesOf(list[..i])
      invariant hasPods <==> exists j :: 0 <= j < i && list[j].1.container
    {
      assert list[..i + 1][..i] == list[..i];
      names := names + [list[i].0];
      hasPods := hasPods || list[i].1.container;
    }
    assert list[..|list|] == list;
    SortSorts(names);
    NamesOfIs(list);
    names := Sort(names);
  }

  lemma {:induction false} NamesOfIs(list: seq<(string, Server)>)
    ensures NamesOf(list) == seq(|list|, i requires 0 <= i < |list| => list[i].0)
  {
    if list != [] {
      NamesOfIs(list[..|list| - 1]);
    }
  }

  // ---- The mapping ----

  /** Evaluated directly: the policy names the server, or a group whose selector picks its labels. */
  predicate Reaches(c: Cluster, key: Key, labels: Labels, p: Policy) {
    && p.key.namespace == key.namespace
    && match p.kind
       case ServerTarget => p.target == key.name
       case GroupTarget => GroupPicks(c, Key(key.namespace, p.target), labels)
       case UnknownTarget => false
  }

  function Requests(c: Cluster, key: Key, labels: Labels, policies: seq<Policy>): (reqs: seq<Key>)
    ensures forall k :: k in reqs <==> exists p :: p in policies && p.key == k && Reaches(c, key, labels, p)
  {
    if policies == [] then []
    else
      var p := policies[|policies| - 1];
      assert forall q :: q in policies <==> q in policies[..|policies| - 1] || q == p;
      Requests(c, key, labels, policies[..|policies| - 1]) + if Reaches(c, key, labels, p) then [p.key] else []
  }

  function InNamespace(policies: seq<Policy>, namespace: string): (r: seq<Policy>)
    ensures forall p :: p in r <==> p in policies && p.key.namespace == namespace
  {
    if policies == [] then []
    else
      var p := policies[|policies| - 1];
      assert forall q :: q in policies <==> q in policies[..|policies| - 1] || q == p;
      InNamespace(policies[..|policies| - 1], namespace) + if p.key.namespace == namespace then [p] else []
  }

  /** One group of the namespace, read and evaluated. */
  method Selects(c: Cluster, group: Key, labels: Labels) returns (matched: bool)
    ensures matched == GroupPicks(c, group, labels)
  {
    matched := false;
    if group in c.groups {
      match c.groups[group]
      case Absent =>
      case Unparsable =>
      case Parsed(id) => matched := c.matches(id, labels);
    }
  }

  /** Evaluating each group once and remembering the answer finds what evaluating every selector would. */
  method PoliciesForMCPServer(c: Cluster, key: Key, labels: Labels) returns (reqs: seq<Key>)
    ensures reqs == Requests(c, key, labels, InNamespace(c.policies, key.namespace))
    ensures forall k :: k in reqs <==> exists p :: p in c.policies && p.key == k && Picks(c, key, labels, p)
  {
    hide Picks;
    var items := InNamespace(c.policies, key.namespace);
    var groupMatches: map<string, bool> := map[];
    reqs := [];
    for i := 0 to |items|
      invariant reqs == Requests(c, key, labels, items[..i])
      invariant forall g :: g in groupMatches ==> groupMatches[g] == GroupPicks(c, Key(key.namespace, g), labels)
    {
      var p := items[i];
      assert items[..i + 1][..i] == items[..i];
      assert p in items;
      match p.kind {
        case ServerTarget =>
          if p.target != key.name {
            continue;
          }
        case GroupTarget =>
          if p.target !in groupMatches {
            var matched := Selects(c, Key(key.namespace, p.target), labels);
            groupMatches := groupMatches[p.target := matched];
          }
          if !groupMatches[p.target] {
            continue;
          }
        case UnknownTarget =>
          continue;
      }
      reqs := reqs + [p.key];
    }
    assert items[..|items|] == items;
    PickedAreRequested(c, key, labels, items);
  }

  /** The policy is of the server's namespace and names it, or a group whose selector parses and matches its labels. */
  predicate Picks(c: Cluster, key: Key, labels: Labels, p: Policy) {
    && p.key.namespace == key.namespace
    && (|| (p.kind.ServerTarget? && p.target == key.name)
        || (&& p.kind.GroupTarget? && Key(key.namespace, p.target) in c.groups
            && c.groups[Key(key.namespace, p.target)].Parsed?
            && c.matches(c.groups[Key(key.namespace, p.target)].id, labels)))
  }

  lemma PickedAreRequested(c: Cluster, key: Key, labels: Labels, items: seq<Policy>)
    requires items == InNamespace(c.policies, key.namespace)
    ensures forall k :: k in Requests(c, key, labels, items) <==>
      exists p :: p in c.policies && p.key == k && Picks(c, key, labels, p)
  {
    hide InNamespace, Requests;
    forall p ensures p in c.policies && Picks(c, key, labels, p) <==> p in items && Reaches(c, key, labels, p) {
    }
  }

  /** A group's own events reach the policies that name it, whatever its selector. */
  method PoliciesForMCPServerGroup(c: Cluster, group: Key) returns (reqs: seq<Key>)
    ensures forall k :: k in reqs <==>
      exists p :: p in c.policies && p.key == k && k.namespace == group.namespace && p.kind.GroupTarget? && p.target == group.name
  {
    var items := InNamespace(c.policies, group.namespace);
    reqs := [];
    for i := 0 to |items|
      invariant forall k :: k in reqs <==>
        exists p :: p in items[..i] && p.key == k && p.kind.GroupTarget? && p.target == group.name
    {
      var p := items[i];
      assert forall q :: q in items[..i + 1] <==> q in items[..i] || q == p;
      if p.kind != GroupTarget || p.target != group.name {
        continue;
      }
      reqs := reqs + [p.key];
    }
    assert items[..|items|] == items;
  }

  /** What a server event enqueues: the mapping of the old object, of the new one, or of both. */
  ghost predicate Enqueued(c: Cluster, key: Key, before: Option<Server>, after: Option<Server>, p: Key) {
    || (before.Some? && p in Requests(c, key, before.value.labels, InNamespace(c.policies, key.namespace)))
    || (after.Some? && p in Requests(c, key, after.value.labels, InNamespace(c.policies, key.namespace)))
  }

  /** The cluster with the server as it was, or as it is. */
  function With(c: Cluster, key: Key, s: Option<Server>): Cluster {
    c.(servers := if s.Some? then c.servers[key := s.value] else c.servers - {key})
  }

  lemma EnqueuedMeansReached(c: Cluster, key: Key, before: Option<Server>, after: Option<Server>, p: Policy)
    requires p in c.policies
    requires (before.Some? && Reaches(c, key, before.value.labels, p)) || (after.Some? && Reaches(c, key, after.value.labels, p))
    ensures Enqueued(c, key, before, after, p.key)
  {
    assert p in InNamespace(c.policies, key.namespace);
  }

  /** A server is in a policy's target set exactly when the mapping reaches the policy from it. */
  lemma TargetedIffReached(c: Cluster, key: Key, s: Server, p: Policy)
    ensures key in TargetSet(With(c, key, Some(s)), p) <==> Reaches(c, key, s.labels, p)
  {
  }

  /** Every other server is in the target set, or out of it, whatever this one is. */
  lemma OthersStayTargeted(c: Cluster, key: Key, before: Option<Server>, after: Option<Server>, p: Policy, other: Key)
    requires other != key
    ensures other in TargetSet(With(c, key, before), p) <==> other in TargetSet(With(c, key, after), p)
  {
  }

  /**
  Watch completeness. A create, delete or update of a server that changes what a policy resolves to, the
  servers it covers or whether they run pods, enqueues the policy.
  */
  lemma ChangedTargetsAreEnqueued(c: Cluster, key: Key, before: Option<Server>, after: Option<Server>, p: Policy)
    requires p in c.policies
    requires Resolve(With(c, key, before), p) != Resolve(With(c, key, after), p)
    ensures Enqueued(c, key, before, after, p.key)
  {
    var was, now := With(c, key, before), With(c, key, after);
    if before.Some? {
      TargetedIffReached(c, key, before.value, p);
    }
    if after.Some? {
      TargetedIffReached(c, key, after.value, p);
    }
    if key in TargetSet(was, p) || key in TargetSet(now, p) {
      EnqueuedMeansReached(c, key, before, after, p);
    } else {
      forall other ensures other in TargetSet(was, p) <==> other in TargetSet(now, p) {
        if other != key {
          OthersStayTargeted(c, key, before, after, p, other);
        }
      }
      SameTargetsSameResolution(was, now, key, p);
    }
  }

  lemma SameTargetsSameResolution(was: Cluster, now: Cluster, key: Key, p: Policy)
    requires now == was.(servers := now.servers) && now.servers - {key} == was.servers - {key}
    requires key !in TargetSet(was, p) && TargetSet(was, p) == TargetSet(now, p)
    ensures Resolve(was, p) == Resolve(now, p)
  {
    forall k | k in TargetSet(was, p) ensures k in was.servers && k in now.servers && was.servers[k] == now.servers[k] {
      assert was.servers[k] == (was.servers - {key})[k] && now.servers[k] == (now.servers - {key})[k];
    }
  }

  ghost predicate CoversEither(c: Cluster, key: Key, before: Option<Server>, after: Option<Server>, p: Policy) {
    key in TargetSet(With(c, key, before), p) || key in TargetSet(With(c, key, after), p)
  }

  /** And no other policy is enqueued: one that is has a policy of its key that covers the server, before or after. */
  lemma EnqueuedCoversTheServer(c: Cluster, key: Key, before: Option<Server>, after: Option<Server>, k: Key)
    requires Enqueued(c, key, before, after, k)
    ensures exists p :: p in c.policies && p.key == k && CoversEither(c, key, before, after, p)
  {
    if before.Some? && k in Requests(c, key, before.value.labels, InNamespace(c.policies, key.namespace)) {
      var p :| p in InNamespace(c.policies, key.namespace) && p.key == k && Reaches(c, key, before.value.labels, p);
      TargetedIffReached(c, key, before.value, p);
    } else {
      var p :| p in InNamespace(c.policies, key.namespace) && p.key == k && Reaches(c, key, after.value.labels, p);
      TargetedIffReached(c, key, after.value, p);
    }
  }

  /** A group that appears, disappears or gets another selector changes nothing for policies that do not name it. */
  lemma GroupChangeStaysWithItsPolicies(c: Cluster, groups: map<Key, Selector>, group: Key, p: Policy)
    requires groups - {group} == c.groups - {group}
    requires !p.kind.GroupTarget? || Key(p.key.namespace, p.target) != group
    ensures Resolve(c, p) == Resolve(c.(groups := groups), p)
  {
    var g := Key(p.key.namespace, p.target);
    if p.kind.GroupTarget? {
      assert g in groups <==> g in groups - {group};
      assert g in c.groups <==> g in c.groups - {group};
      assert g in groups ==> groups[g] == (groups - {group})[g] && c.groups[g] == (c.groups - {group})[g];
    }
    assert TargetSet(c, p) == TargetSet(c.(groups := groups), p);
  }
}

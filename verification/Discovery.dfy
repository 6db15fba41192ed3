/**
A discovery source's filters and its authoritative sync. Go iterates maps in any order; what is kept, and
which servers carry the source's label afterwards, do not depend on it.
*/
module Discovery {
  import opened Wrappers
  import opened Strings

  type Labels = map<string, string>

  const MANAGED_BY := "mcp-hangar.io/managed-by"

  /** What was found under a name: whether it needs an image and has one, and the labels it brings. */
  datatype Info = Info(container: bool, image: string, labels: Labels)

  /** Patterns select names by `matches`; a pattern that does not compile matches nothing. */
  datatype Filters = Filters(included: seq<string>, excluded: seq<string>, maxProviders: Option<int>)

  type Matcher = (string, string) -> bool

  // ---- Filters ----

  predicate MatchesAny(matches: Matcher, patterns: seq<string>, name: string) {
    exists i :: 0 <= i < |patterns| && matches(patterns[i], name)
  }

  predicate Passes(f: Filters, matches: Matcher, name: string) {
    && (f.included == [] || MatchesAny(matches, f.included, name))
    && !MatchesAny(matches, f.excluded, name)
  }

  /** The names the patterns let through. */
  function Passing(f: Filters, matches: Matcher, names: set<string>): set<string> {
    set n | n in names && Passes(f, matches, n)
  }

  /** `kept` are the least `k` names of `all`, or all of them when there are no more than `k`. */
  predicate AreLeast(kept: set<string>, all: set<string>, k: nat) {
    && kept <= all
    && |kept| == (if |all| < k then |all| else k)
    && (forall n, m :: n in kept && m in all && m !in kept ==> Leq(n, m) && n != m)
  }

  function Limit(f: Filters, all: nat): nat {
    if f.maxProviders.None? then all else if f.maxProviders.value < 0 then 0 else f.maxProviders.value
  }

  /** The name is in some include pattern, or there is none, and in no exclude pattern. */
  predicate Chosen(f: Filters, matches: Matcher, n: string) {
    && (f.included == [] || exists p :: p in f.included && matches(p, n))
    && (forall p :: p in f.excluded ==> !matches(p, n))
  }

  /**
  What is kept is chosen by the patterns; with a limit it is no more than that many, and whatever was chosen
  and left out comes after every name that was kept; without one nothing is.
  */
  ghost predicate KeptByFilters(f: Filters, matches: Matcher, names: set<string>, kept: set<string>) {
    && (forall n :: n in kept ==> n in names && Chosen(f, matches, n))
    && (f.maxProviders.Some? ==> |kept| <= f.maxProviders.value || kept == {})
    && (forall n :: n in names && Chosen(f, matches, n) && n !in kept ==>
         && f.maxProviders.Some? && (|kept| == f.maxProviders.value || (f.maxProviders.value < 0 && kept == {}))
         && (forall m :: m in kept ==> Leq(m, n)))
  }

  lemma LeastAreKeptByFilters(f: Filters, matches: Matcher, names: set<string>, kept: set<string>)
    requires var passing := Passing(f, matches, names); AreLeast(kept, passing, Limit(f, |passing|))
    ensures KeptByFilters(f, matches, names, kept)
  {
    var passing := Passing(f, matches, names);
    forall n | n in names ensures Passes(f, matches, n) <==> Chosen(f, matches, n) {
      PassingIsChosen(f, matches, n);
    }
    if kept != passing {
      ProperSubsetIsSmaller(kept, passing);
    }
  }

  lemma PassingIsChosen(f: Filters, matches: Matcher, n: string)
    ensures Passes(f, matches, n) <==> Chosen(f, matches, n)
  {
    assert MatchesAny(matches, f.included, n) <==> exists p :: p in f.included && matches(p, n) by {
      AnyByValue(matches, f.included, n);
    }
    AnyByValue(matches, f.excluded, n);
  }

  lemma AnyByValue(matches: Matcher, patterns: seq<string>, n: string)
    ensures MatchesAny(matches, patterns, n) <==> exists p :: p in patterns && matches(p, n)
  {
    if p :| p in patterns && matches(p, n) {
      var i :| 0 <= i < |patterns| && patterns[i] == p;
      assert matches(patterns[i], n);
    }
  }

  /** There is one such set, so the order in which a map was iterated cannot show. */
  lemma LeastAreUnique(a: set<string>, b: set<string>, all: set<string>, k: nat)
    requires AreLeast(a, all, k) && AreLeast(b, all, k)
    ensures a == b
  {
    if a != b {
      if a <= b {
        ProperSubsetIsSmaller(a, b);
      } else if b <= a {
        ProperSubsetIsSmaller(b, a);
      } else {
        var x :| x in a && x !in b;
        var y :| y in b && y !in a;
        LeqIsAntisymmetric(x, y);
      }
    }
  }

  lemma ProperSubsetIsSmaller(a: set<string>, b: set<string>)
    requires a < b
    ensures |a| < |b|
  {
    assert b == a + (b - a) && b - a != {};
  }

  method MatchAny(matches: Matcher, patterns: seq<string>, name: string) returns (matched: bool)
    ensures matched == MatchesAny(matches, patterns, name)
  {
    for i := 0 to |patterns|
      invariant forall j :: 0 <= j < i ==> !matches(patterns[j], name)
    {
      if matches(patterns[i], name) {
        return true;
      }
    }
    return false;
  }

  method LetThrough(f: Filters, matches: Matcher, name: string) returns (passes: bool)
    ensures passes == Passes(f, matches, name)
  {
    if |f.included| > 0 {
      var matched := MatchAny(matches, f.included, name);
      if !matched {
        return false;
      }
    }
    var excluded := MatchAny(matches, f.excluded, name);
    return !excluded;
  }

  method ApplyFilters(filters: Option<Filters>, matches: Matcher, discovered: map<string, Info>)
    returns (kept: map<string, Info>)
    ensures forall n :: n in kept ==> n in discovered && kept[n] == discovered[n]
    ensures filters.None? ==> kept == discovered
    ensures filters.Some? ==>
      var passing := Passing(filters.value, matches, discovered.Keys);
      AreLeast(kept.Keys, passing, Limit(filters.value, |passing|))
    ensures filters.Some? ==> KeptByFilters(filters.value, matches, discovered.Keys, kept.Keys)
  {
    if filters.None? {
      return discovered;
    }
    var f := filters.value;
    var filtered: map<string, Info> := map[];
    var left := discovered.Keys;
    while left != {}
      invariant left <= discovered.Keys
      invariant filtered.Keys == Passing(f, matches, discovered.Keys - left)
      invariant forall n :: n in filtered ==> n in discovered && filtered[n] == discovered[n]
      decreases |left|
    {
      var name :| name in left;
      left := left - {name};
      var passes := LetThrough(f, matches, name);
      if passes {
        filtered := filtered[name := discovered[name]];
      }
    }
    assert discovered.Keys - left == discovered.Keys;
    if f.maxProviders.Some? && |filtered| > f.maxProviders.value {
      kept := Truncate(filtered, f.maxProviders.value);
      LeastAreKeptByFilters(f, matches, discovered.Keys, kept.Keys);
      return kept;
    }
    LeastAreKeptByFilters(f, matches, discovered.Keys, filtered.Keys);
    return filtered;
  }

  /** The first `i` names of a sorted listing. */
  function Prefix(sorted: seq<string>, i: nat): set<string>
    requires i <= |sorted|
  {
    set n | n in sorted[..i]
  }

  predicate Distinct(sorted: seq<string>) {
    forall i, j :: 0 <= i < j < |sorted| ==> sorted[i] != sorted[j]
  }

  lemma PrefixStep(sorted: seq<string>, i: nat)
    requires i < |sorted|
    ensures Prefix(sorted, i + 1) == Prefix(sorted, i) + {sorted[i]}
  {
    assert sorted[..i + 1] == sorted[..i] + [sorted[i]];
  }

  lemma {:induction false} PrefixSize(sorted: seq<string>, i: nat)
    requires i <= |sorted| && Distinct(sorted)
    ensures |Prefix(sorted, i)| == i
  {
    if i > 0 {
      PrefixSize(sorted, i - 1);
      PrefixStep(sorted, i - 1);
      assert sorted[i - 1] !in sorted[..i - 1];
    }
  }

  method SortedKeys(keys: set<string>) returns (sorted: seq<string>)
    ensures IsSorted(sorted) && Distinct(sorted) && |sorted| == |keys| && forall n :: n in sorted <==> n in keys
  {
    var names := Names(keys);
    SortSorts(names);
    sorted := Sort(names);
    SortedNames(names, sorted, keys);
  }

  method TakeFirst(filtered: map<string, Info>, sorted: seq<string>, max: int) returns (truncated: map<string, Info>)
    requires max < |sorted| && forall n :: n in sorted ==> n in filtered
    ensures truncated.Keys == Prefix(sorted, if max < 0 then 0 else max)
    ensures forall n :: n in truncated ==> n in filtered && truncated[n] == filtered[n]
  {
    truncated := map[];
    var i := 0;
    while i < max && i < |sorted|
      invariant 0 <= i <= |sorted| && (i <= max || i == 0)
      invariant truncated.Keys == Prefix(sorted, i)
      invariant forall n :: n in truncated ==> n in filtered && truncated[n] == filtered[n]
    {
      PrefixStep(sorted, i);
      truncated := truncated[sorted[i] := filtered[sorted[i]]];
      i := i + 1;
    }
  }

  method Truncate(filtered: map<string, Info>, max: int) returns (truncated: map<string, Info>)
    requires |filtered| > max
    ensures AreLeast(truncated.Keys, filtered.Keys, if max < 0 then 0 else max)
    ensures forall n :: n in truncated ==> n in filtered && truncated[n] == filtered[n]
  {
    var sorted := SortedKeys(filtered.Keys);
    truncated := TakeFirst(filtered, sorted, max);
    PrefixIsLeast(sorted, if max < 0 then 0 else max, filtered.Keys);
  }

  /** A map's keys, in whatever order the iteration gives them. */
  method Names(keys: set<string>) returns (names: seq<string>)
    ensures multiset(names) == multiset(keys)
  {
    names := [];
    var left := keys;
    while left != {}
      invariant left <= keys && multiset(names) == multiset(keys - left)
      decreases |left|
    {
      var name :| name in left;
      assert keys - (left - {name}) == (keys - left) + {name};
      names := names + [name];
      left := left - {name};
    }
    assert keys - left == keys;
  }

  /** Sorted names of a set are all of it, each once. */
  lemma SortedNames(names: seq<string>, sorted: seq<string>, keys: set<string>)
    requires multiset(names) == multiset(keys) && multiset(sorted) == multiset(names)
    ensures |sorted| == |keys| && (forall n :: n in sorted <==> n in keys) && Distinct(sorted)
  {
    assert |sorted| == |multiset(sorted)| == |keys|;
    NamesOfKeys(sorted, keys);
  }

  lemma PrefixIsLeast(sorted: seq<string>, i: nat, keys: set<string>)
    requires i <= |sorted| == |keys| && IsSorted(sorted) && Distinct(sorted)
    requires forall n :: n in sorted <==> n in keys
    ensures AreLeast(Prefix(sorted, i), keys, i)
  {
    forall n, m | n in Prefix(sorted, i) && m in keys && m !in Prefix(sorted, i) ensures Leq(n, m) && n != m {
      var j :| 0 <= j < i && sorted[..i][j] == n;
      var l :| 0 <= l < |sorted| && sorted[l] == m;
      assert sorted[..i] + sorted[i..] == sorted;
    }
    PrefixSize(sorted, i);
  }

  // ---- Creating what was found, deleting what was not ----

  datatype Fate = Answered | AnswerLost | NeverServed

  /** A source: its name, its template's labels and image, and whether it takes the names it is given. */
  datatype Source = Source(name: string, templateLabels: Labels, templateImage: string, validName: string -> bool)

  /** The labels a server gets: its own, then the source's mark, then the template's, then the entry's. */
  function Labelled(s: Source, own: Labels, info: Info): Labels {
    own[MANAGED_BY := s.name] + s.templateLabels + info.labels
  }

  /**
  Key by key: an entry's label wins over the template's, the template's over the source's mark, and the mark
  over what the server had; what none of them names stays, and nothing else comes.
  */
  lemma LabelsKeyByKey(s: Source, own: Labels, info: Info, k: string)
    ensures var after := Labelled(s, own, info);
      if k in info.labels then k in after && after[k] == info.labels[k]
      else if k in s.templateLabels then k in after && after[k] == s.templateLabels[k]
      else if k == "mcp-hangar.io/managed-by" then k in after && after[k] == s.name
      else if k in own then k in after && after[k] == own[k]
      else k !in after
  {
  }

  predicate ManagedBy(s: Source, labels: Labels) {
    MANAGED_BY in labels && labels[MANAGED_BY] == s.name
  }

  /** An entry that is refused without a call: a name no object can have, a container with no image. */
  predicate Refused(s: Source, name: string, info: Info) {
    !s.validName(name) || (info.container && info.image == "" && s.templateImage == "")
  }

  /** A name an object can have, and for a container an image from the entry or the template. */
  predicate Usable(s: Source, name: string, info: Info) {
    s.validName(name) && (info.container ==> info.image != "" || s.templateImage != "")
  }

  /** The servers of the source's namespace, by name: their labels. */
  class Namespace {
    var servers: map<string, Labels>

    constructor (servers: map<string, Labels>)
      ensures this.servers == servers
    {
      this.servers := servers;
    }

    method CreateOrUpdate(s: Source, name: string, info: Info, fate: Fate) returns (ok: bool)
      modifies this
      ensures servers == if fate.NeverServed? then old(servers)
                         else old(servers)[name := Labelled(s, LabelsOf(old(servers), name), info)]
      ensures ok == fate.Answered?
    {
      if !fate.NeverServed? {
        var labels := LabelsOf(servers, name);
        labels := labels[MANAGED_BY := s.name];
        labels := labels + s.templateLabels;
        labels := labels + info.labels;
        servers := servers[name := labels];
      }
      ok := fate.Answered?;
    }

    /** One entry of the create loop. */
    method CreateOne(s: Source, name: string, info: Info, fate: Fate) returns (ok: bool)
      modifies this
      ensures servers == AfterCreate(s, old(servers), name, info, fate)
      ensures ok <==> !Refused(s, name, info) && fate.Answered?
    {
      if Refused(s, name, info) {
        return false;
      }
      ok := CreateOrUpdate(s, name, info, fate);
    }

    /** The create loop over one order of the names; `errors` are the names it reports. */
    method CreateInOrder(s: Source, discovered: map<string, Info>, fates: map<string, Fate>, order: seq<string>)
      returns (errors: set<string>)
      requires fates.Keys == discovered.Keys && forall n :: n in order ==> n in discovered
      modifies this
      ensures Tally(servers, errors) == Creates(s, old(servers), discovered, fates, order)
    {
      errors := {};
      for i := 0 to |order|
        invariant Tally(servers, errors) == Creates(s, old(servers), discovered, fates, order[..i])
      {
        var name := order[i];
        assert order[..i + 1][..i] == order[..i];
        assert name in order;
        var ok := CreateOne(s, name, discovered[name], fates[name]);
        if !ok {
          errors := errors + {name};
        }
      }
      assert order[..|order|] == order;
    }

    /** Over the map, in whatever order it is iterated. */
    method CreateAll(s: Source, discovered: map<string, Info>, fates: map<string, Fate>) returns (errors: set<string>)
      requires fates.Keys == discovered.Keys
      modifies this
      ensures servers == AfterCreates(s, old(servers), discovered, fates, discovered.Keys)
      ensures errors == CreateErrors(s, discovered, fates, discovered.Keys)
      ensures forall n :: n in errors <==> n in discovered && (!Usable(s, n, discovered[n]) || !fates[n].Answered?)
      ensures forall n :: n in servers <==>
        n in old(servers) || (n in discovered && Usable(s, n, discovered[n]) && !fates[n].NeverServed?)
      ensures forall n | n in servers && n in discovered && Usable(s, n, discovered[n]) && !fates[n].NeverServed? ::
        servers[n] == Labelled(s, if n in old(servers) then old(servers)[n] else map[], discovered[n])
      ensures forall n | n in servers && (n in discovered ==> !Usable(s, n, discovered[n]) || fates[n].NeverServed?) ::
        servers[n] == old(servers)[n]
    {
      var order := Names(discovered.Keys);
      NamesOfKeys(order, discovered.Keys);
      AnyOrderCreates(s, servers, discovered, fates, order);
      assert SetOf(order) == discovered.Keys;
      errors := CreateInOrder(s, discovered, fates, order);
    }

    /** Every listed server that was not discovered is deleted; `listed` is None when listing failed. */
    method AuthoritativeSync(discovered: set<string>, listed: Option<set<string>>, fates: map<string, Fate>)
      returns (errors: set<string>, failed: bool)
      requires listed.Some? ==> fates.Keys == listed.value
      modifies this
      ensures failed == listed.None?
      ensures failed ==> servers == old(servers)
      ensures !failed ==> servers == old(servers) - Deleted(discovered, listed.value, fates)
      ensures !failed ==> errors == DeleteErrors(discovered, listed.value, fates)
      ensures !failed ==> forall n :: n in errors <==> n in listed.value && n !in discovered && !fates[n].Answered?
      ensures !failed ==> forall n :: n in servers <==>
        n in old(servers) && (n in discovered || n !in listed.value || fates[n].NeverServed?)
      ensures forall n :: n in servers ==> n in old(servers) && servers[n] == old(servers)[n]
    {
      errors, failed := {}, false;
      if listed.None? {
        failed := true;
        return;
      }
      var order := Names(listed.value);
      NamesOfKeys(order, listed.value);
      for i := 0 to |order|
        invariant Tally(servers, errors) == Deletes(old(servers), discovered, fates, order[..i])
      {
        var name := order[i];
        assert order[..i + 1][..i] == order[..i];
        assert name in order;
        if name !in discovered {
          if !fates[name].NeverServed? {
            servers := servers - {name};
          }
          if !fates[name].Answered? {
            errors := errors + {name};
          }
        }
      }
      assert order[..|order|] == order;
      AnyOrderDeletes(old(servers), discovered, fates, order);
      assert SetOf(order) == listed.value;
    }

    /** One Authoritative pass, after discovery and filtering; ok means it reported no error. */
    method Sync(s: Source, discovered: map<string, Info>, creates: map<string, Fate>,
                listed: Option<set<string>>, deletes: map<string, Fate>) returns (ok: bool)
      requires creates.Keys == discovered.Keys && (listed.Some? ==> deletes.Keys == listed.value)
      modifies this
      ensures var created := AfterCreates(s, old(servers), discovered, creates, discovered.Keys);
        servers == if listed.Some? then created - Deleted(discovered.Keys, listed.value, deletes) else created
      ensures ok <==> listed.Some? && CreateErrors(s, discovered, creates, discovered.Keys) == {}
                      && DeleteErrors(discovered.Keys, listed.value, deletes) == {}
      ensures ok ==> listed.Some? && servers == AfterSync(s, old(servers), discovered, listed.value)
      ensures ok ==> forall n :: n in discovered ==> Usable(s, n, discovered[n])
    {
      var createErrors := CreateAll(s, discovered, creates);
      var deleteErrors, failed := AuthoritativeSync(discovered.Keys, listed, deletes);
      ok := createErrors == {} && !failed && deleteErrors == {};
      if ok {
        NoErrorNoGap(s, old(servers), discovered, creates, listed.value, deletes);
      }
    }
  }

  function LabelsOf(servers: map<string, Labels>, name: string): Labels {
    if name in servers then servers[name] else map[]
  }

  function AfterCreate(s: Source, servers: map<string, Labels>, name: string, info: Info, fate: Fate): map<string, Labels> {
    if Refused(s, name, info) || fate.NeverServed? then servers
    else servers[name := Labelled(s, LabelsOf(servers, name), info)]
  }

  /** The names for which the create or update reached the server. */
  function Reached(s: Source, discovered: map<string, Info>, fates: map<string, Fate>, names: set<string>): set<string>
    requires names <= discovered.Keys == fates.Keys
  {
    set n | n in names && !Refused(s, n, discovered[n]) && !fates[n].NeverServed?
  }

  function AfterCreates(s: Source, before: map<string, Labels>, discovered: map<string, Info>, fates: map<string, Fate>,
                        names: set<string>): map<string, Labels>
    requires names <= discovered.Keys == fates.Keys
  {
    Made(s, before, discovered, Reached(s, discovered, fates, names))
  }

  /** The servers with these names created or updated, each from what it was before. */
  function Made(s: Source, before: map<string, Labels>, discovered: map<string, Info>, names: set<string>): map<string, Labels>
    requires names <= discovered.Keys
  {
    map n | n in before.Keys + names :: if n in names then Labelled(s, LabelsOf(before, n), discovered[n]) else before[n]
  }

  lemma MadeOneMore(s: Source, before: map<string, Labels>, discovered: map<string, Info>, names: set<string>, name: string)
    requires names <= discovered.Keys && name in discovered && name !in names
    ensures var made := Made(s, before, discovered, names);
      && LabelsOf(made, name) == LabelsOf(before, name)
      && Made(s, before, discovered, names + {name}) == made[name := Labelled(s, LabelsOf(made, name), discovered[name])]
  {
  }

  function CreateErrors(s: Source, discovered: map<string, Info>, fates: map<string, Fate>, names: set<string>): set<string>
    requires names <= discovered.Keys == fates.Keys
  {
    set n | n in names && (Refused(s, n, discovered[n]) || !fates[n].Answered?)
  }

  function Deleted(discovered: set<string>, names: set<string>, fates: map<string, Fate>): set<string>
    requires names <= fates.Keys
  {
    set n | n in names && n !in discovered && !fates[n].NeverServed?
  }

  function DeleteErrors(discovered: set<string>, names: set<string>, fates: map<string, Fate>): set<string>
    requires names <= fates.Keys
  {
    set n | n in names && n !in discovered && !fates[n].Answered?
  }

  /** The servers and the reported names, partway through a loop. */
  datatype Tally = Tally(servers: map<string, Labels>, errors: set<string>)

  /** The create loop over one order of the names. */
  function Creates(s: Source, before: map<string, Labels>, discovered: map<string, Info>, fates: map<string, Fate>,
                   order: seq<string>): Tally
    requires discovered.Keys == fates.Keys && forall n :: n in order ==> n in discovered
  {
    if order == [] then Tally(before, {})
    else
      var name := order[|order| - 1];
      var t := Creates(s, before, discovered, fates, order[..|order| - 1]);
      Tally(AfterCreate(s, t.servers, name, discovered[name], fates[name]),
            t.errors + if Refused(s, name, discovered[name]) || !fates[name].Answered? then {name} else {})
  }

  function Deletes(before: map<string, Labels>, discovered: set<string>, fates: map<string, Fate>, order: seq<string>): Tally
    requires forall n :: n in order ==> n in fates
  {
    if order == [] then Tally(before, {})
    else
      var name := order[|order| - 1];
      var t := Deletes(before, discovered, fates, order[..|order| - 1]);
      if name in discovered then t
      else Tally(if fates[name].NeverServed? then t.servers else t.servers - {name},
                 t.errors + if fates[name].Answered? then {} else {name})
  }

  /** A listing of a set's names: all of them, each once. */
  lemma NamesOfKeys(order: seq<string>, keys: set<string>)
    requires multiset(order) == multiset(keys)
    ensures Distinct(order) && forall n :: n in order <==> n in keys
  {
    forall n ensures n in order <==> n in keys {
      assert n in order <==> n in multiset(order);
    }
    forall i, j | 0 <= i < j < |order| ensures order[i] != order[j] {
      assert order == order[..j] + order[j..];
      assert order[j..][0] == order[j] && order[..j][i] == order[i];
      assert multiset(order[j..])[order[j]] >= 1 && multiset(keys)[order[j]] <= 1;
      assert multiset(order)[order[j]] == multiset(order[..j])[order[j]] + multiset(order[j..])[order[j]];
      assert order[j] !in order[..j];
    }
  }

  function SetOf(names: seq<string>): set<string> {
    set n | n in names
  }

  lemma SetOfNames(order: seq<string>)
    requires order != []
    ensures SetOf(order) == SetOf(order[..|order| - 1]) + {order[|order| - 1]}
  {
    assert order == order[..|order| - 1] + [order[|order| - 1]];
  }

  /** Every order of the names creates the same servers and reports the same errors. */
  lemma {:induction false} AnyOrderCreates(s: Source, before: map<string, Labels>, discovered: map<string, Info>,
                                           fates: map<string, Fate>, order: seq<string>)
    requires discovered.Keys == fates.Keys && Distinct(order) && forall n :: n in order ==> n in discovered
    ensures Creates(s, before, discovered, fates, order)
            == Tally(AfterCreates(s, before, discovered, fates, SetOf(order)),
                     CreateErrors(s, discovered, fates, SetOf(order)))
  {
    if order == [] {
      assert AfterCreates(s, before, discovered, fates, SetOf(order)) == before;
    } else {
      var prefix, name := order[..|order| - 1], order[|order| - 1];
      AnyOrderCreates(s, before, discovered, fates, prefix);
      SetOfNames(order);
      CreateStep(s, before, discovered, fates, SetOf(prefix), name);
    }
  }

  lemma CreateStep(s: Source, before: map<string, Labels>, discovered: map<string, Info>, fates: map<string, Fate>,
                   done: set<string>, name: string)
    requires done <= discovered.Keys == fates.Keys && name in discovered && name !in done
    ensures AfterCreates(s, before, discovered, fates, done + {name}) ==
      AfterCreate(s, AfterCreates(s, before, discovered, fates, done), name, discovered[name], fates[name])
    ensures CreateErrors(s, discovered, fates, done + {name}) ==
      CreateErrors(s, discovered, fates, done)
      + (if Refused(s, name, discovered[name]) || !fates[name].Answered? then {name} else {})
  {
    var skipped := Refused(s, name, discovered[name]) || fates[name].NeverServed?;
    var reached := Reached(s, discovered, fates, done);
    if skipped {
      assert Reached(s, discovered, fates, done + {name}) == reached;
    } else {
      assert Reached(s, discovered, fates, done + {name}) == reached + {name};
      MadeOneMore(s, before, discovered, reached, name);
    }
  }

  lemma {:induction false} AnyOrderDeletes(before: map<string, Labels>, discovered: set<string>, fates: map<string, Fate>,
                                           order: seq<string>)
    requires forall n :: n in order ==> n in fates
    ensures Deletes(before, discovered, fates, order)
            == Tally(before - Deleted(discovered, SetOf(order), fates), DeleteErrors(discovered, SetOf(order), fates))
  {
    if order == [] {
      assert Deleted(discovered, SetOf(order), fates) == {};
      assert before - {} == before;
    } else {
      var prefix, name := order[..|order| - 1], order[|order| - 1];
      AnyOrderDeletes(before, discovered, fates, prefix);
      SetOfNames(order);
      DeleteStep(before, discovered, SetOf(prefix), fates, name);
    }
  }

  lemma DeleteStep(before: map<string, Labels>, discovered: set<string>, done: set<string>, fates: map<string, Fate>, name: string)
    requires done <= fates.Keys && name in fates
    ensures var next := before - Deleted(discovered, done + {name}, fates);
      next == if name !in discovered && !fates[name].NeverServed? then before - Deleted(discovered, done, fates) - {name}
              else before - Deleted(discovered, done, fates)
    ensures DeleteErrors(discovered, done + {name}, fates) ==
      DeleteErrors(discovered, done, fates) + if name !in discovered && !fates[name].Answered? then {name} else {}
  {
    var gone := if name !in discovered && !fates[name].NeverServed? then {name} else {};
    assert Deleted(discovered, done + {name}, fates) == Deleted(discovered, done, fates) + gone;
  }

  /** When nothing was reported, every create and every delete was made. */
  lemma NoErrorNoGap(s: Source, before: map<string, Labels>, discovered: map<string, Info>, creates: map<string, Fate>,
                     listed: set<string>, deletes: map<string, Fate>)
    requires creates.Keys == discovered.Keys && deletes.Keys == listed
    requires CreateErrors(s, discovered, creates, discovered.Keys) == {}
    requires DeleteErrors(discovered.Keys, listed, deletes) == {}
    ensures AfterCreates(s, before, discovered, creates, discovered.Keys) == AfterAllCreates(s, before, discovered)
    ensures Deleted(discovered.Keys, listed, deletes) == listed - discovered.Keys
    ensures forall n :: n in discovered ==> !Refused(s, n, discovered[n])
  {
    forall n | n in discovered ensures !Refused(s, n, discovered[n]) && creates[n].Answered? {
      assert n !in CreateErrors(s, discovered, creates, discovered.Keys);
    }
    forall n | n in listed && n !in discovered ensures deletes[n].Answered? {
      assert n !in DeleteErrors(discovered.Keys, listed, deletes);
    }
    assert Reached(s, discovered, creates, discovered.Keys) == discovered.Keys;
  }

  /** With every create answered, each discovered name is there, labelled. */
  function AfterAllCreates(s: Source, before: map<string, Labels>, discovered: map<string, Info>): map<string, Labels> {
    Made(s, before, discovered, discovered.Keys)
  }

  /** And with every delete answered too, what was listed and not discovered is gone. */
  function AfterSync(s: Source, before: map<string, Labels>, discovered: map<string, Info>, listed: set<string>)
    : map<string, Labels>
  {
    AfterAllCreates(s, before, discovered) - (listed - discovered.Keys)
  }

  function LabelledFor(s: Source, servers: map<string, Labels>): set<string> {
    set n | n in servers && ManagedBy(s, servers[n])
  }

  /** Neither the template nor the entry marks the server as another source's. */
  predicate KeepsTheMark(s: Source, info: Info) {
    if MANAGED_BY in info.labels then info.labels[MANAGED_BY] == s.name
    else MANAGED_BY in s.templateLabels ==> s.templateLabels[MANAGED_BY] == s.name
  }

  lemma MarkIsKeptIff(s: Source, own: Labels, info: Info)
    ensures ManagedBy(s, Labelled(s, own, info)) <==> KeepsTheMark(s, info)
  {
  }

  /**
  After an error-free Authoritative pass the servers labelled for the source are exactly the discovered
  names, if and only if no label of the template or of an entry takes the mark away, and the listing
  missed no labelled server that should go.
  */
  lemma LabelledAreTheDiscoveredIff(s: Source, before: map<string, Labels>, discovered: map<string, Info>, listed: set<string>)
    ensures LabelledFor(s, AfterSync(s, before, discovered, listed)) == discovered.Keys <==>
      && (forall n :: n in discovered ==> KeepsTheMark(s, discovered[n]))
      && LabelledFor(s, before) - discovered.Keys <= listed
  {
    var after := AfterSync(s, before, discovered, listed);
    forall n | n in discovered ensures n in after && (ManagedBy(s, after[n]) <==> KeepsTheMark(s, discovered[n])) {
      MarkIsKeptIff(s, LabelsOf(before, n), discovered[n]);
    }
    forall n | n !in discovered
      ensures n in LabelledFor(s, after) <==> n in LabelledFor(s, before) && n !in listed
    {
    }
    if LabelledFor(s, after) == discovered.Keys {
      forall n | n in discovered ensures KeepsTheMark(s, discovered[n]) {
        assert n in LabelledFor(s, after);
      }
    }
  }

  /** The pass leaves every other server of the namespace as it was. */
  lemma OthersAreLeftAlone(s: Source, before: map<string, Labels>, discovered: map<string, Info>, listed: set<string>, n: string)
    requires n !in discovered && n !in listed
    ensures var after := AfterSync(s, before, discovered, listed);
      (n in after <==> n in before) && (n in after ==> after[n] == before[n])
  {
  }
}

/**
writeStatus: a status sent as a merge patch against the status that was read, under a
resourceVersion precondition. Any number of passes over one object may interleave, each starting
from a cached read of any age and writing more than once.
*/
module StatusWrite {
  import opened Wrappers
  import opened MergePatch

  /** An object as the API server serves it; `version` is its resourceVersion. */
  datatype Object = Object(key: string, version: nat, spec: Json, status: Json)

  /** A status is a JSON object with no null member: what the API types marshal to. */
  predicate IsStatus(status: Json) {
    status.Obj? && NullFree(status)
  }

  /** Every version of the object that was ever stored, the live one last. */
  type History = seq<Object>

  predicate Stored(h: History) {
    && |h| > 0
    && (forall v | 0 <= v < |h| :: h[v].version == v && h[v].key == h[0].key && IsStatus(h[v].status))
  }

  function Live(h: History): Object
    requires |h| > 0
  {
    h[|h| - 1]
  }

  /** What became of a request: served and answered, served with the answer lost, or never served. */
  datatype Fate = Answered | AnswerLost | NeverServed

  function ToJson(o: Object): Json {
    Obj(map["spec" := o.spec, "status" := o.status])
  }

  /** The server's side of a write of the status subresource; a write that changes nothing stores nothing. */
  function StoreStatus(h: History, status: Json): History
    requires |h| > 0
  {
    if status == Live(h).status then h else h + [Live(h).(version := |h|, status := status)]
  }

  function StoreSpec(h: History, spec: Json): History
    requires |h| > 0
  {
    if spec == Live(h).spec then h else h + [Live(h).(version := |h|, spec := spec)]
  }

  /** A patch of the status subresource: everything but "status" in it is ignored. */
  function PatchedStatus(h: History, patch: Json): Json
    requires |h| > 0 && patch.Obj?
  {
    if "status" in patch.members then Apply(Live(h).status, patch.members["status"]) else Live(h).status
  }

  // ---- One pass, as the controllers run it ----

  /** A reconcile's own copy of the object, and the copy its context carries as the base. */
  datatype Pass = Pass(obj: Object, base: Option<Object>)

  predicate HasBase(p: Pass) {
    p.base.Some? && p.base.value.key == p.obj.key
  }

  datatype Outcome = Outcome(history: History, pass: Pass, ok: bool)

  /** A write of `status` with obj's resourceVersion: refused, or stored and obj replaced by the answer. */
  function Wrote(h: History, p: Pass, status: Json, rebase: bool, fate: Fate): Outcome
    requires |h| > 0
  {
    if fate.NeverServed? || p.obj.version != Live(h).version then Outcome(h, p, false)
    else
      var next := StoreStatus(h, status);
      if fate.AnswerLost? then Outcome(next, p, false)
      else Outcome(next, Pass(Live(next), if rebase then Some(Live(next)) else p.base), true)
  }

  /** What a call of writeStatus comes to: the whole computed status, stored under the lock, or nothing. */
  function WriteOutcome(h: History, p: Pass, fate: Fate): Outcome
    requires |h| > 0
  {
    if HasBase(p) && p.base.value.status == p.obj.status then Outcome(h, p, true)
    else Wrote(h, p, p.obj.status, HasBase(p), fate)
  }

  /** The base a pass diffs against is the status of the version it would patch. */
  predicate InStep(h: History, p: Pass) {
    && p.obj.version < |h| && p.obj.key == h[0].key && IsStatus(p.obj.status)
    && (HasBase(p) ==> p.base.value.status == h[p.obj.version].status)
  }

  /** With the base's status in a copy of the object, the difference is the status change alone. */
  lemma PatchIsTheStatusAlone(orig: Object, obj: Object)
    requires orig.spec == obj.spec && IsStatus(orig.status) && IsStatus(obj.status) && orig.status != obj.status
    ensures "status" in Diff(ToJson(orig), ToJson(obj)).members
    ensures Diff(ToJson(orig), ToJson(obj)) == Obj(map["status" := Diff(orig.status, obj.status)])
  {
    var a, b := ToJson(orig), ToJson(obj);
    DiffIsEmptyIffEqual(orig.status, obj.status);
    if obj.spec.Obj? {
      DiffIsEmptyIffEqual(orig.spec, obj.spec);
    }
    assert Differs(a, b, "status") && !Differs(a, b, "spec");
    assert a.members.Keys + b.members.Keys == {"spec", "status"};
    assert Diff(a, b).members == map["status" := Diff(orig.status, obj.status)];
  }

  /** Against the version it was taken from, the patch stores the computed status and nothing else. */
  lemma PatchStoresTheStatus(h: History, orig: Object, obj: Object)
    requires Stored(h) && orig == obj.(status := orig.status) && orig.status != obj.status
    requires IsStatus(orig.status) && IsStatus(obj.status)
    requires obj.version < |h| && h[obj.version].status == orig.status
    ensures Diff(ToJson(orig), ToJson(obj)).Obj?
    ensures obj.version == Live(h).version ==> PatchedStatus(h, Diff(ToJson(orig), ToJson(obj))) == obj.status
  {
    PatchIsTheStatusAlone(orig, obj);
    NullFreeArrives(orig.status, obj.status);
  }

  /**
  Why the precondition is there: sent without it to whatever version is live, the patch would store the
  computed status if and only if the live status agrees with the base wherever base and computed agree.
  */
  lemma WithoutTheLockItIsWholeIff(h: History, orig: Object, obj: Object)
    requires Stored(h) && orig == obj.(status := orig.status) && orig.status != obj.status
    requires IsStatus(orig.status) && IsStatus(obj.status)
    ensures Diff(ToJson(orig), ToJson(obj)).Obj?
    ensures PatchedStatus(h, Diff(ToJson(orig), ToJson(obj))) == obj.status <==>
      Agrees(Live(h).status, orig.status, obj.status)
  {
    PatchIsTheStatusAlone(orig, obj);
    StalePatchLandsIff(Live(h).status, orig.status, obj.status);
  }

  /**
  Against a base the live object has left behind, it can store a status that is neither, here with a
  group's one member counted as dead and as cold.
  */
  lemma WithoutTheLockStatusesMix()
    ensures
      var seen, live := Obj(map["readyCount" := Num(1)]), Obj(map["coldCount" := Num(1)]);
      var computed := Obj(map["deadCount" := Num(1)]);
      && Apply(seen, Diff(seen, computed)) == computed
      && Apply(live, Diff(seen, computed)) == Obj(map["coldCount" := Num(1), "deadCount" := Num(1)])
  {
    var seen, live := Obj(map["readyCount" := Num(1)]), Obj(map["coldCount" := Num(1)]);
    var computed := Obj(map["deadCount" := Num(1)]);
    assert Differs(seen, computed, "readyCount") && Differs(seen, computed, "deadCount");
    var patch := Diff(seen, computed);
    assert patch.members == map["readyCount" := Null, "deadCount" := Num(1)];
    assert Apply(seen, patch).members == computed.members;
    assert Apply(live, patch).members == map["coldCount" := Num(1), "deadCount" := Num(1)];
  }

  /** The API server, holding one object. */
  class Server {
    var history: History

    constructor (first: Object)
      ensures history == [first]
    {
      history := [first];
    }

    method PatchStatus(version: nat, patch: Json, fate: Fate) returns (answer: Option<Object>)
      requires |history| > 0 && patch.Obj?
      modifies this
      ensures history ==
        if fate.NeverServed? || version != Live(old(history)).version then old(history)
        else StoreStatus(old(history), PatchedStatus(old(history), patch))
      ensures answer ==
        if fate.Answered? && version == Live(old(history)).version then Some(Live(history)) else None
    {
      answer := None;
      if fate.NeverServed? || version != Live(history).version {
        return;
      }
      history := StoreStatus(history, PatchedStatus(history, patch));
      if fate.Answered? {
        answer := Some(Live(history));
      }
    }

    method UpdateStatus(obj: Object, fate: Fate) returns (answer: Option<Object>)
      requires |history| > 0
      modifies this
      ensures history ==
        if fate.NeverServed? || obj.version != Live(old(history)).version then old(history)
        else StoreStatus(old(history), obj.status)
      ensures answer ==
        if fate.Answered? && obj.version == Live(old(history)).version then Some(Live(history)) else None
    {
      answer := None;
      if fate.NeverServed? || obj.version != Live(history).version {
        return;
      }
      history := StoreStatus(history, obj.status);
      if fate.Answered? {
        answer := Some(Live(history));
      }
    }
  }

  /** A reconcile's object and base, moved forward by each write that is answered. */
  class Reconcile {
    var obj: Object
    var base: Option<Object>

    ghost function Held(): Pass
      reads this
    {
      Pass(obj, base)
    }

    constructor (read: Object)
      ensures obj == read && base == None
    {
      obj, base := read, None;
    }

    method WithStatusBase()
      modifies this`base
      ensures base == Some(obj)
    {
      base := Some(obj);
    }

    /** The base, if the context carries one of this object, says what the object's status was. */
    predicate BasedOn(status: Json)
      reads this
    {
      base.Some? && base.value.key == obj.key && base.value.status == status
    }

    /**
    A status that is not the base's is sent, and stored whole exactly when the request is served over the
    version the pass read; the call succeeds exactly when that was answered, and then the pass goes on from
    what was stored. A status that is the base's is not sent at all.
    */
    method WriteStatus(server: Server, fate: Fate) returns (ok: bool)
      requires Stored(server.history) && InStep(server.history, Held())
      modifies this, server
      ensures Outcome(server.history, Held(), ok) == WriteOutcome(old(server.history), old(Held()), fate)
      ensures old(BasedOn(obj.status)) ==> ok && server.history == old(server.history) && Held() == old(Held())
      ensures !old(BasedOn(obj.status)) ==>
        (ok <==> fate.Answered? && old(obj.version) == Live(old(server.history)).version)
      ensures fate.NeverServed? || old(obj.version) != Live(old(server.history)).version ==>
        server.history == old(server.history)
      ensures !fate.NeverServed? && old(obj.version) == Live(old(server.history)).version ==>
        && Live(server.history).status == old(obj.status)
        && server.history in {old(server.history), old(server.history) + [Live(server.history)]}
      ensures !ok ==> Held() == old(Held())
      ensures ok && !old(BasedOn(obj.status)) ==>
        && obj == Live(server.history)
        && base == if old(base).Some? && old(base).value.key == old(obj.key) then Some(obj) else old(base)
    {
      if base == None || base.value.key != obj.key {
        var answer := server.UpdateStatus(obj, fate);
        if answer.Some? {
          obj := answer.value;
        }
        return answer.Some?;
      }
      if base.value.status == obj.status {
        return true;
      }
      var orig := obj.(status := base.value.status);
      PatchStoresTheStatus(server.history, orig, obj);
      var answer := server.PatchStatus(orig.version, Diff(ToJson(orig), ToJson(obj)), fate);
      if answer.None? {
        return false;
      }
      obj := answer.value;
      base := Some(obj);
      return true;
    }
  }

  // ---- Whole runs ----

  /** The object's versions, and the passes under way. */
  datatype State = State(history: History, passes: map<nat, Pass>)

  datatype Event =
    | Begin(id: nat, seen: nat, base: Option<Object>)
    | Computed(id: nat, status: Json)
    | Write(id: nat, fate: Fate)
    | UpdateObject(id: nat, spec: Json, fate: Fate)
    | Outside(spec: Json)
    | End(id: nat)

  /** What can happen next. A base for this object is the copy of it that was read. */
  predicate Enabled(s: State, e: Event)
    requires |s.history| > 0
  {
    match e
    case Begin(_, seen, base) =>
      seen < |s.history| && (base.Some? && base.value.key == s.history[seen].key ==> base.value == s.history[seen])
    case Computed(id, status) => id in s.passes && IsStatus(status)
    case Write(id, _) => id in s.passes
    case UpdateObject(id, _, _) => id in s.passes
    case Outside(_) => true
    case End(_) => true
  }

  function UpdateOutcome(h: History, p: Pass, spec: Json, fate: Fate): Outcome
    requires |h| > 0
  {
    if fate.NeverServed? || p.obj.version != Live(h).version then Outcome(h, p, false)
    else
      var next := StoreSpec(h, spec);
      if fate.AnswerLost? then Outcome(next, p, false) else Outcome(next, p.(obj := Live(next)), true)
  }

  function Step(s: State, e: Event): (next: State)
    requires |s.history| > 0 && Enabled(s, e)
    ensures |next.history| > 0
  {
    match e
    case Begin(id, seen, base) => s.(passes := s.passes[id := Pass(s.history[seen], base)])
    case Computed(id, status) =>
      s.(passes := s.passes[id := s.passes[id].(obj := s.passes[id].obj.(status := status))])
    case Write(id, fate) =>
      var o := WriteOutcome(s.history, s.passes[id], fate);
      State(o.history, s.passes[id := o.pass])
    case UpdateObject(id, spec, fate) =>
      var o := UpdateOutcome(s.history, s.passes[id], spec, fate);
      State(o.history, s.passes[id := o.pass])
    case Outside(spec) => s.(history := StoreSpec(s.history, spec))
    case End(id) => s.(passes := s.passes - {id})
  }

  /** A run from `s`: None when an event in it could not have happened. */
  function Run(s: State, events: seq<Event>): (end: Option<State>)
    requires |s.history| > 0
    ensures end.Some? ==> |end.value.history| > 0
  {
    if events == [] then Some(s)
    else
      var before := Run(s, events[..|events| - 1]);
      var e := events[|events| - 1];
      if before.None? || !Enabled(before.value, e) then None else Some(Step(before.value, e))
  }

  predicate Inv(s: State) {
    && Stored(s.history)
    && (forall id | id in s.passes :: InStep(s.history, s.passes[id]))
  }

  function Initial(first: Object): State {
    State([first], map[])
  }

  /** Nothing stored is ever rewritten. */
  predicate Extends(h: History, next: History) {
    |h| <= |next| && next[..|h|] == h
  }

  lemma OutcomeKeepsStep(h: History, p: Pass, o: Outcome)
    requires Stored(h) && InStep(h, p) && (o.ok || o.pass == p)
    requires Stored(o.history) && Extends(h, o.history)
    requires o.ok && o.pass != p ==>
               o.pass.obj == Live(o.history)
               && (o.pass.base == Some(o.pass.obj)
                   || (!HasBase(p) && o.pass.base == p.base)
                   || (o.pass.base == p.base && o.pass.obj.status == h[p.obj.version].status))
    ensures InStep(o.history, o.pass)
  {
    assert o.history[p.obj.version] == h[p.obj.version];
  }

  lemma StoreStatusKeepsStored(h: History, status: Json)
    requires Stored(h) && IsStatus(status)
    ensures Stored(StoreStatus(h, status)) && Extends(h, StoreStatus(h, status))
    ensures Live(StoreStatus(h, status)).status == status
  {
  }

  lemma StoreSpecKeepsStored(h: History, spec: Json)
    requires Stored(h)
    ensures Stored(StoreSpec(h, spec)) && Extends(h, StoreSpec(h, spec))
    ensures Live(StoreSpec(h, spec)).status == Live(h).status
  {
  }

  lemma WriteKeepsStep(h: History, p: Pass, fate: Fate)
    requires Stored(h) && InStep(h, p)
    ensures var o := WriteOutcome(h, p, fate); Stored(o.history) && Extends(h, o.history) && InStep(o.history, o.pass)
  {
    StoreStatusKeepsStored(h, p.obj.status);
    OutcomeKeepsStep(h, p, WriteOutcome(h, p, fate));
  }

  lemma UpdateKeepsStep(h: History, p: Pass, spec: Json, fate: Fate)
    requires Stored(h) && InStep(h, p)
    ensures var o := UpdateOutcome(h, p, spec, fate);
      Stored(o.history) && Extends(h, o.history) && InStep(o.history, o.pass)
  {
    StoreSpecKeepsStored(h, spec);
    OutcomeKeepsStep(h, p, UpdateOutcome(h, p, spec, fate));
  }

  lemma OthersStayInStep(h: History, next: History, passes: map<nat, Pass>)
    requires Stored(h) && Stored(next) && Extends(h, next)
    requires forall id | id in passes :: InStep(h, passes[id])
    ensures forall id | id in passes :: InStep(next, passes[id])
  {
    forall id | id in passes ensures InStep(next, passes[id]) {
      assert next[passes[id].obj.version] == h[passes[id].obj.version] && next[0] == h[0];
    }
  }

  lemma StepKeepsInv(s: State, e: Event)
    requires Inv(s) && Enabled(s, e)
    ensures Inv(Step(s, e)) && Extends(s.history, Step(s, e).history)
  {
    match e
    case Begin(_, _, _) =>
    case Computed(_, _) =>
    case Write(id, fate) =>
      WriteKeepsStep(s.history, s.passes[id], fate);
      OthersStayInStep(s.history, Step(s, e).history, s.passes);
    case UpdateObject(id, spec, fate) =>
      UpdateKeepsStep(s.history, s.passes[id], spec, fate);
      OthersStayInStep(s.history, Step(s, e).history, s.passes);
    case Outside(spec) =>
      StoreSpecKeepsStored(s.history, spec);
      OthersStayInStep(s.history, Step(s, e).history, s.passes);
    case End(_) =>
  }

  /** At every point of every run, a pass diffs against the status its resourceVersion stands for. */
  lemma {:induction false} RunKeepsInv(first: Object, events: seq<Event>)
    requires first.version == 0 && IsStatus(first.status) && Run(Initial(first), events).Some?
    ensures Inv(Run(Initial(first), events).value)
    decreases |events|
  {
    if events != [] {
      RunKeepsInv(first, events[..|events| - 1]);
      StepKeepsInv(Run(Initial(first), events[..|events| - 1]).value, events[|events| - 1]);
    }
  }

  /** What is stored by a write is decided by two things: whether it is served, and whether its version is live. */
  lemma WriteLandsIff(first: Object, events: seq<Event>, id: nat, fate: Fate)
    requires first.version == 0 && IsStatus(first.status) && Run(Initial(first), events).Some?
    requires id in Run(Initial(first), events).value.passes
    ensures var s := Run(Initial(first), events).value; var p, next := s.passes[id], Step(s, Write(id, fate));
      Live(next.history).status ==
        if !fate.NeverServed? && p.obj.version == Live(s.history).version then p.obj.status else Live(s.history).status
  {
    RunKeepsInv(first, events);
    var s := Run(Initial(first), events).value;
    assert Live(s.history) == s.history[|s.history| - 1] && InStep(s.history, s.passes[id]);
    StoreStatusKeepsStored(s.history, s.passes[id].obj.status);
  }

  /** And an update of the object stores its spec, and keeps the status, on the same terms. */
  lemma UpdateLandsIff(s: State, id: nat, spec: Json, fate: Fate)
    requires Inv(s) && id in s.passes
    ensures var p, next := s.passes[id], Step(s, UpdateObject(id, spec, fate));
      && Live(next.history).status == Live(s.history).status
      && Live(next.history).spec ==
        if !fate.NeverServed? && p.obj.version == Live(s.history).version then spec else Live(s.history).spec
  {
    StoreSpecKeepsStored(s.history, spec);
  }

  /**
  The status of version `v` is all of what one pass had computed when it called writeStatus, in event
  `k` of the run: and that pass had read version v - 1, so it replaced the status it had seen.
  */
  predicate WrittenBy(first: Object, events: seq<Event>, v: nat, status: Json, k: nat)
    requires k < |events|
  {
    var before := Run(Initial(first), events[..k]);
    && before.Some? && events[k].Write? && events[k].id in before.value.passes
    && var p := before.value.passes[events[k].id];
      p.obj.status == status && p.obj.version + 1 == v
  }

  /** Version `v` has the first status, the one of the version before it, or the whole status of one pass. */
  ghost predicate Accounted(first: Object, events: seq<Event>, h: History, v: nat)
    requires v < |h|
  {
    || v == 0
    || h[v].status == h[v - 1].status
    || (exists k :: 0 <= k < |events| && WrittenBy(first, events, v, h[v].status, k))
  }

  lemma StepAccounts(s: State, e: Event)
    requires Inv(s) && Enabled(s, e)
    ensures var h := Step(s, e).history;
      && |h| <= |s.history| + 1
      && (|h| > |s.history| && Live(h).status != Live(s.history).status ==>
            e.Write? && e.id in s.passes && Live(h).status == s.passes[e.id].obj.status
            && s.passes[e.id].obj.version + 2 == |h|)
  {
  }

  lemma OlderStaysAccounted(first: Object, events: seq<Event>, n: nat, h: History, next: History, v: nat)
    requires n <= |events| && v < |h| && Extends(h, next) && Accounted(first, events[..n], h, v)
    ensures Accounted(first, events, next, v)
  {
    assert next[v] == h[v] && (v > 0 ==> next[v - 1] == h[v - 1]);
    if v > 0 && h[v].status != h[v - 1].status {
      var k :| 0 <= k < n && WrittenBy(first, events[..n], v, h[v].status, k);
      assert events[..n][..k] == events[..k];
      assert WrittenBy(first, events, v, h[v].status, k);
    }
  }

  lemma NewestIsAccounted(first: Object, events: seq<Event>, before: State, n: nat)
    requires |events| == n + 1 && Run(Initial(first), events[..n]) == Some(before)
    requires Inv(before) && Enabled(before, events[n]) && Extends(before.history, Step(before, events[n]).history)
    ensures var h := Step(before, events[n]).history;
      |h| > |before.history| ==> |h| == |before.history| + 1 && Accounted(first, events, h, |h| - 1)
  {
    var h := Step(before, events[n]).history;
    StepAccounts(before, events[n]);
    if |h| > |before.history| {
      var v := |h| - 1;
      assert h[v - 1] == Live(before.history);
      if h[v].status != h[v - 1].status {
        assert WrittenBy(first, events, v, h[v].status, n);
      }
    }
  }

  /** Over every run: no stored status is a mixture, and no write replaces a status its pass had not read. */
  lemma {:induction false} EveryStatusIsOnePass(first: Object, events: seq<Event>, v: nat)
    requires first.version == 0 && IsStatus(first.status) && Run(Initial(first), events).Some?
    requires v < |Run(Initial(first), events).value.history|
    ensures Accounted(first, events, Run(Initial(first), events).value.history, v)
    decreases |events|
  {
    if events != [] {
      var n := |events| - 1;
      var before := Run(Initial(first), events[..n]).value;
      RunKeepsInv(first, events[..n]);
      StepKeepsInv(before, events[n]);
      if v < |before.history| {
        EveryStatusIsOnePass(first, events[..n], v);
        OlderStaysAccounted(first, events, n, before.history, Step(before, events[n]).history, v);
      } else {
        NewestIsAccounted(first, events, before, n);
      }
    }
  }

  /** A status that some version, or some pass, holds. */
  ghost predicate Holds(s: State, status: Json) {
    || (exists v :: 0 <= v < |s.history| && s.history[v].status == status)
    || (exists id :: id in s.passes && s.passes[id].obj.status == status)
  }

  lemma WriteHoldsNothingNew(s: State, id: nat, fate: Fate)
    requires Inv(s) && id in s.passes
    ensures var o := WriteOutcome(s.history, s.passes[id], fate);
      && |o.history| > 0 && Holds(s, Live(o.history).status) && Holds(s, o.pass.obj.status)
      && (o.history == s.history || o.history[..|o.history| - 1] == s.history)
  {
    StoreStatusKeepsStored(s.history, s.passes[id].obj.status);
    var o := WriteOutcome(s.history, s.passes[id], fate);
    assert Live(o.history).status == Live(s.history).status || Live(o.history).status == s.passes[id].obj.status;
    assert o.pass.obj.status == s.passes[id].obj.status;
    assert Holds(s, Live(s.history).status) by {
      assert s.history[|s.history| - 1].status == Live(s.history).status;
    }
    assert Holds(s, s.passes[id].obj.status);
  }

  lemma UpdateHoldsNothingNew(s: State, id: nat, spec: Json, fate: Fate)
    requires Inv(s) && id in s.passes
    ensures var o := UpdateOutcome(s.history, s.passes[id], spec, fate);
      && |o.history| > 0 && Holds(s, Live(o.history).status) && Holds(s, o.pass.obj.status)
      && (o.history == s.history || o.history[..|o.history| - 1] == s.history)
  {
    StoreSpecKeepsStored(s.history, spec);
    var o := UpdateOutcome(s.history, s.passes[id], spec, fate);
    assert Live(o.history).status == Live(s.history).status;
    assert o.pass.obj.status == s.passes[id].obj.status || o.pass.obj == Live(o.history);
    assert Holds(s, Live(s.history).status) by {
      assert s.history[|s.history| - 1].status == Live(s.history).status;
    }
    assert Holds(s, s.passes[id].obj.status);
  }

  /** The API server and the passes only ever move statuses about; new ones come from a pass's computation. */
  lemma StepHoldsNothingNew(s: State, e: Event, status: Json)
    requires Inv(s) && Enabled(s, e) && Holds(Step(s, e), status)
    ensures Holds(s, status) || (e.Computed? && e.status == status)
  {
    var next := Step(s, e);
    match e
    case Begin(_, seen, _) => assert Holds(s, s.history[seen].status);
    case Computed(_, _) =>
    case Write(id, fate) => WriteHoldsNothingNew(s, id, fate);
      HeldBefore(s, next, status);
    case UpdateObject(id, spec, fate) => UpdateHoldsNothingNew(s, id, spec, fate);
      HeldBefore(s, next, status);
    case Outside(spec) => StoreSpecKeepsStored(s.history, spec);
      assert Holds(s, s.history[|s.history| - 1].status);
      HeldBefore(s, next, status);
    case End(_) =>
  }

  lemma HeldBefore(s: State, next: State, status: Json)
    requires |s.history| > 0 && |next.history| > 0 && Holds(s, Live(next.history).status) && Holds(next, status)
    requires next.history == s.history || next.history[..|next.history| - 1] == s.history
    requires forall id | id in next.passes :: Holds(s, next.passes[id].obj.status)
    ensures Holds(s, status)
  {
    if v :| 0 <= v < |next.history| && next.history[v].status == status {
      assert v < |s.history| ==> s.history[v] == next.history[v];
    }
  }
}

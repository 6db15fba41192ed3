/**
applyFlavoredBackstop: one policy's backstop as a NetworkPolicy or a CiliumNetworkPolicy, switched by
writing the new object before removing the other. Every call may fail, with or without effect, a pass
may stop after any call, and a read may be stale.
*/
module Backstop {
  import opened Wrappers
  import opened Cidr
  import opened NetworkBuilder

  datatype Kind = Vanilla | Cilium

  datatype Content = NetworkPolicy(egress: seq<Rule>) | CiliumNetworkPolicy(policy: CiliumPolicy)

  /** The two objects of a policy, as the API server holds them. */
  datatype Objects = Objects(np: Option<Content>, cnp: Option<Content>)

  function Get(o: Objects, kind: Kind): Option<Content> {
    if kind.Vanilla? then o.np else o.cnp
  }

  function Set(o: Objects, kind: Kind, to: Option<Content>): Objects {
    if kind.Vanilla? then o.(np := to) else o.(cnp := to)
  }

  function Other(kind: Kind): Kind {
    if kind.Vanilla? then Cilium else Vanilla
  }

  datatype Flavor = AutoFlavor | VanillaFlavor | CiliumFlavor

  /** What a pass goes by: the spec, whether the CRD lookup said yes, whether an agent was observed. */
  datatype Input = Input(requested: Flavor, hosts: seq<Host>, dns: DnsConfig, crd: bool, agent: bool)

  /** What a read of an object answers: perhaps what it was, not what it is. */
  datatype Read = Saw(found: Option<Content>) | ReadFailed

  datatype Fate = Answered | AnswerLost | NeverServed

  /** How the calls of a pass come out: it reads each object at most once, writes once, deletes once. */
  datatype Outcomes = Outcomes(npRead: Read, cnpRead: Read, write: Fate, delete: Fate)

  function ReadOf(out: Outcomes, kind: Kind): Read {
    if kind.Vanilla? then out.npRead else out.cnpRead
  }

  predicate ValidInput(i: Input) {
    forall h :: h in i.hosts ==> ValidHost(h)
  }

  function Wanted(i: Input): Kind {
    if (i.requested.CiliumFlavor? || i.requested.AutoFlavor?) && i.crd && i.agent then Cilium else Vanilla
  }

  function Desired(i: Input): Content
    requires ValidInput(i)
  {
    if Wanted(i).Cilium? then CiliumNetworkPolicy(CiliumEgress(i.hosts, i.dns))
    else NetworkPolicy(VanillaEgress(i.hosts, i.dns))
  }

  predicate Covered(o: Objects) {
    o.np.Some? || o.cnp.Some?
  }

  // ---- What a pass does, call by call ----

  /** The objects after each call, and whether the step ended without an error. */
  datatype Traced = Traced(states: seq<Objects>, ok: bool)

  /** A call that changes one object, or fails before it does. */
  function Changed(o: Objects, kind: Kind, to: Option<Content>, fate: Fate): Objects {
    if fate.NeverServed? then o else Set(o, kind, to)
  }

  function Applied(o: Objects, kind: Kind, desired: Content, read: Read, fate: Fate): (t: Traced)
    ensures |t.states| > 0
  {
    if read.ReadFailed? then Traced([o], false)
    else if read.found == Some(desired) then Traced([o], true)
    else Traced([o, Changed(o, kind, Some(desired), fate)], fate.Answered?)
  }

  function Removed(o: Objects, kind: Kind, read: Read, fate: Fate): (t: Traced)
    ensures |t.states| > 0
  {
    if read.ReadFailed? then Traced([o], false)
    else if read.found.None? then Traced([o], true)
    else Traced([o, Changed(o, kind, None, fate)], fate.Answered?)
  }

  function Last(t: Traced): Objects
    requires |t.states| > 0
  {
    t.states[|t.states| - 1]
  }

  /** The wanted object first, the other's removal second; without a CRD there is none to remove. */
  function Switched(o: Objects, kind: Kind, desired: Content, crd: bool, out: Outcomes): (t: Traced)
    ensures |t.states| > 0
  {
    var write := Applied(o, kind, desired, ReadOf(out, kind), out.write);
    if !write.ok || (kind.Vanilla? && !crd) then write
    else
      var delete := Removed(Last(write), Other(kind), ReadOf(out, Other(kind)), out.delete);
      Traced(write.states + delete.states, delete.ok)
  }

  function Pass(o: Objects, i: Input, out: Outcomes): (t: Traced)
    requires ValidInput(i)
    ensures |t.states| > 0
  {
    Switched(o, Wanted(i), Desired(i), i.crd, out)
  }

  /**
  From any state and however its calls come out: while no agent is seen, or no CRD, or Vanilla is asked for,
  a pass writes no CiliumNetworkPolicy and leaves the NetworkPolicy that is there, or writes the right one.
  */
  lemma WithoutAnAgentVanillaStays(o: Objects, i: Input, out: Outcomes, k: nat)
    requires ValidInput(i) && (!i.agent || !i.crd || i.requested.VanillaFlavor?)
    requires k < |Pass(o, i, out).states|
    ensures var s := Pass(o, i, out).states[k];
      && (s.cnp.None? || s.cnp == o.cnp)
      && (s.np == o.np || s.np == Some(NetworkPolicy(VanillaEgress(i.hosts, i.dns))))
  {
  }

  /** The API server's two objects; `trace` keeps what they were after each call. */
  class Cluster {
    var np: Option<Content>
    var cnp: Option<Content>
    ghost var trace: seq<Objects>

    ghost function State(): Objects
      reads this
    {
      Objects(np, cnp)
    }

    constructor (o: Objects)
      ensures State() == o && trace == []
    {
      np, cnp, trace := o.np, o.cnp, [];
    }

    method Read(answer: Read) returns (r: Read)
      modifies this`trace
      ensures r == answer && trace == old(trace) + [State()]
    {
      trace := trace + [State()];
      r := answer;
    }

    method Write(kind: Kind, to: Option<Content>, fate: Fate) returns (ok: bool)
      modifies this
      ensures State() == Changed(old(State()), kind, to, fate) && ok == fate.Answered?
      ensures trace == old(trace) + [State()]
    {
      if !fate.NeverServed? {
        if kind.Vanilla? {
          np := to;
        } else {
          cnp := to;
        }
      }
      trace := trace + [State()];
      ok := fate.Answered?;
    }

    /** applyBackstop and applyCiliumBackstop: an object that is there and right is left alone. */
    method ApplyBackstop(kind: Kind, desired: Content, out: Outcomes) returns (ok: bool)
      modifies this
      ensures var t := Applied(old(State()), kind, desired, ReadOf(out, kind), out.write);
        ok == t.ok && trace == old(trace) + t.states && State() == Last(t)
    {
      var existing := Read(ReadOf(out, kind));
      if existing.ReadFailed? {
        return false;
      }
      if existing.found != Some(desired) {
        ok := Write(kind, Some(desired), out.write);
        return ok;
      }
      return true;
    }

    /** deleteBackstopIfExists and deleteCiliumBackstopIfExists; a delete answered NotFound is fine. */
    method DeleteBackstopIfExists(kind: Kind, out: Outcomes) returns (ok: bool)
      modifies this
      ensures var t := Removed(old(State()), kind, ReadOf(out, kind), out.delete);
        ok == t.ok && trace == old(trace) + t.states && State() == Last(t)
    {
      var existing := Read(ReadOf(out, kind));
      if existing.ReadFailed? {
        return false;
      }
      if existing.found.Some? {
        ok := Write(kind, None, out.delete);
        return ok;
      }
      return true;
    }

    method Switch(kind: Kind, desired: Content, crd: bool, out: Outcomes) returns (ok: bool)
      modifies this
      ensures var t := Switched(old(State()), kind, desired, crd, out);
        ok == t.ok && trace == old(trace) + t.states && State() == Last(t)
    {
      ok := ApplyBackstop(kind, desired, out);
      if ok && (kind.Cilium? || crd) {
        ok := DeleteBackstopIfExists(Other(kind), out);
      }
    }

    /** One pass of the enforcing branch: exactly the calls, in the order, that `Pass` lists. */
    method ApplyFlavoredBackstop(i: Input, out: Outcomes) returns (ok: bool)
      requires ValidInput(i)
      modifies this
      ensures var t := Pass(old(State()), i, out);
        ok == t.ok && trace == old(trace) + t.states && State() == Last(t)
      ensures !i.agent || !i.crd || i.requested.VanillaFlavor? ==>
        && (cnp.None? || cnp == old(cnp))
        && (np == old(np) || np == Some(NetworkPolicy(VanillaEgress(i.hosts, i.dns))))
    {
      hide Switched, VanillaEgress, CiliumEgress;
      var ciliumRunning := i.crd && i.agent;
      var useCilium := (i.requested == CiliumFlavor || i.requested == AutoFlavor) && ciliumRunning;
      if useCilium {
        var cnp := BuildEgressPolicyCiliumNetworkPolicy(i.hosts, i.dns);
        ok := Switch(Cilium, CiliumNetworkPolicy(cnp), i.crd, out);
      } else {
        var desired, unenforceable := BuildEgressPolicyBackstop(i.hosts, i.dns);
        ok := Switch(Vanilla, NetworkPolicy(desired), i.crd, out);
        WithoutAnAgentVanillaStays(old(State()), i, out, |Pass(old(State()), i, out).states| - 1);
      }
    }
  }

  // ---- Make before break ----

  /**
  The pass takes a stale read for its own object: the object is gone, the read shows it as wanted, and so
  the pass goes on to remove the only one there is.
  */
  predicate TrustsAGhost(o: Objects, i: Input, out: Outcomes)
    requires ValidInput(i)
  {
    var kind := Wanted(i);
    && Get(o, kind).None? && ReadOf(out, kind) == Saw(Some(Desired(i)))
    && (kind.Vanilla? ==> i.crd)
    && ReadOf(out, Other(kind)).Saw? && ReadOf(out, Other(kind)).found.Some?
    && !out.delete.NeverServed?
  }

  predicate AlwaysCovered(states: seq<Objects>) {
    forall k | 0 <= k < |states| :: Covered(states[k])
  }

  /** A pass over a covered target leaves it covered at every call, and that exactly unless it trusts a ghost. */
  lemma PassKeepsCoverIff(o: Objects, i: Input, out: Outcomes)
    requires ValidInput(i) && Covered(o)
    ensures AlwaysCovered(Pass(o, i, out).states) <==> !TrustsAGhost(o, i, out)
  {
    var t := Pass(o, i, out);
    if TrustsAGhost(o, i, out) {
      assert !Covered(t.states[|t.states| - 1]);
    }
  }

  /** A pass as it ran: it may have stopped after `calls` of its calls. */
  datatype Ran = Ran(input: Input, out: Outcomes, calls: nat)

  function States(o: Objects, r: Ran): seq<Objects>
    requires ValidInput(r.input)
  {
    var states := Pass(o, r.input, r.out).states;
    if r.calls < |states| then states[..r.calls] else states
  }

  function After(o: Objects, states: seq<Objects>): Objects {
    if states == [] then o else states[|states| - 1]
  }

  /** Every state of a run of passes, the first included. */
  function RunStates(o: Objects, run: seq<Ran>): seq<Objects>
    requires forall r :: r in run ==> ValidInput(r.input)
    decreases |run|
  {
    if run == [] then [o]
    else [o] + States(o, run[0]) + RunStates(After(o, States(o, run[0])), run[1..])
  }

  /** No pass of the run takes a read of an object that is gone for the object. */
  predicate SeesNoGhost(o: Objects, run: seq<Ran>)
    requires forall r :: r in run ==> ValidInput(r.input)
    decreases |run|
  {
    run == [] ||
    (!TrustsAGhost(o, run[0].input, run[0].out) && SeesNoGhost(After(o, States(o, run[0])), run[1..]))
  }

  /** Once there is a backstop there is one after every call of every later pass, whatever fails or stops. */
  lemma {:induction false} MakeBeforeBreak(o: Objects, run: seq<Ran>)
    requires forall r :: r in run ==> ValidInput(r.input)
    requires Covered(o) && SeesNoGhost(o, run)
    ensures AlwaysCovered(RunStates(o, run))
    decreases |run|
  {
    if run != [] {
      PassKeepsCoverIff(o, run[0].input, run[0].out);
      var states := States(o, run[0]);
      assert AlwaysCovered(states);
      assert Covered(After(o, states));
      MakeBeforeBreak(After(o, states), run[1..]);
    }
  }

  /** A stale read does break it: two passes after a switch to Cilium, a switch back leaves nothing. */
  lemma AStaleReadBreaksIt(i: Input, np: Content)
    requires ValidInput(i) && i.requested.VanillaFlavor? && i.crd && np == Desired(i)
    ensures
      var cilium := i.(requested := CiliumFlavor, agent := true);
      var switch := Ran(cilium, Outcomes(Saw(Some(np)), Saw(None), Answered, Answered), 9);
      var back := Ran(i, Outcomes(Saw(Some(np)), Saw(Some(Desired(cilium))), Answered, Answered), 9);
      var states := RunStates(Objects(Some(np), None), [switch, back]);
      !Covered(states[|states| - 1])
  {
    var cilium := i.(requested := CiliumFlavor, agent := true);
    var switch := Ran(cilium, Outcomes(Saw(Some(np)), Saw(None), Answered, Answered), 9);
    var back := Ran(i, Outcomes(Saw(Some(np)), Saw(Some(Desired(cilium))), Answered, Answered), 9);
    var one := Objects(None, Some(Desired(cilium)));
    assert Last(Pass(Objects(Some(np), None), cilium, switch.out)) == one;
    assert Last(Pass(one, i, back.out)) == Objects(None, None);
    assert [switch, back][1..] == [back] && [back][1..] == [];
    assert RunStates(one, [back]) == [one] + States(one, back) + [Objects(None, None)];
  }

  // ---- One flavor at rest ----

  /** A read that answers what is there. */
  predicate Fresh(o: Objects, kind: Kind, read: Read) {
    read.Saw? ==> read.found == Get(o, kind)
  }

  /** A lookup that says no CRD is served is right: no CiliumNetworkPolicy exists. */
  predicate TruthfulLookup(o: Objects, i: Input) {
    !i.crd ==> o.cnp.None?
  }

  /** From any state, a pass with fresh reads and no error ends with the wanted object, as built, and not the other. */
  lemma ErrorFreePassSettles(o: Objects, i: Input, out: Outcomes)
    requires ValidInput(i) && TruthfulLookup(o, i)
    requires Fresh(o, Vanilla, out.npRead) && Fresh(o, Cilium, out.cnpRead)
    requires Pass(o, i, out).ok
    ensures Last(Pass(o, i, out)) == Set(Set(Objects(None, None), Wanted(i), Some(Desired(i))), Other(Wanted(i)), None)
  {
  }

  /**
  Which object that is: the CiliumNetworkPolicy when the policy does not ask for Vanilla, the CRD is served
  and an agent runs; otherwise the NetworkPolicy, whatever was asked for. And never both.
  */
  lemma SettledFlavor(o: Objects, i: Input, out: Outcomes)
    requires ValidInput(i) && TruthfulLookup(o, i)
    requires Fresh(o, Vanilla, out.npRead) && Fresh(o, Cilium, out.cnpRead)
    requires Pass(o, i, out).ok
    ensures var end := Last(Pass(o, i, out));
      && (end.cnp.Some? <==> !i.requested.VanillaFlavor? && i.crd && i.agent)
      && (end.np.Some? <==> end.cnp.None?)
      && (end.np.Some? ==> end.np.value == NetworkPolicy(VanillaEgress(i.hosts, i.dns)))
      && (end.cnp.Some? ==> end.cnp.value == CiliumNetworkPolicy(CiliumEgress(i.hosts, i.dns)))
  {
    ErrorFreePassSettles(o, i, out);
  }

  /** And with one, a pass that does not ask for Vanilla writes no NetworkPolicy, and keeps the other kind. */
  lemma WithAnAgentCiliumStays(o: Objects, i: Input, out: Outcomes, k: nat)
    requires ValidInput(i) && i.agent && i.crd && !i.requested.VanillaFlavor?
    requires k < |Pass(o, i, out).states|
    ensures var s := Pass(o, i, out).states[k];
      && (s.np.None? || s.np == o.np)
      && (s.cnp == o.cnp || s.cnp == Some(CiliumNetworkPolicy(CiliumEgress(i.hosts, i.dns))))
  {
  }

  /**
  A pass reports no error exactly when it read the object it wants and had it or was answered its write, and,
  unless it wants the NetworkPolicy and there is no CRD, read the other and had none or was answered the delete.
  */
  lemma PassIsOkIff(o: Objects, i: Input, out: Outcomes)
    requires ValidInput(i)
    ensures Pass(o, i, out).ok <==>
      if !i.requested.VanillaFlavor? && i.crd && i.agent then
        && out.cnpRead.Saw?
        && (out.cnpRead.found == Some(CiliumNetworkPolicy(CiliumEgress(i.hosts, i.dns))) || out.write.Answered?)
        && out.npRead.Saw? && (out.npRead.found.None? || out.delete.Answered?)
      else
        && out.npRead.Saw? && (out.npRead.found == Some(NetworkPolicy(VanillaEgress(i.hosts, i.dns))) || out.write.Answered?)
        && (!i.crd || (out.cnpRead.Saw? && (out.cnpRead.found.None? || out.delete.Answered?)))
  {
  }

  /** A pass that finds the wanted object as built and not the other makes its reads and no other call. */
  lemma SettledPassOnlyReads(o: Objects, i: Input, out: Outcomes)
    requires ValidInput(i)
    requires if !i.requested.VanillaFlavor? && i.crd && i.agent
             then o == Objects(None, Some(CiliumNetworkPolicy(CiliumEgress(i.hosts, i.dns))))
             else o == Objects(Some(NetworkPolicy(VanillaEgress(i.hosts, i.dns))), None)
    requires out.npRead == Saw(o.np) && out.cnpRead == Saw(o.cnp)
    ensures Pass(o, i, out) == Traced(if i.crd then [o, o] else [o], true)
  {
  }

  predicate OpenedByAddress(i: Input, d: Destination)
    requires ValidInput(i)
  {
    NamedByAddress(i.hosts, d) || SpilledByMapped(i.hosts, d)
  }

  /** And what it admits outside port 53: the flavors' contents, put together with the switch. */
  lemma SettledBackstopAdmits(o: Objects, i: Input, out: Outcomes, d: Destination, port: int)
    requires ValidInput(i) && TruthfulLookup(o, i)
    requires Fresh(o, Vanilla, out.npRead) && Fresh(o, Cilium, out.cnpRead)
    requires Pass(o, i, out).ok && port != DNS_PORT
    ensures var end := Last(Pass(o, i, out));
      if end.np.Some? then
        && end.cnp.None? && end.np.value.NetworkPolicy?
        && (Admits(end.np.value.egress, d, port) <==> OpenedByAddress(i, d))
      else
        && end.cnp.Some? && end.cnp.value.CiliumNetworkPolicy?
        && (CiliumAdmits(end.cnp.value.policy, d, port) <==> OpenedByAddress(i, d) || NamedByName(i.hosts, d))
  {
    ErrorFreePassSettles(o, i, out);
    VanillaAdmitsWhatIsNamed(i.hosts, i.dns, d, port);
    CiliumAdmitsWhatIsNamed(i.hosts, i.dns, d, port);
  }

  /** Some object of the policy lets the packet out. */
  predicate LetsOut(o: Objects, d: Destination, port: int) {
    || (o.np.Some? && o.np.value.NetworkPolicy? && Admits(o.np.value.egress, d, port))
    || (o.cnp.Some? && o.cnp.value.CiliumNetworkPolicy? && CiliumAdmits(o.cnp.value.policy, d, port))
  }

  /** The settled backstop lets out only what the policy names, if and only if no mapped literal opens more. */
  lemma SettledBackstopFailsClosedIff(o: Objects, i: Input, out: Outcomes)
    requires ValidInput(i) && TruthfulLookup(o, i)
    requires Fresh(o, Vanilla, out.npRead) && Fresh(o, Cilium, out.cnpRead) && Pass(o, i, out).ok
    ensures (forall d, port | port != DNS_PORT ::
               LetsOut(Last(Pass(o, i, out)), d, port) ==> NamedByAddress(i.hosts, d) || NamedByName(i.hosts, d))
            <==> OpensOnlyWhatItNames(i.hosts)
  {
    var end := Last(Pass(o, i, out));
    ErrorFreePassSettles(o, i, out);
    if OpensOnlyWhatItNames(i.hosts) {
      forall d, port | port != DNS_PORT && LetsOut(end, d, port)
        ensures NamedByAddress(i.hosts, d) || NamedByName(i.hosts, d)
      {
        SettledBackstopAdmits(o, i, out, d, port);
      }
    } else {
      var a :| InZeros(a) && !exists h :: h in i.hosts && Denotes(h, a);
      var d := Destination(a, {}, None, true);
      SettledBackstopAdmits(o, i, out, d, 443);
      assert SpilledByMapped(i.hosts, d) && !NamedByAddress(i.hosts, d) && LetsOut(end, d, 443);
    }
  }
}

/**
The reconciler's own code, call by call: registration, register, moveDiscovered, deliverConnection,
start and deregisterOwned. Each API call is a request with the code's own arguments, served by what the
cluster holds; the code sees the response and nothing else. Between any two calls the rest of the cluster
moves on, and every call may fail. The requests are shown to be those of the registration machine, call by
call and payload by payload, so what holds of all its runs holds of this code at every one of its calls.
*/
module RegistrationReconciler {
  import opened Wrappers
  import opened RegistrationProtocol
  import opened RegistrationApi
  import opened RegistrationSafety
  import opened RegistrationCauses

  /** What the cluster does before one API call, and how the call ends. */
  datatype Turn = Turn(others: seq<Label>, reply: Reply)

  /** One reconcile of an object runs at a time: the others never move this CR's own pass. */
  predicate OfOthers(l: Label, c: Cr) {
    match l
    case Begin(d, _) => d != c
    case BeginDeletion(d) => d != c
    case Answered(d, _) => d != c
    case Crash(d) => d != c
    case OutsideAdds(_, _, _) => true
    case OutsideRemoves(_) => true
  }

  /** A run goes on without the CR's own pass beginning anew or dying: it only gets answers. */
  ghost predicate Continues(c: Cr, before: seq<Label>, after: seq<Label>) {
    && before <= after
    && forall i :: |before| <= i < |after| ==> OfOthers(after[i], c) || after[i].Answered?
  }

  /** The cluster without the machine's account of this CR's own pass, which the code does not have. */
  function Without(w: World, c: Cr): World {
    World(w.slots, w.passes - {c}, w.abandoned - {c}, w.history)
  }

  lemma OthersStepWithout(w: World, l: Label, c: Cr)
    requires OfOthers(l, c)
    ensures Without(Step(w, l), c) == Step(Without(w, c), l) && PcOf(Step(w, l), c) == PcOf(w, c)
  {
    var v := Without(w, c);
    match l
    case Answered(d, r) =>
      var e := Answer(d, SlotOf(w, d.name), PcOf(w, d), r);
      assert PcOf(v, d) == PcOf(w, d) && SlotOf(v, d.name) == SlotOf(w, d.name);
      assert w.passes[d := e.pc] - {c} == (w.passes - {c})[d := e.pc];
      assert (w.abandoned + {d}) - {c} == (w.abandoned - {c}) + {d};
    case Begin(d, input) =>
      assert PcOf(v, d) == PcOf(w, d);
      assert w.passes[d := ReadClaim(input)] - {c} == (w.passes - {c})[d := ReadClaim(input)];
    case BeginDeletion(d) =>
      assert PcOf(v, d) == PcOf(w, d);
      assert w.passes[d := DeletionReadClaim] - {c} == (w.passes - {c})[d := DeletionReadClaim];
    case Crash(d) =>
      assert w.passes[d := Idle] - {c} == (w.passes - {c})[d := Idle];
    case OutsideAdds(_, _, _) =>
    case OutsideRemoves(_) =>
  }

  /** What a served request leaves of the cluster is what the machine's answer leaves of it. */
  lemma OwnStepWithout(w: World, c: Cr, q: Request, r: Reply)
    requires !PcOf(w, c).Idle? && q == RequestOf(c, PcOf(w, c))
    ensures var v := Without(w, c); var slot := SlotOf(v, c.name); var next := Step(w, Answered(c, r));
      && Without(next, c)
         == World(v.slots[c.name := Serve(c, slot, q, r)], v.passes, v.abandoned, v.history + Recorded(c, slot, q, r))
      && PcOf(next, c) == Next(c, PcOf(w, c), Respond(slot, q, r))
  {
    var slot, pc := SlotOf(w, c.name), PcOf(w, c);
    AnswerIsServed(c, slot, pc, r);
    AnswerGoesByResponse(c, slot, pc, r);
    var e := Answer(c, slot, pc, r);
    assert w.passes[c := e.pc] - {c} == w.passes - {c};
    assert (w.abandoned + {c}) - {c} == w.abandoned - {c};
  }

  /** The reconciler's copy of a claim, annotated in place before it is written back. */
  class Claim {
    var lease: Lease

    constructor (lease: Lease)
      ensures this.lease == lease
    {
      this.lease := lease;
    }
  }

  class Reconciler {
    const c: Cr
    var cluster: World
    var script: seq<Turn>
    ghost var labels: seq<Label>
    ghost var begun: Pc
    ghost var sent: seq<Exchange>

    /** The whole cluster, this CR's own pass included. */
    ghost function Whole(): World
      reads this
    {
      Exec(INITIAL, labels)
    }

    /** Where the machine is in this CR's own pass. */
    ghost function Now(): Pc
      reads this
    {
      PcOf(Whole(), c)
    }

    /** The code has sent what the machine sends, and the cluster it talks to is the machine's. */
    ghost predicate Valid()
      reads this
    {
      && cluster == Without(Whole(), c)
      && Follows(c, begun, sent)
      && PcAfter(c, begun, sent) == Now()
    }

    ghost predicate At(pc: Pc)
      reads this
    {
      Valid() && Now() == pc
    }

    constructor (c: Cr, script: seq<Turn>)
      ensures this.c == c && At(Idle) && labels == [] && sent == []
    {
      this.c, this.script, this.cluster := c, script, INITIAL;
      this.labels, this.begun, this.sent := [], Idle, [];
    }

    /** The rest of the cluster moves on until this CR's next call; `reply` is how that call will end. */
    method Wait() returns (reply: Reply)
      requires Valid()
      modifies this`cluster, this`script, this`labels
      ensures Valid() && Continues(c, old(labels), labels) && Now() == old(Now())
    {
      reply := Lost(false);
      if script != [] {
        var turn := script[0];
        script := script[1..];
        reply := turn.reply;
        for i := 0 to |turn.others|
          invariant Valid() && Continues(c, old(labels), labels) && Now() == old(Now())
        {
          var l := turn.others[i];
          if OfOthers(l, c) {
            OthersStepWithout(Whole(), l, c);
            ExecAppend(INITIAL, labels, [l]);
            ExecOne(Whole(), l);
            cluster := Step(cluster, l);
            labels := labels + [l];
          }
        }
      }
    }

    /**
    One API call: the request is served on the name it names, and the caller is told the response. It must
    be the request the machine makes at this point, whatever led the code here.
    */
    method Send(request: Request) returns (response: Response)
      requires Valid() && !Now().Idle? && request == RequestOf(c, Now())
      modifies this`cluster, this`script, this`labels, this`sent
      ensures sent == old(sent) + [Exchange(request, response)] && Continues(c, old(labels), labels)
      ensures At(Next(c, old(Now()), response)) && Possible(request, response)
    {
      hide Exec, Step, Follows, PcAfter, Next, RequestOf, Serve, Respond, Possible, Without, Recorded;
      var reply := Wait();
      var name := request.name;
      var slot := SlotOf(cluster, name);
      response := Respond(slot, request, reply);
      ResponseIsPossible(slot, request, reply);
      OwnStepWithout(Whole(), c, request, reply);
      ExecAppend(INITIAL, labels, [Answered(c, reply)]);
      ExecOne(Whole(), Answered(c, reply));
      FollowsOneMore(c, begun, sent, Exchange(request, response));
      cluster := cluster.(slots := cluster.slots[name := Serve(c, slot, request, reply)],
                          history := cluster.history + Recorded(c, slot, request, reply));
      labels := labels + [Answered(c, reply)];
      sent := sent + [Exchange(request, response)];
    }

    // ---- RegistrationClaims ----

    /** get: the claim as this pass's own copy, or nothing when the name is free. */
    method GetClaim() returns (ok: bool, claim: Option<Claim>)
      requires Valid() && !Now().Idle? && RequestOf(c, Now()) == GetLease(c.name)
      modifies this`cluster, this`script, this`labels, this`sent
      ensures Continues(c, old(labels), labels) && (claim.Some? ==> fresh(claim.value))
      ensures |sent| == |old(sent)| + 1 && old(sent) <= sent && sent[|old(sent)|].request == GetLease(c.name)
      ensures var a := sent[|old(sent)|].response;
        && At(Next(c, old(Now()), a)) && ok == a.LeaseIs?
        && (if ok && a.lease.Some? then claim.Some? && claim.value.lease == a.lease.value else claim.None?)
    {
      hide Reconciler.Valid, Reconciler.Now;
      var response := Send(GetLease(c.name));
      ok, claim := response.LeaseIs?, None;
      if ok && response.lease.Some? {
        var copy := new Claim(response.lease.value);
        claim := Some(copy);
      }
    }

    /**
    take: creates a Lease of this CR at `endpoint`, or reads back who holds the name. A claim is returned
    only to its holder, and the pass goes on with it; `move` says which of the two callers this is.
    */
    method TakeClaim(endpoint: string, ghost input: Input, ghost move: bool) returns (claim: Option<Claim>)
      requires At(if move then MoveTake(input) else Take(input))
      requires endpoint == if move then DISCOVERED else input.endpoint
      modifies this`cluster, this`script, this`labels, this`sent
      ensures Continues(c, old(labels), labels) && old(sent) <= sent && (claim.Some? ==> fresh(claim.value))
      ensures |sent| > |old(sent)| && sent[|old(sent)|].request == CreateLease(c.name, c, endpoint)
      ensures |sent| <= |old(sent)| + 2 && (|sent| == |old(sent)| + 2 ==>
        sent[|old(sent)|].response.AlreadyExists? && sent[|old(sent)| + 1].request == GetLease(c.name))
      ensures claim.None? ==> At(Idle)
      ensures claim.Some? ==> claim.value.lease.holder == c
      ensures claim.Some? ==> At(if move then Deliver(input, claim.value.lease, true) else AfterTake(input, claim.value.lease))
    {
      hide Reconciler.Valid, Reconciler.Now;
      claim := None;
      var response := Send(CreateLease(c.name, c, endpoint));
      if response.AlreadyExists? {
        var ok, existing := GetClaim();
        if ok && existing.Some? && existing.value.lease.holder == c {
          claim := existing;
        }
      } else if response.LeaseIs? && response.lease.Some? {
        var mine := new Claim(response.lease.value);
        claim := Some(mine);
      }
    }

    /** annotate: the copy is changed in place, then the copy is written back. */
    method Annotate(claim: Claim, kv: Annotations) returns (ok: bool)
      requires Valid() && !Now().Idle?
      requires RequestOf(c, Now()) == UpdateLease(c.name, Annotated(claim.lease, kv), kv)
      modifies this`cluster, this`script, this`labels, this`sent, claim
      ensures Continues(c, old(labels), labels)
      ensures |sent| == |old(sent)| + 1 && old(sent) <= sent
      ensures sent[|old(sent)|].request == UpdateLease(c.name, Annotated(old(claim.lease), kv), kv)
      ensures var a := sent[|old(sent)|].response;
        && At(Next(c, old(Now()), a))
        && ok == (a.LeaseIs? && a.lease.Some?) && (ok ==> claim.lease == a.lease.value)
      ensures ok ==> claim.lease == Annotated(old(claim.lease), kv).(version := claim.lease.version)
    {
      hide Reconciler.Valid, Reconciler.Now;
      if kv.endpoint.Some? {
        claim.lease := claim.lease.(endpoint := kv.endpoint.value);
      }
      if kv.tls.Some? {
        claim.lease := claim.lease.(tls := kv.tls.value);
      }
      if kv.started.Some? {
        claim.lease := claim.lease.(started := kv.started.value);
      }
      var response := Send(UpdateLease(c.name, claim.lease, kv));
      ok := response.LeaseIs? && response.lease.Some?;
      if ok {
        claim.lease := response.lease.value;
      }
    }

    // ---- MCPServerReconciler ----

    /** start: core is told to start the entry, and the claim says so once it has. */
    method Start(ghost input: Input, claim: Claim) returns (done: bool)
      requires At(StartServer(input, claim.lease))
      modifies this`cluster, this`script, this`labels, this`sent, claim
      ensures At(Idle) && Continues(c, old(labels), labels) && old(sent) <= sent
      ensures |sent| > |old(sent)| && sent[|old(sent)|].request == PostStart(c.name)
      ensures |sent| <= |old(sent)| + 2 && (|sent| == |old(sent)| + 2 ==>
        sent[|old(sent)|].response.Ok? &&
        sent[|old(sent)| + 1].request == Update(c, old(claim.lease), Annotations(None, None, Some(true))))
      ensures !done ==> |sent| == |old(sent)| + 2 && claim.lease.started
    {
      hide Reconciler.Valid, Reconciler.Now;
      var response := Send(PostStart(c.name));
      if !response.Ok? {
        return true;
      }
      var ok := Annotate(claim, Annotations(None, None, Some(true)));
      return !ok;
    }

    /** deliverConnection: the PUT, then the record of what it delivered; not done means the caller goes on. */
    method DeliverConnection(input: Input, claim: Claim, field: TlsField, ghost moving: bool) returns (done: bool)
      requires At(Deliver(input, claim.lease, moving)) && field == FieldOf(input.tls, moving)
      modifies this`cluster, this`script, this`labels, this`sent, claim
      ensures Continues(c, old(labels), labels) && old(sent) <= sent
      ensures |sent| > |old(sent)| && sent[|old(sent)|].request == PutMcpServer(c.name, input.endpoint, field)
      ensures |sent| <= |old(sent)| + 2 && (|sent| == |old(sent)| + 2 ==>
        (sent[|old(sent)|].response.Ok? || sent[|old(sent)|].response.NotFound?) &&
        sent[|old(sent)| + 1].request == Update(c, old(claim.lease), Annotations(Some(input.endpoint), Some(input.tls), None)))
      ensures At(if done || moving then Idle else AskHealth(input, Some(claim.lease)))
      ensures !done ==> |sent| == |old(sent)| + 2 && claim.lease.endpoint == input.endpoint && claim.lease.tls == input.tls
    {
      hide Reconciler.Valid, Reconciler.Now;
      var response := Send(PutMcpServer(c.name, input.endpoint, field));
      if !response.Ok? && !response.NotFound? {
        return true;
      }
      var ok := Annotate(claim, Annotations(Some(input.endpoint), Some(input.tls), None));
      return !ok;
    }

    /** moveDiscovered: the name is claimed as "discovered" before core's entry is taken over. */
    method MoveDiscovered(input: Input) returns (done: bool)
      requires At(MoveTake(input))
      modifies this`cluster, this`script, this`labels, this`sent
      ensures At(Idle) && Continues(c, old(labels), labels) && old(sent) <= sent
      ensures |sent| > |old(sent)| && sent[|old(sent)|].request == CreateLease(c.name, c, DISCOVERED)
    {
      hide Reconciler.Valid, Reconciler.Now;
      var claim := TakeClaim(DISCOVERED, input, true);
      if claim.None? {
        return true;
      }
      done := DeliverConnection(input, claim.value, if input.tls.Some? then Given(input.tls.value) else LeftOut, true);
    }

    /** register: the name is claimed before core is asked. */
    method Register(input: Input, held: Option<Claim>) returns (done: bool)
      requires if held.Some? then At(AfterTake(input, held.value.lease)) else At(Take(input))
      modifies this`cluster, this`script, this`labels, this`sent, if held.Some? then {held.value} else {}
      ensures At(Idle) && Continues(c, old(labels), labels) && old(sent) <= sent
      ensures held.None? ==> |sent| > |old(sent)| && sent[|old(sent)|].request == CreateLease(c.name, c, input.endpoint)
    {
      hide Reconciler.Valid, Reconciler.Now;
      if held.Some? {
        done := PostAndStart(input, held.value);
        return;
      }
      var claim := TakeClaim(input.endpoint, input, false);
      if claim.None? {
        return true;
      }
      done := PostAndStart(input, claim.value);
    }

    /** The rest of register, with the claim in hand, which is given back if core holds the name already. */
    method PostAndStart(input: Input, claim: Claim) returns (done: bool)
      requires At(AfterTake(input, claim.lease))
      modifies this`cluster, this`script, this`labels, this`sent, claim
      ensures At(Idle) && Continues(c, old(labels), labels) && old(sent) <= sent
      ensures if input.tls.None? && input.endpoint == "" then sent == old(sent)
              else |sent| > |old(sent)| && sent[|old(sent)|].request == PostMcpServer(c.name, input.endpoint, input.tls)
      ensures |sent| > |old(sent)| && sent[|old(sent)|].response.AlreadyExists? ==>
        |sent| == |old(sent)| + 2 && sent[|old(sent)| + 1].request == DeleteLease(c.name)
    {
      hide Reconciler.Valid, Reconciler.Now;
      if input.tls.None? && input.endpoint == "" {
        return false;
      }
      var response := Send(PostMcpServer(c.name, input.endpoint, input.tls));
      if response.Ok? {
        done := RecordAndStart(input, claim);
        return;
      }
      if response.AlreadyExists? {
        response := Send(DeleteLease(c.name));
      }
      return true;
    }

    method RecordAndStart(input: Input, claim: Claim) returns (done: bool)
      requires At(RecordTls(input, claim.lease))
      modifies this`cluster, this`script, this`labels, this`sent, claim
      ensures At(Idle) && Continues(c, old(labels), labels) && old(sent) <= sent
      ensures !done && input.endpoint != "" ==> claim.lease.started
    {
      hide Reconciler.Valid, Reconciler.Now;
      var ok := Annotate(claim, Annotations(None, Some(input.tls), None));
      if !ok {
        return true;
      }
      if input.endpoint == "" {
        return false;
      }
      done := Start(input, claim);
    }

    /** A key-pinned CR that must not be registered with this core is removed, and its name let go. */
    method PeerIdentityRefusal(ghost input: Input, claim: Option<Claim>) returns (refused: bool)
      requires At(AskCapabilities(input, if claim.Some? then Some(claim.value.lease) else None))
      modifies this`cluster, this`script, this`labels, this`sent
      ensures Continues(c, old(labels), labels) && old(sent) <= sent
      ensures At(if refused then Idle
                 else AfterRefusalCheck(input, if claim.Some? then Some(claim.value.lease) else None))
      ensures |sent| > |old(sent)| && sent[|old(sent)|].request == GetCapabilities(c.name)
      ensures refused <==> !sent[|old(sent)|].response.Ok?
      ensures |sent| > |old(sent)| + 1 <==> sent[|old(sent)|].response.Refusal? && claim.Some?
      ensures |sent| > |old(sent)| + 1 ==> sent[|old(sent)| + 1].request == DeleteMcpServer(c.name)
      ensures |sent| > |old(sent)| + 2 <==> |sent| > |old(sent)| + 1 && sent[|old(sent)| + 1].response.Ok?
      ensures |sent| > |old(sent)| + 2 ==> |sent| == |old(sent)| + 3 && sent[|sent| - 1].request == DeleteLease(c.name)
    {
      hide Reconciler.Valid, Reconciler.Now;
      var response := Send(GetCapabilities(c.name));
      if response.Ok? {
        return false;
      }
      if response.Refusal? && claim.Some? {
        response := Send(DeleteMcpServer(c.name));
        if response.Ok? {
          response := Send(DeleteLease(c.name));
        }
      }
      return true;
    }

    /** A plain server's endpoint is removed from core first, and the claim moved second. */
    method ReplacePlain(input: Input, claim: Claim) returns (done: bool)
      requires NeedsReplacing(input, claim.lease) && At(AfterRefusalCheck(input, Some(claim.lease)))
      modifies this`cluster, this`script, this`labels, this`sent, claim
      ensures Continues(c, old(labels), labels) && old(sent) <= sent
      ensures At(if done then Idle else AskHealth(input, Some(claim.lease)))
      ensures |sent| > |old(sent)| && sent[|sent| - 1].request ==
        if |sent| == |old(sent)| + 1 && old(claim.lease.endpoint) != "" then DeleteMcpServer(c.name)
        else Update(c, old(claim.lease), Annotations(Some(input.endpoint), None, Some(false)))
      ensures old(claim.lease.endpoint) == "" ==> |sent| == |old(sent)| + 1
      ensures old(claim.lease.endpoint) != "" ==>
        sent[|old(sent)|].request == DeleteMcpServer(c.name)
        && |sent| == |old(sent)| + if sent[|old(sent)|].response.Ok? then 2 else 1
    {
      hide Reconciler.Valid, Reconciler.Now;
      if claim.lease.endpoint != "" {
        var response := Send(DeleteMcpServer(c.name));
        if !response.Ok? {
          return true;
        }
      }
      var ok := Annotate(claim, Annotations(Some(input.endpoint), None, Some(false)));
      return !ok;
    }

    /** What core holds decides between registering, moving, mirroring, refusing and starting. */
    method FromHealth(input: Input, claim: Option<Claim>) returns (done: bool)
      requires At(AskHealth(input, if claim.Some? then Some(claim.value.lease) else None))
      modifies this`cluster, this`script, this`labels, this`sent, if claim.Some? then {claim.value} else {}
      ensures At(Idle) && Continues(c, old(labels), labels) && old(sent) <= sent
      ensures |sent| > |old(sent)| && sent[|old(sent)|].request == GetHealth(c.name)
      ensures !sent[|old(sent)|].response.Ok? && !sent[|old(sent)|].response.NotFound? ==> |sent| == |old(sent)| + 1
      ensures sent[|old(sent)|].response.NotFound? && claim.None? ==>
        |sent| > |old(sent)| + 1 && sent[|old(sent)| + 1].request == CreateLease(c.name, c, input.endpoint)
      ensures sent[|old(sent)|].response.Ok? && claim.None? ==>
        if input.container then |sent| > |old(sent)| + 1 && sent[|old(sent)| + 1].request == GetProvenance(c.name)
        else |sent| == |old(sent)| + 1
    {
      hide Reconciler.Valid, Reconciler.Now;
      var health := Send(GetHealth(c.name));
      if health.NotFound? {
        done := Register(input, claim);
        return;
      }
      if health.Ok? && claim.None? && input.container {
        var provenance := Send(GetProvenance(c.name));
        if provenance.Ok? {
          done := MoveDiscovered(input);
          return;
        }
      }
      if health.Ok? && claim.None? && (input.tls.Some? || input.container) {
        return true;
      }
      if !health.Ok? || claim.None? {
        return false;
      }
      if !claim.value.lease.started && input.endpoint != "" {
        done := Start(input, claim.value);
        return;
      }
      return false;
    }

    /** The branches of registration before core is asked for the server. */
    method Decide(input: Input) returns (done: bool)
      requires At(ReadClaim(input))
      modifies this`cluster, this`script, this`labels, this`sent
      ensures At(Idle) && Continues(c, old(labels), labels) && old(sent) <= sent
    {
      hide Reconciler.Valid, Reconciler.Now;
      var ok, claim := GetClaim();
      if !ok || (claim.Some? && claim.value.lease.holder != c) {
        return true;
      }
      if input.tls.Some? {
        var refused := PeerIdentityRefusal(input, claim);
        if refused {
          return true;
        }
      }
      done := SettleClaim(input, claim);
    }

    /** A claim that records something else than the spec is delivered in place, or replaced. */
    method SettleClaim(input: Input, claim: Option<Claim>) returns (done: bool)
      requires At(AfterRefusalCheck(input, if claim.Some? then Some(claim.value.lease) else None))
      modifies this`cluster, this`script, this`labels, this`sent, if claim.Some? then {claim.value} else {}
      ensures At(Idle) && Continues(c, old(labels), labels) && old(sent) <= sent
    {
      hide Reconciler.Valid, Reconciler.Now;
      if claim.Some? && (input.tls.Some? || claim.value.lease.tls.Some?)
         && (claim.value.lease.endpoint != input.endpoint || claim.value.lease.tls != input.tls) {
        var stop := DeliverConnection(input, claim.value, if input.tls.Some? then Given(input.tls.value) else Emptied, false);
        if stop {
          return true;
        }
      }
      if claim.Some? && claim.value.lease.tls.None? && input.tls.None? && claim.value.lease.endpoint != input.endpoint {
        var stop := ReplacePlain(input, claim.value);
        if stop {
          return true;
        }
      }
      done := FromHealth(input, claim);
    }

    /** A pass begins, in the machine's account of it; the code has sent nothing yet. */
    ghost method Begins(l: Label, pc: Pc)
      requires At(Idle) && ((l == BeginDeletion(c) && pc == DeletionReadClaim) || (l.Begin? && l.cr == c && pc == ReadClaim(l.input)))
      modifies this`labels, this`begun, this`sent
      ensures At(pc) && labels == old(labels) + [l] && begun == pc && sent == []
    {
      var w := Whole();
      ExecAppend(INITIAL, labels, [l]);
      ExecOne(w, l);
      assert w.passes[c := pc] - {c} == w.passes - {c};
      labels := labels + [l];
      begun, sent := pc, [];
    }

    lemma SentIsCaused(input: Input)
      requires Follows(c, ReadClaim(input), sent) && PcAfter(c, ReadClaim(input), sent).Idle?
      ensures AllCaused(c, input, sent) && !Unfinished(c, input, sent)
      ensures input.tls.Some? ==> forall k | 0 <= k < |sent| && Registers(sent[k].request) ::
        Exchange(GetCapabilities(c.name), Ok) in sent[..k]
    {
      hide Follows, PcAfter, AllCaused, Unfinished, Registers;
      PassIsCaused(c, input, sent);
    }

    /**
    registration: one pass over a name, from any state of the claim and of core. The requests it sends are
    the machine's from the first to the last, so whatever it sent to core was sent while it held the claim.
    Each has its cause in what was sent before, and nothing is left undone; a key-pinned CR is not registered,
    delivered or started before core has said that it checks keys.
    */
    method Registration(input: Input) returns (done: bool)
      requires At(Idle)
      modifies this
      ensures At(Idle) && Continues(c, old(labels) + [Begin(c, input)], labels)
      ensures Follows(c, ReadClaim(input), sent) && PcAfter(c, ReadClaim(input), sent).Idle?
      ensures AllCaused(c, input, sent) && !Unfinished(c, input, sent)
      ensures input.tls.Some? ==> forall k | 0 <= k < |sent| && Registers(sent[k].request) ::
        Exchange(GetCapabilities(c.name), Ok) in sent[..k]
      ensures Inv(Whole())
      ensures forall i :: 0 <= i < |cluster.history| && cluster.history[i].Sent? ==>
        HolderAfter(cluster.history[..i], cluster.history[i].cr.name) == Some(cluster.history[i].cr)
    {
      Begins(Begin(c, input), ReadClaim(input));
      done := Decide(input);
      EveryRunIsSafe(labels);
      SentIsCaused(input);
      forall i | 0 <= i < |cluster.history| && cluster.history[i].Sent?
        ensures HolderAfter(cluster.history[..i], cluster.history[i].cr.name) == Some(cluster.history[i].cr)
      {
        MutationsHappenUnderTheClaim(labels, i);
      }
    }

    /** The requests of a deletion: core first, the claim second, and neither without holding the claim. */
    method RemoveOwned()
      requires At(DeletionReadClaim) && sent == []
      modifies this`cluster, this`script, this`labels, this`sent
      ensures At(Idle) && Continues(c, old(labels), labels)
      ensures |sent| > 0 && sent[0].request == GetLease(c.name)
      ensures var a := sent[0].response;
        if a.LeaseIs? && Holds(c, a.lease) then
          |sent| == 3 && sent[1].request == DeleteMcpServer(c.name) && sent[2].request == DeleteLease(c.name)
        else |sent| == 1
    {
      hide Reconciler.Valid, Reconciler.Now;
      var ok, claim := GetClaim();
      if ok && claim.Some? && claim.value.lease.holder == c {
        var gone := Send(DeleteMcpServer(c.name));
        gone := Send(DeleteLease(c.name));
      }
    }

    /**
    deregisterOwned: the deletion removes from core and lets go of a name only if it holds the claim, in that
    order, and is not held up by either failing.
    */
    method DeregisterOwned()
      requires At(Idle)
      modifies this
      ensures At(Idle) && Continues(c, old(labels) + [BeginDeletion(c)], labels)
      ensures |sent| > 0 && sent[0].request == GetLease(c.name)
      ensures var a := sent[0].response;
        if a.LeaseIs? && Holds(c, a.lease) then
          |sent| == 3 && sent[1].request == DeleteMcpServer(c.name) && sent[2].request == DeleteLease(c.name)
        else |sent| == 1
      ensures Mine(c, SlotOf(cluster, c.name)) ==> Holds(c, SlotOf(cluster, c.name).lease) || c in Whole().abandoned
    {
      Begins(BeginDeletion(c), DeletionReadClaim);
      RemoveOwned();
      RegisteredIsClaimed(labels, c);
    }
  }
}

/**
The API calls of a registration pass as requests, and what the API server and core do with each, given
the request alone: which call, on which name, with which payload. The machine's calls are these requests.
*/
module RegistrationApi {
  import opened Wrappers
  import opened RegistrationProtocol

  /** The annotations an update writes; the others stand as read. */
  datatype Annotations = Annotations(endpoint: Option<string>, tls: Option<Option<Tls>>, started: Option<bool>)

  /** The tls member of a PUT: left out, empty, or a block. */
  datatype TlsField = LeftOut | Emptied | Given(tls: Tls)

  datatype Request =
    | GetLease(name: string)
    | CreateLease(name: string, holder: Cr, endpoint: string)
    | UpdateLease(name: string, copy: Lease, written: Annotations)
    | DeleteLease(name: string)
    | GetCapabilities(name: string)
    | GetHealth(name: string)
    | GetProvenance(name: string)
    | PostMcpServer(name: string, endpoint: string, tls: Option<Tls>)
    | PutMcpServer(name: string, endpoint: string, field: TlsField)
    | DeleteMcpServer(name: string)
    | PostStart(name: string)

  /** What the caller is told. A conflicting update, and a PUT core does not take, are refusals. */
  datatype Response = Failed | Refusal | Ok | LeaseIs(lease: Option<Lease>) | AlreadyExists | NotFound

  function Annotated(lease: Lease, kv: Annotations): Lease {
    lease.(endpoint := if kv.endpoint.Some? then kv.endpoint.value else lease.endpoint,
           tls := if kv.tls.Some? then kv.tls.value else lease.tls,
           started := if kv.started.Some? then kv.started.value else lease.started)
  }

  // ---- Serving a request ----

  function CoreKeeps(field: TlsField, held: Option<Tls>): Option<Tls> {
    match field
    case LeftOut => held
    case Emptied => None
    case Given(tls) => Some(tls)
  }

  predicate CoreTakes(endpoint: string, field: TlsField, s: Server) {
    endpoint != "" || CoreKeeps(field, s.tls).Some?
  }

  predicate AtVersion(slot: Slot, copy: Lease) {
    slot.lease.Some? && slot.lease.value.version == copy.version
  }

  /** What is held of a name after a request of `c` for it. */
  function Serve(c: Cr, slot: Slot, q: Request, r: Reply): Slot {
    if !TookEffect(r) then slot
    else match q
    case CreateLease(_, holder, endpoint) =>
      if slot.lease.Some? then slot
      else slot.(lease := Some(Lease(holder, endpoint, None, false, slot.version)), startSeen := false, version := slot.version + 1)
    case UpdateLease(_, copy, written) =>
      if !AtVersion(slot, copy) then slot
      else slot.(lease := Some(copy.(version := slot.version)), version := slot.version + 1,
                 startSeen := slot.startSeen && written.endpoint.None?)
    case DeleteLease(_) => slot.(lease := None)
    case PostMcpServer(_, endpoint, tls) =>
      if slot.server.Some? then slot else slot.(server := Some(Server(By(c), endpoint, tls, false)))
    case PutMcpServer(_, endpoint, field) =>
      if slot.server.None? || !CoreTakes(endpoint, field, slot.server.value) then slot
      else slot.(server := Some(Server(By(c), endpoint, CoreKeeps(field, slot.server.value.tls), slot.server.value.started)))
    case DeleteMcpServer(_) => slot.(server := None)
    case PostStart(_) =>
      if slot.server.None? then slot
      else slot.(server := Some(slot.server.value.(started := true)), startSeen := true)
    case GetLease(_) => slot
    case GetCapabilities(_) => slot
    case GetHealth(_) => slot
    case GetProvenance(_) => slot
  }

  /** What the history records of a request. */
  function Recorded(c: Cr, slot: Slot, q: Request, r: Reply): seq<Event> {
    match q
    case CreateLease(_, holder, _) => if TookEffect(r) && slot.lease.None? then [Taken(holder)] else []
    case DeleteLease(_) => if TookEffect(r) && slot.lease.Some? then [Released(c)] else []
    case PostMcpServer(_, _, _) => [Sent(c, Post)]
    case PutMcpServer(_, _, _) => [Sent(c, Put)]
    case DeleteMcpServer(_) => [Sent(c, Delete)]
    case PostStart(_) => [Sent(c, Start)]
    case GetLease(_) => []
    case UpdateLease(_, _, _) => []
    case GetCapabilities(_) => []
    case GetHealth(_) => []
    case GetProvenance(_) => []
  }

  function FoundOr(slot: Slot): Response {
    if slot.server.Some? then Ok else NotFound
  }

  /** What the caller is told of its request. */
  function Respond(slot: Slot, q: Request, r: Reply): Response {
    if r.Refused? then Refusal
    else if !r.Heard? then Failed
    else match q
    case GetLease(_) => LeaseIs(slot.lease)
    case CreateLease(_, holder, endpoint) =>
      if slot.lease.Some? then AlreadyExists else LeaseIs(Some(Lease(holder, endpoint, None, false, slot.version)))
    case UpdateLease(_, copy, _) =>
      if AtVersion(slot, copy) then LeaseIs(Some(copy.(version := slot.version))) else Refusal
    case DeleteLease(_) => Ok
    case GetCapabilities(_) => Ok
    case GetHealth(_) => FoundOr(slot)
    case GetProvenance(_) => Ok
    case PostMcpServer(_, _, _) => if slot.server.Some? then AlreadyExists else Ok
    case PutMcpServer(_, endpoint, field) =>
      if slot.server.None? then NotFound else if CoreTakes(endpoint, field, slot.server.value) then Ok else Refusal
    case DeleteMcpServer(_) => Ok
    case PostStart(_) => FoundOr(slot)
  }

  /** What a response can be: a created or updated Lease comes back as it was sent. */
  predicate Possible(q: Request, a: Response) {
    a.LeaseIs? ==>
      || q.GetLease?
      || (q.CreateLease? && a.lease.Some? && a.lease.value == Lease(q.holder, q.endpoint, None, false, a.lease.value.version))
      || (q.UpdateLease? && a.lease.Some? && a.lease.value == q.copy.(version := a.lease.value.version))
  }

  lemma ResponseIsPossible(slot: Slot, q: Request, r: Reply)
    ensures Possible(q, Respond(slot, q, r))
  {
  }

  /** An update over a version the Lease has left behind, or over none, is refused and changes nothing. */
  lemma StaleUpdateIsRefused(c: Cr, slot: Slot, q: Request, r: Reply)
    requires q.UpdateLease? && (slot.lease.None? || slot.lease.value.version != q.copy.version)
    ensures Serve(c, slot, q, r) == slot && !Respond(slot, q, r).LeaseIs?
  {
  }

  // ---- The machine's calls are requests ----

  function FieldOf(tls: Option<Tls>, moving: bool): TlsField {
    if tls.Some? then Given(tls.value) else if moving then LeftOut else Emptied
  }

  function Update(c: Cr, held: Lease, kv: Annotations): Request {
    UpdateLease(c.name, Annotated(held, kv), kv)
  }

  /** The request the machine's next call stands for. */
  ghost function RequestOf(c: Cr, pc: Pc): (q: Request)
    requires !pc.Idle?
    ensures q.name == c.name
  {
    match pc
    case ReadClaim(_) => GetLease(c.name)
    case AskCapabilities(_, _) => GetCapabilities(c.name)
    case RefusedDelete(_, _) => DeleteMcpServer(c.name)
    case RefusedRelease(_, _) => DeleteLease(c.name)
    case Deliver(input, _, moving) => PutMcpServer(c.name, input.endpoint, FieldOf(input.tls, moving))
    case RecordDelivery(input, held, _) => Update(c, held, Annotations(Some(input.endpoint), Some(input.tls), None))
    case PlainDelete(_, _) => DeleteMcpServer(c.name)
    case PlainRecord(input, held) => Update(c, held, Annotations(Some(input.endpoint), None, Some(false)))
    case AskHealth(_, _) => GetHealth(c.name)
    case AskProvenance(_) => GetProvenance(c.name)
    case MoveTake(_) => CreateLease(c.name, c, DISCOVERED)
    case MoveTakeRead(_) => GetLease(c.name)
    case Take(input) => CreateLease(c.name, c, input.endpoint)
    case TakeRead(_) => GetLease(c.name)
    case Register(input, _) => PostMcpServer(c.name, input.endpoint, input.tls)
    case RecordTls(input, held) => Update(c, held, Annotations(None, Some(input.tls), None))
    case GiveBack(_, _) => DeleteLease(c.name)
    case StartServer(_, _) => PostStart(c.name)
    case RecordStart(_, held) => Update(c, held, Annotations(None, None, Some(true)))
    case DeletionReadClaim => GetLease(c.name)
    case DeletionDelete(_) => DeleteMcpServer(c.name)
    case DeletionRelease(_) => DeleteLease(c.name)
  }

  lemma ReadIsServed(c: Cr, slot: Slot, pc: Pc, r: Reply)
    requires !pc.Idle? && Reads(pc)
    ensures Serve(c, slot, RequestOf(c, pc), r) == slot && Recorded(c, slot, RequestOf(c, pc), r) == []
  {
  }

  lemma ClaimCallIsServed(c: Cr, slot: Slot, pc: Pc, r: Reply)
    requires !Reads(pc) && !CallsCore(pc)
    ensures var e := AnswerClaim(c, slot, pc, r); var q := RequestOf(c, pc);
      e.slot == Serve(c, slot, q, r) && e.events == Recorded(c, slot, q, r)
  {
  }

  lemma CoreCallIsServed(c: Cr, slot: Slot, pc: Pc, r: Reply)
    requires CallsCore(pc)
    ensures var e := AnswerCore(c, slot, pc, r); var q := RequestOf(c, pc);
      e.slot == Serve(c, slot, q, r) && e.events == Recorded(c, slot, q, r)
  {
  }

  /** What the machine's call does to a name is what serving its request does. */
  lemma AnswerIsServed(c: Cr, slot: Slot, pc: Pc, r: Reply)
    requires !pc.Idle?
    ensures var e := Answer(c, slot, pc, r); var q := RequestOf(c, pc);
      e.slot == Serve(c, slot, q, r) && e.events == Recorded(c, slot, q, r)
  {
    if Reads(pc) {
      ReadIsServed(c, slot, pc, r);
    } else if CallsCore(pc) {
      CoreCallIsServed(c, slot, pc, r);
    } else {
      ClaimCallIsServed(c, slot, pc, r);
    }
  }

  // ---- Where the machine goes, by what it is told ----

  /** The call after this one, given the response alone. */
  ghost function Next(c: Cr, pc: Pc, a: Response): Pc
    requires !pc.Idle?
  {
    match pc
    case ReadClaim(input) =>
      if !a.LeaseIs? || (a.lease.Some? && a.lease.value.holder != c) then Idle else AfterClaim(input, a.lease)
    case AskCapabilities(input, claim) =>
      if a.Ok? then AfterRefusalCheck(input, claim)
      else if a.Refusal? && claim.Some? then RefusedDelete(input, claim.value)
      else Idle
    case RefusedDelete(input, held) => if a.Ok? then RefusedRelease(input, held) else Idle
    case RefusedRelease(_, _) => Idle
    case Deliver(input, held, moving) => if a.Ok? || a.NotFound? then RecordDelivery(input, held, moving) else Idle
    case RecordDelivery(input, _, moving) =>
      if moving || !a.LeaseIs? || a.lease.None? then Idle else AskHealth(input, a.lease)
    case PlainDelete(input, held) => if a.Ok? then PlainRecord(input, held) else Idle
    case PlainRecord(input, _) => if !a.LeaseIs? || a.lease.None? then Idle else AskHealth(input, a.lease)
    case AskHealth(input, claim) => if a.Ok? || a.NotFound? then AfterHealth(input, claim, a.Ok?) else Idle
    case AskProvenance(input) => if a.Ok? then MoveTake(input) else Idle
    case MoveTake(input) =>
      if a.AlreadyExists? then MoveTakeRead(input)
      else if a.LeaseIs? && a.lease.Some? then Deliver(input, a.lease.value, true)
      else Idle
    case MoveTakeRead(input) => if a.LeaseIs? && Holds(c, a.lease) then Deliver(input, a.lease.value, true) else Idle
    case Take(input) =>
      if a.AlreadyExists? then TakeRead(input)
      else if a.LeaseIs? && a.lease.Some? then AfterTake(input, a.lease.value)
      else Idle
    case TakeRead(input) => if a.LeaseIs? && Holds(c, a.lease) then AfterTake(input, a.lease.value) else Idle
    case Register(input, held) =>
      if a.Ok? then RecordTls(input, held) else if a.AlreadyExists? then GiveBack(input, held) else Idle
    case RecordTls(input, _) =>
      if !a.LeaseIs? || a.lease.None? || input.endpoint == "" then Idle else StartServer(input, a.lease.value)
    case GiveBack(_, _) => Idle
    case StartServer(input, held) => if a.Ok? then RecordStart(input, held) else Idle
    case RecordStart(_, _) => Idle
    case DeletionReadClaim => if a.LeaseIs? && Holds(c, a.lease) then DeletionDelete(a.lease.value) else Idle
    case DeletionDelete(held) => DeletionRelease(held)
    case DeletionRelease(_) => Idle
  }

  lemma ReadGoesByResponse(c: Cr, slot: Slot, pc: Pc, r: Reply)
    requires !pc.Idle? && Reads(pc)
    ensures AnswerRead(c, slot, pc, r) == Next(c, pc, Respond(slot, RequestOf(c, pc), r))
  {
    hide AfterClaim, AfterRefusalCheck, AfterHealth, AfterTake;
  }

  lemma ClaimCallGoesByResponse(c: Cr, slot: Slot, pc: Pc, r: Reply)
    requires !Reads(pc) && !CallsCore(pc)
    ensures AnswerClaim(c, slot, pc, r).pc == Next(c, pc, Respond(slot, RequestOf(c, pc), r))
  {
    hide AfterTake, CreateClaim, UpdateClaim;
  }

  lemma CoreCallGoesByResponse(c: Cr, slot: Slot, pc: Pc, r: Reply)
    requires CallsCore(pc)
    ensures AnswerCore(c, slot, pc, r).pc == Next(c, pc, Respond(slot, RequestOf(c, pc), r))
  {
    hide RemoveServer, PutServer, StartEntry;
  }

  /** The machine goes on by what the caller is told, and by nothing else the cluster holds. */
  lemma AnswerGoesByResponse(c: Cr, slot: Slot, pc: Pc, r: Reply)
    requires !pc.Idle?
    ensures Answer(c, slot, pc, r).pc == Next(c, pc, Respond(slot, RequestOf(c, pc), r))
  {
    if Reads(pc) {
      ReadGoesByResponse(c, slot, pc, r);
    } else if CallsCore(pc) {
      CoreCallGoesByResponse(c, slot, pc, r);
    } else {
      ClaimCallGoesByResponse(c, slot, pc, r);
    }
  }

  // ---- A pass as the requests it sent ----

  /** A request, and what came back. */
  datatype Exchange = Exchange(request: Request, response: Response)

  /** Where the machine is after these exchanges. */
  ghost function PcAfter(c: Cr, begun: Pc, sent: seq<Exchange>): Pc {
    if sent == [] then begun
    else
      var pc := PcAfter(c, begun, sent[..|sent| - 1]);
      if pc.Idle? then Idle else Next(c, pc, sent[|sent| - 1].response)
  }

  /** Each request is the one the machine makes there: this call, in this order, with this payload. */
  ghost predicate Follows(c: Cr, begun: Pc, sent: seq<Exchange>) {
    sent != [] ==>
      && Follows(c, begun, sent[..|sent| - 1])
      && !PcAfter(c, begun, sent[..|sent| - 1]).Idle?
      && sent[|sent| - 1].request == RequestOf(c, PcAfter(c, begun, sent[..|sent| - 1]))
  }

  lemma FollowsOneMore(c: Cr, begun: Pc, sent: seq<Exchange>, x: Exchange)
    requires Follows(c, begun, sent) && !PcAfter(c, begun, sent).Idle?
    requires x.request == RequestOf(c, PcAfter(c, begun, sent))
    ensures Follows(c, begun, sent + [x])
    ensures PcAfter(c, begun, sent + [x]) == Next(c, PcAfter(c, begun, sent), x.response)
  {
    assert (sent + [x])[..|sent|] == sent;
  }
}

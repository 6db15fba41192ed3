/**
The registration of MCPServers with core, as a step machine.

Core keys servers by name across the whole cluster, while MCPServers are namespaced; one Lease per
name says which MCPServer a name belongs to. A reconcile pass is a sequence of API calls, each of
which may fail, may fail after taking effect, or may be the last one before a crash. `Pc` names the
call a pass is about to make together with the local variables it still holds, `Answer` is what the
call does and where the code goes next, and `Exec` runs any interleaving of any number of passes.
*/
module RegistrationProtocol {
  import opened Wrappers

  /** An MCPServer object. Its holder identity is the triple itself. */
  datatype Cr = Cr(namespace: string, name: string, uid: string)

  /** The tls block of a key-pinned server. A digest on a claim is modelled by the block it digests. */
  type Tls = string

  /** What a pass reads off the MCPServer: the mode, the endpoint to register, the peer identity. */
  datatype Input = Input(container: bool, endpoint: string, tls: Option<Tls>)

  /** The claim on a name. `version` is the object's resourceVersion. */
  datatype Lease = Lease(holder: Cr, endpoint: string, tls: Option<Tls>, started: bool, version: nat)

  /** Whose request last produced core's entry: an MCPServer's POST or PUT, or somebody else's. */
  datatype Maker = Outside | By(cr: Cr)

  /** Core's entry for a name. `started`: core has taken a start since the entry was created. */
  datatype Server = Server(maker: Maker, endpoint: string, tls: Option<Tls>, started: bool)

  /**
  Everything the cluster holds about one name. `startSeen` is bookkeeping the operator does not
  have: core took a start of this name since an endpoint was last recorded on the claim.
  */
  datatype Slot = Slot(lease: Option<Lease>, server: Option<Server>, startSeen: bool, version: nat)

  /** How a call ended: processed, refused without effect, or any other error, applied or not. */
  datatype Reply = Heard | Refused | Lost(applied: bool)

  datatype CoreCall = Post | Put | Delete | Start

  datatype Event = Taken(cr: Cr) | Released(cr: Cr) | Sent(cr: Cr, call: CoreCall)

  /** The API call a pass makes next, with the local variables the rest of the pass reads. */
  datatype Pc =
    | Idle
    | ReadClaim(input: Input)
    | AskCapabilities(input: Input, claim: Option<Lease>)
    | RefusedDelete(input: Input, held: Lease)
    | RefusedRelease(input: Input, held: Lease)
    | Deliver(input: Input, held: Lease, moving: bool)
    | RecordDelivery(input: Input, held: Lease, moving: bool)
    | PlainDelete(input: Input, held: Lease)
    | PlainRecord(input: Input, held: Lease)
    | AskHealth(input: Input, claim: Option<Lease>)
    | AskProvenance(input: Input)
    | MoveTake(input: Input)
    | MoveTakeRead(input: Input)
    | Take(input: Input)
    | TakeRead(input: Input)
    | Register(input: Input, held: Lease)
    | RecordTls(input: Input, held: Lease)
    | GiveBack(input: Input, held: Lease)
    | StartServer(input: Input, held: Lease)
    | RecordStart(input: Input, held: Lease)
    | DeletionReadClaim
    | DeletionDelete(held: Lease)
    | DeletionRelease(held: Lease)

  const DISCOVERED: string := "discovered"

  datatype Effect = Effect(slot: Slot, pc: Pc, events: seq<Event>, abandons: bool)

  function Goto(slot: Slot, pc: Pc): Effect {
    Effect(slot, pc, [], false)
  }

  function Send(c: Cr, call: CoreCall, slot: Slot, pc: Pc): Effect {
    Effect(slot, pc, [Sent(c, call)], false)
  }

  predicate Holds(c: Cr, lease: Option<Lease>) {
    lease.Some? && lease.value.holder == c
  }

  // ---- Where the code goes between two calls ----

  /** After the claim was read, and is free or this CR's. */
  function AfterClaim(input: Input, claim: Option<Lease>): Pc {
    if input.tls.Some? then AskCapabilities(input, claim) else AfterRefusalCheck(input, claim)
  }

  /** Whether a claim on a key-pinned server, or one that was, records something else. */
  predicate NeedsDelivery(input: Input, held: Lease) {
    && (input.tls.Some? || held.tls.Some?)
    && (held.endpoint != input.endpoint || held.tls != input.tls)
  }

  /** Whether a plain server's claim records another endpoint. */
  predicate NeedsReplacing(input: Input, held: Lease) {
    held.tls.None? && input.tls.None? && held.endpoint != input.endpoint
  }

  function AfterRefusalCheck(input: Input, claim: Option<Lease>): Pc {
    if claim.Some? && NeedsDelivery(input, claim.value) then
      Deliver(input, claim.value, false)
    else if claim.Some? && NeedsReplacing(input, claim.value) then
      if claim.value.endpoint != "" then PlainDelete(input, claim.value) else PlainRecord(input, claim.value)
    else
      AskHealth(input, claim)
  }

  /** Core takes no plain server without an endpoint, so nothing is sent for one. */
  function AfterTake(input: Input, held: Lease): Pc {
    if input.tls.None? && input.endpoint == "" then Idle else Register(input, held)
  }

  function AfterHealth(input: Input, claim: Option<Lease>, found: bool): Pc {
    if !found then
      if claim.None? then Take(input) else AfterTake(input, claim.value)
    else if claim.None? then
      if input.container then AskProvenance(input) else Idle
    else if !claim.value.started && input.endpoint != "" then
      StartServer(input, claim.value)
    else
      Idle
  }

  // ---- Calls on the claim ----

  predicate TookEffect(r: Reply) {
    r.Heard? || (r.Lost? && r.applied)
  }

  function FreshClaim(c: Cr, slot: Slot, endpoint: string): Lease {
    Lease(c, endpoint, None, false, slot.version)
  }

  function CreateClaim(c: Cr, slot: Slot, endpoint: string): Slot {
    slot.(lease := Some(FreshClaim(c, slot, endpoint)), startSeen := false, version := slot.version + 1)
  }

  /** An update carries the version it was read at, and is refused when the object has moved on. */
  predicate Current(slot: Slot, held: Lease) {
    slot.lease.Some? && slot.lease.value.version == held.version
  }

  function Rewritten(slot: Slot, updated: Lease): Lease {
    updated.(version := slot.version)
  }

  function UpdateClaim(slot: Slot, updated: Lease, recordsEndpoint: bool): Slot {
    slot.(lease := Some(Rewritten(slot, updated)), version := slot.version + 1,
          startSeen := slot.startSeen && !recordsEndpoint)
  }

  /** Creates the claim, then goes on as `created`, or as `taken` when the name is claimed. */
  function TakeClaim(c: Cr, slot: Slot, r: Reply, endpoint: string, created: Pc, taken: Pc): Effect {
    if slot.lease.Some? then Goto(slot, if r.Heard? then taken else Idle)
    else if TookEffect(r) then
      Effect(CreateClaim(c, slot, endpoint), if r.Heard? then created else Idle, [Taken(c)], false)
    else Goto(slot, Idle)
  }

  function Annotate(slot: Slot, r: Reply, updated: Lease, recordsEndpoint: bool, next: Pc): Effect {
    if Current(slot, updated) && TookEffect(r) then
      Goto(UpdateClaim(slot, updated, recordsEndpoint), if r.Heard? then next else Idle)
    else
      Goto(slot, Idle)
  }

  /** A delete names the Lease and nothing else: it removes whichever claim is there. */
  function Release(c: Cr, slot: Slot, r: Reply): Effect {
    if TookEffect(r) && slot.lease.Some? then
      Effect(slot.(lease := None), Idle, [Released(c)], false)
    else
      Goto(slot, Idle)
  }

  // ---- Calls on core ----

  function RemoveServer(slot: Slot, r: Reply): Slot {
    if TookEffect(r) then slot.(server := None) else slot
  }

  function PostServer(c: Cr, slot: Slot, input: Input, r: Reply): Slot {
    if slot.server.None? && TookEffect(r) then
      slot.(server := Some(Server(By(c), input.endpoint, input.tls, false)))
    else slot
  }

  /** The tls block a PUT leaves: a move that names none keeps core's, a cleared one is removed. */
  function DeliveredTls(input: Input, s: Server, moving: bool): Option<Tls> {
    if input.tls.None? && moving then s.tls else input.tls
  }

  /** Core clears the endpoint of a key-pinned server only. */
  predicate CoreTakesUpdate(input: Input, s: Server, moving: bool) {
    input.endpoint != "" || DeliveredTls(input, s, moving).Some?
  }

  function PutServer(c: Cr, slot: Slot, input: Input, moving: bool, r: Reply): Slot {
    if slot.server.Some? && CoreTakesUpdate(input, slot.server.value, moving) && TookEffect(r) then
      slot.(server := Some(Server(By(c), input.endpoint,
                                  DeliveredTls(input, slot.server.value, moving), slot.server.value.started)))
    else slot
  }

  function StartEntry(slot: Slot, r: Reply): Slot {
    if slot.server.Some? && TookEffect(r) then
      slot.(server := Some(slot.server.value.(started := true)), startSeen := true)
    else slot
  }

  // ---- One call ----

  /** A call that reads the claim, core or the cluster and changes nothing. */
  predicate Reads(pc: Pc) {
    || pc.Idle? || pc.ReadClaim? || pc.AskCapabilities? || pc.AskHealth? || pc.AskProvenance?
    || pc.MoveTakeRead? || pc.TakeRead? || pc.DeletionReadClaim?
  }

  /** A call that mutates core. */
  predicate CallsCore(pc: Pc) {
    || pc.RefusedDelete? || pc.Deliver? || pc.PlainDelete? || pc.Register? || pc.StartServer?
    || pc.DeletionDelete?
  }

  /** Where a read leads. */
  function AnswerRead(c: Cr, slot: Slot, pc: Pc, r: Reply): Pc
    requires Reads(pc)
  {
    if !r.Heard? then
      if pc.AskCapabilities? && r.Refused? && pc.claim.Some? then RefusedDelete(pc.input, pc.claim.value) else Idle
    else match pc
    case Idle => Idle
    case ReadClaim(input) =>
      if slot.lease.Some? && slot.lease.value.holder != c then Idle else AfterClaim(input, slot.lease)
    case AskCapabilities(input, claim) => AfterRefusalCheck(input, claim)
    case AskHealth(input, claim) => AfterHealth(input, claim, slot.server.Some?)
    case AskProvenance(input) => MoveTake(input)
    case MoveTakeRead(input) => if Holds(c, slot.lease) then Deliver(input, slot.lease.value, true) else Idle
    case TakeRead(input) => if Holds(c, slot.lease) then AfterTake(input, slot.lease.value) else Idle
    case DeletionReadClaim => if Holds(c, slot.lease) then DeletionDelete(slot.lease.value) else Idle
  }

  /** What a call on the claim does, and where it leads. */
  function AnswerClaim(c: Cr, slot: Slot, pc: Pc, r: Reply): Effect
    requires !Reads(pc) && !CallsCore(pc)
  {
    match pc
    case RefusedRelease(_, _) => Release(c, slot, r)
    case GiveBack(_, _) => Release(c, slot, r)
    case DeletionRelease(_) => Release(c, slot, r)
    case RecordDelivery(input, held, moving) =>
      var updated := held.(endpoint := input.endpoint, tls := input.tls);
      Annotate(slot, r, updated, true,
               if moving then Idle else AskHealth(input, Some(Rewritten(slot, updated))))
    case PlainRecord(input, held) =>
      var updated := held.(endpoint := input.endpoint, started := false);
      Annotate(slot, r, updated, true, AskHealth(input, Some(Rewritten(slot, updated))))
    case RecordTls(input, held) =>
      var updated := held.(tls := input.tls);
      Annotate(slot, r, updated, false,
               if input.endpoint == "" then Idle else StartServer(input, Rewritten(slot, updated)))
    case RecordStart(_, held) => Annotate(slot, r, held.(started := true), false, Idle)
    case MoveTake(input) =>
      TakeClaim(c, slot, r, DISCOVERED, Deliver(input, FreshClaim(c, slot, DISCOVERED), true), MoveTakeRead(input))
    case Take(input) =>
      TakeClaim(c, slot, r, input.endpoint, AfterTake(input, FreshClaim(c, slot, input.endpoint)), TakeRead(input))
  }

  /** What a call that mutates core does, and where it leads. */
  function AnswerCore(c: Cr, slot: Slot, pc: Pc, r: Reply): Effect
    requires CallsCore(pc)
  {
    match pc
    case RefusedDelete(input, held) =>
      Send(c, Delete, RemoveServer(slot, r), if r.Heard? then RefusedRelease(input, held) else Idle)
    case PlainDelete(input, held) =>
      Send(c, Delete, RemoveServer(slot, r), if r.Heard? then PlainRecord(input, held) else Idle)
    case DeletionDelete(held) =>
      Send(c, Delete, RemoveServer(slot, r), DeletionRelease(held)).(abandons := !r.Heard?)
    case Deliver(input, held, moving) =>
      var taken := slot.server.None? || CoreTakesUpdate(input, slot.server.value, moving);
      Send(c, Put, PutServer(c, slot, input, moving, r),
           if r.Heard? && taken then RecordDelivery(input, held, moving) else Idle)
    case Register(input, held) =>
      Send(c, Post, PostServer(c, slot, input, r),
           if !r.Heard? then Idle else if slot.server.None? then RecordTls(input, held) else GiveBack(input, held))
    case StartServer(input, held) =>
      Send(c, Start, StartEntry(slot, r),
           if r.Heard? && slot.server.Some? then RecordStart(input, held) else Idle)
  }

  /** What CR `c`'s pending call does under reply `r`, and the call its pass makes after it. */
  function Answer(c: Cr, slot: Slot, pc: Pc, r: Reply): Effect {
    if Reads(pc) then Goto(slot, AnswerRead(c, slot, pc, r))
    else if CallsCore(pc) then AnswerCore(c, slot, pc, r)
    else AnswerClaim(c, slot, pc, r)
  }

  // ---- Runs ----

  /**
  The cluster: a slot per name, a pass per MCPServer, the CRs whose deletion could not deregister
  them, and every claim change and core mutation so far.
  */
  datatype World = World(slots: map<string, Slot>, passes: map<Cr, Pc>, abandoned: set<Cr>, history: seq<Event>)

  const EMPTY_SLOT := Slot(None, None, false, 0)

  const INITIAL := World(map[], map[], {}, [])

  function SlotOf(w: World, name: string): Slot {
    if name in w.slots then w.slots[name] else EMPTY_SLOT
  }

  function PcOf(w: World, c: Cr): Pc {
    if c in w.passes then w.passes[c] else Idle
  }

  /** What happens next, anywhere: a pass begins, gets an answer or dies, or core is changed by hand. */
  datatype Label =
    | Begin(cr: Cr, input: Input)
    | BeginDeletion(cr: Cr)
    | Answered(cr: Cr, reply: Reply)
    | Crash(cr: Cr)
    | OutsideAdds(name: string, endpoint: string, tls: Option<Tls>)
    | OutsideRemoves(name: string)

  function Step(w: World, l: Label): World {
    match l
    case Begin(c, input) =>
      if PcOf(w, c).Idle? then w.(passes := w.passes[c := ReadClaim(input)]) else w
    case BeginDeletion(c) =>
      if PcOf(w, c).Idle? then w.(passes := w.passes[c := DeletionReadClaim]) else w
    case Crash(c) => w.(passes := w.passes[c := Idle])
    case Answered(c, r) =>
      var e := Answer(c, SlotOf(w, c.name), PcOf(w, c), r);
      World(w.slots[c.name := e.slot], w.passes[c := e.pc],
            if e.abandons then w.abandoned + {c} else w.abandoned, w.history + e.events)
    case OutsideAdds(name, endpoint, tls) =>
      w.(slots := w.slots[name := SlotOf(w, name).(server := Some(Server(Outside, endpoint, tls, false)))])
    case OutsideRemoves(name) =>
      w.(slots := w.slots[name := SlotOf(w, name).(server := None)])
  }

  /** Any interleaving of any number of MCPServers' passes, crashes and outside changes. */
  function Exec(w: World, labels: seq<Label>): World
    decreases |labels|
  {
    if labels == [] then w else Exec(Step(w, labels[0]), labels[1..])
  }

  lemma {:induction false} ExecAppend(w: World, first: seq<Label>, second: seq<Label>)
    ensures Exec(w, first + second) == Exec(Exec(w, first), second)
    decreases |first|
  {
    if first == [] {
      assert first + second == second;
    } else {
      assert (first + second)[1..] == first[1..] + second;
      ExecAppend(Step(w, first[0]), first[1..], second);
    }
  }

  lemma ExecOne(w: World, l: Label)
    ensures Exec(w, [l]) == Step(w, l)
  {
    assert [l][1..] == [];
    assert Exec(Step(w, l), []) == Step(w, l);
  }
}

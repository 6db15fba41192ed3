/**
What a pass sends, judged by what it sent before and was told: a cause for every request, and no end
while something is left to do. Nothing here speaks of the machine's program points but the proofs.
*/
module RegistrationCauses {
  import opened Wrappers
  import opened RegistrationProtocol
  import opened RegistrationApi
  import opened RegistrationSafety
  import opened RegistrationRuns

  // ---- The exchanges of a pass ----

  /** The last exchange was this request and this answer. */
  predicate Just(sent: seq<Exchange>, q: Request, a: Response) {
    sent != [] && sent[|sent| - 1] == Exchange(q, a)
  }

  /** The last exchange but one was. */
  predicate JustBefore(sent: seq<Exchange>, q: Request, a: Response) {
    |sent| > 1 && sent[|sent| - 2] == Exchange(q, a)
  }

  /** The pass began by reading this claim, which is the CR's own if there is one. */
  predicate Read(c: Cr, sent: seq<Exchange>, claim: Option<Lease>) {
    sent != [] && sent[0] == Exchange(GetLease(c.name), LeaseIs(claim)) && (claim.Some? ==> claim.value.holder == c)
  }

  predicate ReadOwn(c: Cr, sent: seq<Exchange>) {
    sent != [] && sent[0].response.LeaseIs? && sent[0].response.lease.Some? && Read(c, sent, sent[0].response.lease)
  }

  function OwnRead(c: Cr, sent: seq<Exchange>): Lease
    requires ReadOwn(c, sent)
  {
    sent[0].response.lease.value
  }

  /** A key-pinned CR has been told that core checks keys. */
  predicate Cleared(c: Cr, input: Input, sent: seq<Exchange>) {
    input.tls.Some? ==> Exchange(GetCapabilities(c.name), Ok) in sent
  }

  /** The claim was read, core asked if it has to be, and nothing sent since. */
  predicate Checked(c: Cr, input: Input, sent: seq<Exchange>) {
    if input.tls.Some? then |sent| == 2 && Just(sent, GetCapabilities(c.name), Ok) else |sent| == 1
  }

  predicate Records(lease: Lease, input: Input) {
    lease.endpoint == input.endpoint && lease.tls == input.tls
  }

  /** The name was claimed just now at this endpoint: the claim created, or read back as the CR's. */
  predicate JustTaken(c: Cr, sent: seq<Exchange>, endpoint: string) {
    && sent != [] && sent[|sent| - 1].response.LeaseIs? && sent[|sent| - 1].response.lease.Some?
    && var q := sent[|sent| - 1].request;
      || q == CreateLease(c.name, c, endpoint)
      || (&& q == GetLease(c.name) && JustBefore(sent, CreateLease(c.name, c, endpoint), AlreadyExists)
          && Holds(c, sent[|sent| - 1].response.lease))
  }

  /** An update of the claim was just taken. */
  predicate JustRecorded(sent: seq<Exchange>) {
    && sent != [] && sent[|sent| - 1].request.UpdateLease?
    && sent[|sent| - 1].response.LeaseIs? && sent[|sent| - 1].response.lease.Some?
  }

  /** The claim as the pass has it: as read first, or as its last update left it. */
  function Held(c: Cr, sent: seq<Exchange>): Lease
    requires ReadOwn(c, sent)
  {
    if JustRecorded(sent) then sent[|sent| - 1].response.lease.value else OwnRead(c, sent)
  }

  /** Core was just found to have the server of a claim that does not say started. */
  predicate FoundUnstarted(c: Cr, sent: seq<Exchange>) {
    Just(sent, GetHealth(c.name), Ok) && ReadOwn(c, sent[..|sent| - 1]) && !Held(c, sent[..|sent| - 1]).started
  }

  predicate JustPut(c: Cr, input: Input, sent: seq<Exchange>) {
    && sent != [] && sent[|sent| - 1].request.PutMcpServer?
    && (sent[|sent| - 1].response.Ok? || sent[|sent| - 1].response.NotFound?)
  }

  /** Why a request may follow these exchanges, one line for each reason. */
  predicate Cause(c: Cr, input: Input, sent: seq<Exchange>, q: Request) {
    match q
    case GetLease(_) =>
      || sent == []
      || Just(sent, CreateLease(c.name, c, input.endpoint), AlreadyExists)
      || Just(sent, CreateLease(c.name, c, DISCOVERED), AlreadyExists)
    case GetCapabilities(_) => |sent| == 1 && input.tls.Some? && (ReadOwn(c, sent) || Read(c, sent, None))
    case DeleteMcpServer(_) =>
      && ReadOwn(c, sent)
      && (|| Just(sent, GetCapabilities(c.name), Refusal)
          || (&& |sent| == 1 && input.tls.None? && OwnRead(c, sent).tls.None?
              && OwnRead(c, sent).endpoint !in {"", input.endpoint}))
    case DeleteLease(_) =>
      || (Just(sent, DeleteMcpServer(c.name), Ok) && JustBefore(sent, GetCapabilities(c.name), Refusal))
      || Just(sent, PostMcpServer(c.name, input.endpoint, input.tls), AlreadyExists)
    case GetHealth(_) =>
      || JustRecorded(sent)
      || (Checked(c, input, sent) && (Read(c, sent, None) || (ReadOwn(c, sent) && Records(OwnRead(c, sent), input))))
    case GetProvenance(_) => input.container && Just(sent, GetHealth(c.name), Ok) && Read(c, sent, None)
    case CreateLease(_, holder, endpoint) =>
      && holder == c && Read(c, sent, None)
      && (|| (Just(sent, GetHealth(c.name), NotFound) && endpoint == input.endpoint)
          || (Just(sent, GetProvenance(c.name), Ok) && endpoint == DISCOVERED))
    case PutMcpServer(_, endpoint, field) =>
      && endpoint == input.endpoint
      && (|| (JustTaken(c, sent, DISCOVERED) && field == if input.tls.Some? then Given(input.tls.value) else LeftOut)
          || (&& Checked(c, input, sent) && ReadOwn(c, sent) && !Records(OwnRead(c, sent), input)
              && (input.tls.Some? || OwnRead(c, sent).tls.Some?)
              && field == if input.tls.Some? then Given(input.tls.value) else Emptied))
    case PostMcpServer(_, endpoint, tls) =>
      && endpoint == input.endpoint && tls == input.tls && (tls.Some? || endpoint != "")
      && (JustTaken(c, sent, input.endpoint) || (Just(sent, GetHealth(c.name), NotFound) && ReadOwn(c, sent)))
    case PostStart(_) =>
      && input.endpoint != ""
      && (|| FoundUnstarted(c, sent)
          || (JustRecorded(sent) && JustBefore(sent, PostMcpServer(c.name, input.endpoint, input.tls), Ok)))
    case UpdateLease(_, _, written) =>
      || (written == Annotations(Some(input.endpoint), Some(input.tls), None) && JustPut(c, input, sent))
      || (&& written == Annotations(None, Some(input.tls), None)
          && Just(sent, PostMcpServer(c.name, input.endpoint, input.tls), Ok))
      || (written == Annotations(None, None, Some(true)) && Just(sent, PostStart(c.name), Ok))
      || (&& written == Annotations(Some(input.endpoint), None, Some(false)) && input.tls.None? && ReadOwn(c, sent)
          && (Just(sent, DeleteMcpServer(c.name), Ok) || (|sent| == 1 && OwnRead(c, sent).endpoint == "" != input.endpoint)))
  }

  ghost predicate AllCaused(c: Cr, input: Input, sent: seq<Exchange>) {
    forall k | 0 <= k < |sent| :: Cause(c, input, sent[..k], sent[k].request)
  }

  /** A request that claims the name, or changes core, or says on the claim that core was changed. */
  predicate Registers(q: Request) {
    q.CreateLease? || q.PutMcpServer? || q.PostMcpServer? || q.PostStart? || q.UpdateLease?
  }

  /** Each such request comes after core said that it checks keys, if the CR has any. */
  ghost predicate ClearedFirst(c: Cr, input: Input, sent: seq<Exchange>) {
    forall k | 0 <= k < |sent| && Registers(sent[k].request) :: Cleared(c, input, sent[..k])
  }

  /** Something is left to do after these exchanges. */
  predicate Unfinished(c: Cr, input: Input, sent: seq<Exchange>) {
    || sent == []
    || (|sent| == 1 && (ReadOwn(c, sent) || Read(c, sent, None)))
    || Just(sent, GetCapabilities(c.name), Ok)
    || (Just(sent, GetCapabilities(c.name), Refusal) && ReadOwn(c, sent))
    || Just(sent, DeleteMcpServer(c.name), Ok)
    || JustPut(c, input, sent)
    || Just(sent, PostMcpServer(c.name, input.endpoint, input.tls), Ok)
    || Just(sent, PostMcpServer(c.name, input.endpoint, input.tls), AlreadyExists)
    || Just(sent, PostStart(c.name), Ok)
    || Just(sent, GetProvenance(c.name), Ok)
    || (Just(sent, GetHealth(c.name), NotFound) && (Read(c, sent, None) || input.tls.Some? || input.endpoint != ""))
    || (Just(sent, GetHealth(c.name), Ok) && Read(c, sent, None) && input.container)
    || JustTaken(c, sent, DISCOVERED)
    || (JustTaken(c, sent, input.endpoint) && (input.tls.Some? || input.endpoint != ""))
    || (FoundUnstarted(c, sent) && input.endpoint != "")
    || (JustRecorded(sent) && ReadOwn(c, sent) && sent[|sent| - 1].request.written.endpoint.Some?)
    || (JustRecorded(sent) && input.endpoint != "" && JustBefore(sent, PostMcpServer(c.name, input.endpoint, input.tls), Ok))
  }

  // ---- Where the machine is, by its exchanges ----

  /** What led the machine to its next call. */
  predicate Trail(c: Cr, input: Input, sent: seq<Exchange>, pc: Pc) {
    match pc
    case Idle => !Unfinished(c, input, sent)
    case ReadClaim(i) => i == input && sent == []
    case AskCapabilities(i, claim) => i == input && input.tls.Some? && |sent| == 1 && Read(c, sent, claim)
    case RefusedDelete(i, held) => i == input && Read(c, sent, Some(held)) && Just(sent, GetCapabilities(c.name), Refusal)
    case RefusedRelease(i, held) =>
      i == input && Just(sent, DeleteMcpServer(c.name), Ok) && JustBefore(sent, GetCapabilities(c.name), Refusal)
    case Deliver(i, held, moving) =>
      && i == input
      && if moving then JustTaken(c, sent, DISCOVERED) && Read(c, sent, None)
         else Checked(c, input, sent) && Read(c, sent, Some(held)) && NeedsDelivery(input, held)
    case RecordDelivery(i, _, moving) =>
      i == input && JustPut(c, input, sent) && if moving then Read(c, sent, None) else ReadOwn(c, sent)
    case PlainDelete(i, held) =>
      && i == input && |sent| == 1 && Read(c, sent, Some(held)) && NeedsReplacing(input, held) && held.endpoint != ""
    case PlainRecord(i, held) =>
      && i == input && input.tls.None? && Read(c, sent, Some(held))
      && (Just(sent, DeleteMcpServer(c.name), Ok) || (|sent| == 1 && held.endpoint == "" != input.endpoint))
    case AskHealth(i, claim) =>
      && i == input && sent != [] && (claim.None? ==> Read(c, sent, None)) && (claim.Some? ==> ReadOwn(c, sent))
      && (claim.Some? ==> claim.value == Held(c, sent))
      && (|| JustRecorded(sent)
          || (Checked(c, input, sent) && Read(c, sent, claim) && (claim.Some? ==> Records(claim.value, input))))
    case AskProvenance(i) => i == input && input.container && Just(sent, GetHealth(c.name), Ok) && Read(c, sent, None)
    case MoveTake(i) => i == input && Just(sent, GetProvenance(c.name), Ok) && Read(c, sent, None)
    case MoveTakeRead(i) => i == input && Just(sent, CreateLease(c.name, c, DISCOVERED), AlreadyExists) && Read(c, sent, None)
    case Take(i) => i == input && Just(sent, GetHealth(c.name), NotFound) && Read(c, sent, None)
    case TakeRead(i) => i == input && Just(sent, CreateLease(c.name, c, input.endpoint), AlreadyExists)
    case Register(i, held) =>
      && i == input && (input.tls.Some? || input.endpoint != "")
      && (JustTaken(c, sent, input.endpoint) || (Just(sent, GetHealth(c.name), NotFound) && ReadOwn(c, sent)))
    case RecordTls(i, _) => i == input && Just(sent, PostMcpServer(c.name, input.endpoint, input.tls), Ok)
    case GiveBack(i, _) => i == input && Just(sent, PostMcpServer(c.name, input.endpoint, input.tls), AlreadyExists)
    case StartServer(i, held) =>
      && i == input && input.endpoint != ""
      && (|| FoundUnstarted(c, sent)
          || (JustRecorded(sent) && JustBefore(sent, PostMcpServer(c.name, input.endpoint, input.tls), Ok)))
    case RecordStart(i, _) => i == input && Just(sent, PostStart(c.name), Ok)
    case DeletionReadClaim => false
    case DeletionDelete(_) => false
    case DeletionRelease(_) => false
  }

  /** A call the machine makes has a cause in what it sent before. */
  lemma TrailIsACause(c: Cr, input: Input, sent: seq<Exchange>, pc: Pc)
    requires !pc.Idle? && Trail(c, input, sent, pc)
    ensures Cause(c, input, sent, RequestOf(c, pc))
  {
  }

  lemma LastTwo(sent: seq<Exchange>, x: Exchange)
    ensures var more := sent + [x];
      && more[|more| - 1] == x && more[..|more| - 1] == sent
      && (sent != [] ==> more[0] == sent[0] && more[|more| - 2] == sent[|sent| - 1])
  {
  }

  lemma HealthGoesOn(c: Cr, input: Input, sent: seq<Exchange>, pc: Pc, a: Response)
    requires pc.AskHealth? && Trail(c, input, sent, pc)
    ensures Trail(c, input, sent + [Exchange(RequestOf(c, pc), a)], Next(c, pc, a))
  {
    LastTwo(sent, Exchange(RequestOf(c, pc), a));
  }

  lemma ReadGoesOn(c: Cr, input: Input, sent: seq<Exchange>, pc: Pc, a: Response)
    requires !pc.Idle? && Reads(pc) && !pc.AskHealth? && Trail(c, input, sent, pc)
    ensures Trail(c, input, sent + [Exchange(RequestOf(c, pc), a)], Next(c, pc, a))
  {
    LastTwo(sent, Exchange(RequestOf(c, pc), a));
  }

  lemma ClaimCallGoesOn(c: Cr, input: Input, sent: seq<Exchange>, pc: Pc, a: Response)
    requires !Reads(pc) && !CallsCore(pc) && Trail(c, input, sent, pc)
    ensures Trail(c, input, sent + [Exchange(RequestOf(c, pc), a)], Next(c, pc, a))
  {
    LastTwo(sent, Exchange(RequestOf(c, pc), a));
  }

  lemma CoreCallGoesOn(c: Cr, input: Input, sent: seq<Exchange>, pc: Pc, a: Response)
    requires CallsCore(pc) && Trail(c, input, sent, pc)
    ensures Trail(c, input, sent + [Exchange(RequestOf(c, pc), a)], Next(c, pc, a))
  {
    LastTwo(sent, Exchange(RequestOf(c, pc), a));
  }

  /** A pass that a key-pinned CR has got through the check with. */
  predicate PastCheck(pc: Pc) {
    && !pc.Idle? && !pc.ReadClaim? && !pc.AskCapabilities? && !pc.RefusedDelete? && !pc.RefusedRelease?
    && !pc.DeletionReadClaim? && !pc.DeletionDelete? && !pc.DeletionRelease?
  }

  lemma ClearedGoesOn(c: Cr, input: Input, sent: seq<Exchange>, pc: Pc, a: Response)
    requires !pc.Idle? && Trail(c, input, sent, pc) && (PastCheck(pc) ==> Cleared(c, input, sent))
    ensures PastCheck(Next(c, pc, a)) ==> Cleared(c, input, sent + [Exchange(RequestOf(c, pc), a)])
  {
    var x := Exchange(RequestOf(c, pc), a);
    assert x in sent + [x] && forall y :: y in sent ==> y in sent + [x];
  }

  lemma RegisteringIsPastCheck(c: Cr, input: Input, sent: seq<Exchange>, pc: Pc)
    requires !pc.Idle? && Trail(c, input, sent, pc) && Registers(RequestOf(c, pc))
    ensures PastCheck(pc)
  {
  }

  lemma OneMore(c: Cr, input: Input, sent: seq<Exchange>, x: Exchange)
    requires AllCaused(c, input, sent) && ClearedFirst(c, input, sent)
    requires Cause(c, input, sent, x.request) && (Registers(x.request) ==> Cleared(c, input, sent))
    ensures AllCaused(c, input, sent + [x]) && ClearedFirst(c, input, sent + [x])
  {
    hide Cause, Cleared, Registers;
    var more := sent + [x];
    assert more[..|sent|] == sent;
    forall k | 0 <= k < |more| ensures Cause(c, input, more[..k], more[k].request) {
      assert k < |sent| ==> more[..k] == sent[..k];
    }
    forall k | 0 <= k < |more| && Registers(more[k].request) ensures Cleared(c, input, more[..k]) {
      assert k < |sent| ==> more[..k] == sent[..k];
    }
  }

  lemma {:induction false} PassHasTrail(c: Cr, input: Input, sent: seq<Exchange>)
    requires Follows(c, ReadClaim(input), sent)
    ensures var pc := PcAfter(c, ReadClaim(input), sent);
      Trail(c, input, sent, pc) && (PastCheck(pc) ==> Cleared(c, input, sent))
    ensures AllCaused(c, input, sent) && ClearedFirst(c, input, sent)
    decreases |sent|
  {
    if sent != [] {
      hide Trail, Cause, Cleared, PastCheck, Next, RequestOf, AllCaused, ClearedFirst, Registers;
      var before, x := sent[..|sent| - 1], sent[|sent| - 1];
      var pc := PcAfter(c, ReadClaim(input), before);
      assert sent == before + [x];
      PassHasTrail(c, input, before);
      TrailIsACause(c, input, before, pc);
      ClearedGoesOn(c, input, before, pc, x.response);
      if Registers(x.request) {
        RegisteringIsPastCheck(c, input, before, pc);
      }
      OneMore(c, input, before, x);
      if pc.AskHealth? {
        HealthGoesOn(c, input, before, pc, x.response);
      } else if Reads(pc) {
        ReadGoesOn(c, input, before, pc, x.response);
      } else if CallsCore(pc) {
        CoreCallGoesOn(c, input, before, pc, x.response);
      } else {
        ClaimCallGoesOn(c, input, before, pc, x.response);
      }
    }
  }

  /**
  A pass that has ended sent nothing without a cause, registered nothing of a key-pinned CR before core
  said that it checks keys, and left nothing undone.
  */
  lemma PassIsCaused(c: Cr, input: Input, sent: seq<Exchange>)
    requires Follows(c, ReadClaim(input), sent) && PcAfter(c, ReadClaim(input), sent).Idle?
    ensures AllCaused(c, input, sent) && ClearedFirst(c, input, sent) && !Unfinished(c, input, sent)
  {
    PassHasTrail(c, input, sent);
  }

  // ---- The same of every run of the machine ----

  /** Core said that it checks keys. */
  function Clearings(c: Cr): Change {
    (w: World, l: Label) => l == Answered(c, Heard) && PcOf(w, c).AskCapabilities?
  }

  /** Core's entry was seen to be of the CR's own pod. */
  function Sightings(c: Cr): Change {
    (w: World, l: Label) => l == Answered(c, Heard) && PcOf(w, c).AskProvenance?
  }

  function Beginnings(c: Cr): Change {
    (w: World, l: Label) => l.Begin? && l.cr == c && PcOf(w, c).Idle?
  }

  /** A pass that takes over an entry. */
  predicate TakesOverEntry(pc: Pc) {
    || pc.MoveTake? || pc.MoveTakeRead? || (pc.Deliver? && pc.moving) || (pc.RecordDelivery? && pc.moving)
  }

  lemma AnswerKeepsChecks(c: Cr, slot: Slot, pc: Pc, r: Reply)
    ensures var next := Answer(c, slot, pc, r).pc;
      && (PastCheck(next) && next.input.tls.Some? ==>
          if pc.AskCapabilities? then r.Heard? else PastCheck(pc) && pc.input == next.input)
      && (TakesOverEntry(next) ==> if pc.AskProvenance? then r.Heard? else TakesOverEntry(pc))
      && !next.ReadClaim?
  {
  }

  /**
  At every point of every run, a pass of a key-pinned CR that claims, registers, delivers or starts has
  been told in this pass that core checks keys, and one that takes over an entry that the entry is its pod's.
  */
  lemma {:induction false} EveryPassWasChecked(labels: seq<Label>, c: Cr)
    ensures var pc := PcOf(Exec(INITIAL, labels), c);
      && (PastCheck(pc) && pc.input.tls.Some? ==> Stands(labels, Clearings(c), Beginnings(c)))
      && (TakesOverEntry(pc) ==> Stands(labels, Sightings(c), Beginnings(c)))
    decreases |labels|
  {
    if labels != [] {
      var n := |labels| - 1;
      EveryPassWasChecked(labels[..n], c);
      LastLabel(labels, n);
      var w, l := At(labels, n), labels[n];
      StandsStep(labels, Clearings(c), Beginnings(c), n);
      StandsStep(labels, Sightings(c), Beginnings(c), n);
      if l.Answered? && l.cr == c {
        AnswerKeepsChecks(c, SlotOf(w, c.name), PcOf(w, c), l.reply);
      }
    }
  }
}

/**
A plain MCPServer that nothing outside disturbs: its spec stays as it is and nobody else touches the name.
Its own calls fail and its passes die anywhere, and still one pass is always enough.
*/
module RegistrationAlone {
  import opened Wrappers
  import opened RegistrationProtocol
  import opened RegistrationSafety
  import opened RegistrationRuns
  import opened RegistrationRecovery

  /** Of this name nothing happens but passes of `c` with this input; other names may do anything. */
  predicate AloneLabel(l: Label, c: Cr, input: Input) {
    match l
    case Begin(d, i) => d.name == c.name ==> l == Begin(c, input)
    case BeginDeletion(d) => d.name != c.name
    case Answered(d, _) => d.name == c.name ==> d == c
    case Crash(_) => true
    case OutsideAdds(name, _, _) => name != c.name
    case OutsideRemoves(name) => name != c.name
  }

  predicate AloneRun(labels: seq<Label>, c: Cr, input: Input) {
    forall l :: l in labels ==> AloneLabel(l, c, input)
  }

  /** The claim and core's entry are the CR's, as its spec has them, and "started" has a start behind it. */
  predicate AsAsked(c: Cr, input: Input, slot: Slot) {
    && (slot.lease.Some? ==> Holds(c, slot.lease) && slot.lease.value.endpoint == input.endpoint && slot.lease.value.tls.None?)
    && (slot.server.Some? ==>
      slot.lease.Some? && slot.server.value.endpoint == input.endpoint != "" && slot.server.value.tls.None?)
    && (slot.lease.Some? && slot.lease.value.started ==> slot.server.Some? && slot.server.value.started)
  }

  /** Where such a pass can be, and what it has made of core by then. */
  predicate AlonePass(input: Input, slot: Slot, pc: Pc) {
    match pc
    case Idle => true
    case ReadClaim(i) => i == input
    case AskHealth(i, _) => i == input
    case Take(i) => i == input && slot.server.None?
    case TakeRead(i) => i == input
    case Register(i, _) => i == input && input.endpoint != "" && slot.server.None?
    case RecordTls(i, _) => i == input && slot.server.Some?
    case StartServer(i, _) => i == input && slot.server.Some?
    case RecordStart(i, _) => i == input && slot.server.Some? && slot.server.value.started
    case _ => false
  }

  lemma AloneCallKeeps(c: Cr, input: Input, slot: Slot, pc: Pc, r: Reply, abandoned: bool)
    requires input.tls.None? && Local(c, slot, pc, abandoned)
    requires AsAsked(c, input, slot) && AlonePass(input, slot, pc)
    ensures var e := Answer(c, slot, pc, r); AsAsked(c, input, e.slot) && AlonePass(input, e.slot, e.pc)
  {
  }

  lemma {:induction false} AloneRunKeeps(labels: seq<Label>, c: Cr, input: Input)
    requires input.tls.None? && AloneRun(labels, c, input)
    ensures var w := Exec(INITIAL, labels); var slot := SlotOf(w, c.name);
      AsAsked(c, input, slot) && AlonePass(input, slot, PcOf(w, c))
    decreases |labels|
  {
    if labels != [] {
      var n := |labels| - 1;
      AloneRunKeeps(labels[..n], c, input);
      EveryRunIsSafe(labels[..n]);
      LastLabel(labels, n);
      var w, l := At(labels, n), labels[n];
      assert AloneLabel(l, c, input) && Local(c, SlotOf(w, c.name), PcOf(w, c), c in w.abandoned);
      if l.Answered? && l.cr == c {
        hide Answer, Local, AsAsked, AlonePass;
        AloneCallKeeps(c, input, SlotOf(w, c.name), PcOf(w, c), l.reply, c in w.abandoned);
      }
    }
  }

  /**
  Whatever failed, was lost or died before, one undisturbed pass of a plain MCPServer whose spec never
  changed, alone on its name, ends with claim and core as the spec asks.
  */
  lemma AlonePassConverges(labels: seq<Label>, c: Cr, input: Input)
    requires input.tls.None? && AloneRun(labels, c, input)
    ensures Converged(c, input, OnePass(c, input, SlotOf(Exec(INITIAL, labels), c.name)).0)
  {
    AloneRunKeeps(labels, c, input);
    OnePassConvergesIffRecoverable(c, input, SlotOf(Exec(INITIAL, labels), c.name));
  }
}

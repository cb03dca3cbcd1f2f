/**
 The cascaded interrupt controller as a state and one step per call or event:
 intrman's registrations, the DEV9 SPD lines (builtin/spd-irq.c,
 builtin/interrupt.c), the routing of module/irq.c, and the relay table of
 module/irqrelay.c. Every call into intrman takes intrman's answer as `ans`.
 */
module IrqState {
  import opened Common
  import opened IrqBits

  const IRQ_DEV9: nat := 13
  const SPD_BASE: nat := 46
  const SPD_LAST: nat := 58
  const SPD_LINES: nat := 13
  const MAX_IRQ_RELAYS: nat := 16

  const EPERM := 1
  const ENOENT := 2
  const ESRCH := 3
  const EIO := 5
  const ENXIO := 6
  const ENOEXEC := 8
  const ENOMEM := 12
  const EBUSY := 16
  const EINVAL := 22
  const ENOSPC := 28

  const IOP_EBUSYHAND := 104
  const IOP_ENOHAND := 105

  datatype Handler = ServiceIrq | SpdHandleIrq | Driver(id: nat)

  /** A handler and its argument; the relay's argument is a slot number. */
  datatype Callback = Callback(handler: Handler, arg: nat)

  const SPD_HANDLER := Callback(SpdHandleIrq, 0)

  /** A relay slot: line of the IOP, target in main, by RPC or by SMFLAG. */
  datatype Slot = Slot(used: bool, iop: nat, target: nat, rpc: bool)

  const UNSET := Slot(false, 0, 0, false)

  /** What the main processor is told: a command, or bits of SMFLAG and an interrupt. */
  datatype Message = Rpc(target: nat) | SmFlag(bits: nat)

  datatype State = State(
    irqs: seq<Slot>,
    spdIrqs: seq<Option<Callback>>, spdCount: int,
    stat: set<nat>, mask: set<nat>,
    handlers: map<nat, Callback>, enabled: set<nat>,
    called: seq<Callback>, sent: seq<Message>)

  predicate Shaped(s: State) {
    |s.irqs| == MAX_IRQ_RELAYS && |s.spdIrqs| == SPD_LINES
  }

  /** spd_valid_irq. */
  predicate IsSpd(irq: nat) {
    SPD_BASE <= irq <= SPD_LAST
  }

  /** The error number listed for an IOP error; those not listed read as EINVAL. */
  function ListedErrno(n: int): (r: int)
    ensures r in {1, 2, 3, 5, 6, 8, 12, 16, 22, 28}
    ensures r == 1 <==> n in {100, 102, 103}
    ensures r == 2 <==> n in {51, 105, 150, 161, 162, 202, 203, 408, 414, 415, 417, 424}
    ensures r == 3 <==> n == 407
    ensures r == 5 <==> n == 204
    ensures r == 6 <==> n in {409, 410, 411, 412}
    ensures r == 8 <==> n in {200, 201}
    ensures r == 12 <==> n == 400
    ensures r == 16 <==> n in {52, 104, 160, 205}
    ensures r == 28 <==> n == 427
  {
    if n in {100, 102, 103} then EPERM
    else if n in {51, IOP_ENOHAND, 150, 161, 162, 202, 203, 408, 414, 415, 417, 424} then ENOENT
    else if n in {52, IOP_EBUSYHAND, 160, 205} then EBUSY
    else if n in {200, 201} then ENOEXEC
    else if n in {409, 410, 411, 412} then ENXIO
    else if n == 204 then EIO
    else if n == 400 then ENOMEM
    else if n == 407 then ESRCH
    else if n == 427 then ENOSPC
    else EINVAL
  }

  /** errno_for_iop_error. */
  function ErrnoForIopError(e: int): (r: int)
    ensures e < 0 <==> r < 0
    ensures !(-1000 < e < 0) ==> r == e
    ensures -1000 < e < 0 ==>
              -r in {EPERM, ENOENT, ESRCH, EIO, ENXIO, ENOEXEC, ENOMEM, EBUSY, EINVAL, ENOSPC} && r == -ListedErrno(-e)
    ensures e == -IOP_EBUSYHAND ==> r == -EBUSY
    ensures e == -IOP_ENOHAND ==> r == -ENOENT
  {
    if -1000 < e < 0 then -ListedErrno(-e) else e
  }

  /** Error numbers are no IOP errors: translated twice, as through the SPD lines, any IOP error is EINVAL. */
  lemma {:induction false} TranslatedTwice(e: int)
    requires -1000 < e < 0
    ensures ErrnoForIopError(ErrnoForIopError(e)) == -EINVAL
  {
    var n := ListedErrno(-e);
    assert ListedErrno(n) == EINVAL;
  }

  // ----- intrman -----

  /** Fails on a registered line, or as intrman pleases; failing changes nothing. */
  function IntrmanRequest(s: State, irq: nat, cb: Callback, ans: int): (State, int) {
    if irq in s.handlers then (s, -IOP_EBUSYHAND)
    else if ans < 0 then (s, ans)
    else (s.(handlers := s.handlers[irq := cb]), 0)
  }

  function IntrmanRelease(s: State, irq: nat, ans: int): (State, int) {
    if irq !in s.handlers then (s, -IOP_ENOHAND)
    else if ans < 0 then (s, ans)
    else (s.(handlers := s.handlers - {irq}), 0)
  }

  // ----- Enabling and disabling, by either controller -----

  function EnableIrq(s: State, irq: nat): State {
    if IsSpd(irq) then s.(mask := s.mask + {irq - SPD_BASE}) else s.(enabled := s.enabled + {irq})
  }

  function DisableIrq(s: State, irq: nat): State {
    if IsSpd(irq) then s.(mask := s.mask - {irq - SPD_BASE}) else s.(enabled := s.enabled - {irq})
  }

  // ----- The intrman side of a request and a release -----

  function DirectRequest(s: State, irq: nat, cb: Callback, ans: int): (State, int) {
    var (s1, e) := IntrmanRequest(s, irq, cb, ans);
    if e < 0 then (s1, ErrnoForIopError(e)) else (EnableIrq(s1, irq), 0)
  }

  function DirectRelease(s: State, irq: nat, ans: int): (State, int) {
    var (s1, e) := IntrmanRelease(DisableIrq(s, irq), irq, ans);
    (s1, if e < 0 then ErrnoForIopError(e) else 0)
  }

  // ----- The SPD side -----

  function SpdRequest(s: State, irq: nat, cb: Callback, ans: int): (State, int)
    requires Shaped(s) && IsSpd(irq)
  {
    var i := irq - SPD_BASE;
    if s.spdIrqs[i].Some? then (s, -EINVAL)
    else
      var (s1, e) := if s.spdCount == 0 then DirectRequest(s, IRQ_DEV9, SPD_HANDLER, ans) else (s, 0);
      if e < 0 then (s1, ErrnoForIopError(e))
      else (s1.(spdCount := s1.spdCount + 1, spdIrqs := s1.spdIrqs[i := Some(cb)],
                stat := s1.stat - {i}, mask := s1.mask + {i}), 0)
  }

  function SpdRelease(s: State, irq: nat, ans: int): (State, int)
    requires Shaped(s) && IsSpd(irq)
  {
    var i := irq - SPD_BASE;
    if s.spdIrqs[i].None? then (s, -EINVAL)
    else
      var s0 := DisableIrq(s, irq);
      var (s1, e) := if s0.spdCount == 1 then DirectRelease(s0, IRQ_DEV9, ans) else (s0, 0);
      (s1.(spdCount := if e >= 0 then s1.spdCount - 1 else s1.spdCount, spdIrqs := s1.spdIrqs[i := None]),
       if e < 0 then ErrnoForIopError(e) else 0)
  }

  // ----- module/irq.c -----

  function Request(s: State, irq: nat, cb: Callback, ans: int): (r: (State, int))
    requires Shaped(s)
    ensures Shaped(r.0) && r.0.irqs == s.irqs
  {
    if IsSpd(irq) then SpdRequest(s, irq, cb, ans) else DirectRequest(s, irq, cb, ans)
  }

  function Release(s: State, irq: nat, ans: int): (r: (State, int))
    requires Shaped(s)
    ensures Shaped(r.0) && r.0.irqs == s.irqs
  {
    if IsSpd(irq) then SpdRelease(s, irq, ans) else DirectRelease(s, irq, ans)
  }

  // ----- The relay table -----

  /** The slot set for a line, searched from the first slot. */
  function FindMap(irqs: seq<Slot>, iop: nat, from: nat): (k: Option<nat>)
    requires from <= |irqs|
    ensures k.Some? ==> from <= k.value < |irqs| && irqs[k.value].used && irqs[k.value].iop == iop
    ensures k.None? ==> forall i :: from <= i < |irqs| ==> !irqs[i].used || irqs[i].iop != iop
    decreases |irqs| - from
  {
    if from == |irqs| then None
    else if irqs[from].used && irqs[from].iop == iop then Some(from)
    else FindMap(irqs, iop, from + 1)
  }

  function FindUnset(irqs: seq<Slot>, from: nat): (k: Option<nat>)
    requires from <= |irqs|
    ensures k.Some? ==> from <= k.value < |irqs| && !irqs[k.value].used
    ensures k.None? ==> forall i :: from <= i < |irqs| ==> irqs[i].used
    decreases |irqs| - from
  {
    if from == |irqs| then None else if !irqs[from].used then Some(from) else FindUnset(irqs, from + 1)
  }

  /** Slots store lines and targets in 7 bits. */
  function RequestMap(s: State, iop: nat, target: nat, rpc: bool, ans: int): (r: (State, int))
    requires Shaped(s)
    ensures Shaped(r.0)
  {
    var w := Slot(true, iop % 128, target % 128, rpc);
    if w.iop != iop || w.target != target then (s, -EINVAL)
    else if FindMap(s.irqs, iop, 0).Some? then (s, -EBUSY)
    else
      var k := FindUnset(s.irqs, 0);
      if k.None? then (s, -ENOMEM)
      else
        var (s1, e) := Request(s.(irqs := s.irqs[k.value := w]), iop, Callback(ServiceIrq, k.value), ans);
        if e < 0 then (s1.(irqs := s1.irqs[k.value := UNSET]), e) else (s1, e)
  }

  function Remap(s: State, iop: nat, target: nat, rpc: bool): (r: (State, int))
    requires Shaped(s)
    ensures Shaped(r.0)
  {
    if target % 128 != target then (s, -EINVAL)
    else
      var k := FindMap(s.irqs, iop, 0);
      if k.None? then (s, -ENXIO)
      else (s.(irqs := s.irqs[k.value := s.irqs[k.value].(target := target, rpc := rpc)]), 0)
  }

  function ReleaseMap(s: State, iop: nat, ans: int): (r: (State, int))
    requires Shaped(s)
    ensures Shaped(r.0)
  {
    var k := FindMap(s.irqs, iop, 0);
    if k.None? then (s, -ENXIO)
    else
      var (s1, e) := Release(s, iop, ans);
      if e == 0 then (s1.(irqs := s1.irqs[k.value := UNSET]), 0) else (s1, e)
  }

  // ----- Interrupts -----

  function MessageFor(target: nat, rpc: bool): Message {
    if rpc then Rpc(target) else SmFlag(Pow2(target) % 0x1_0000_0000)
  }

  /** A callback that is no cascade runs: the relay's sends, every one is recorded. */
  function Run(s: State, cb: Callback): (r: State)
    requires Shaped(s)
    ensures Shaped(r)
  {
    var s1 := s.(called := s.called + [cb]);
    if cb.handler.ServiceIrq? && cb.arg < |s.irqs| then
      var m := s.irqs[cb.arg];
      s1.(sent := s1.sent + [MessageFor(m.target, m.rpc)])
    else s1
  }

  function RunAll(s: State, cbs: seq<Callback>): (r: State)
    requires Shaped(s)
    ensures Shaped(r)
    decreases |cbs|
  {
    if cbs == [] then s else RunAll(Run(s, cbs[0]), cbs[1..])
  }

  /** Callbacks of the claimed lines in `pending` below `n`, highest line first. */
  function Descending(spdIrqs: seq<Option<Callback>>, pending: set<nat>, n: nat): seq<Callback>
    requires n <= |spdIrqs|
  {
    if n == 0 then []
    else
      (if n - 1 in pending && spdIrqs[n - 1].Some? then [spdIrqs[n - 1].value] else [])
      + Descending(spdIrqs, pending, n - 1)
  }

  /** spd_handle_irq: acknowledge what is pending and unmasked, then call back. */
  function Dispatch(s: State): (r: State)
    requires Shaped(s)
    ensures Shaped(r)
  {
    var pending := s.stat * s.mask;
    RunAll(s.(stat := s.stat - pending), Descending(s.spdIrqs, pending, SPD_LINES))
  }

  /** intrman serves an interrupt of a line that is enabled and has a handler. */
  function Interrupt(s: State, irq: nat): (r: State)
    requires Shaped(s)
    ensures Shaped(r)
  {
    if irq !in s.enabled || irq !in s.handlers then s
    else if s.handlers[irq].handler.SpdHandleIrq? then Dispatch(s)
    else Run(s, s.handlers[irq])
  }

  // ----- Steps and runs -----

  datatype Event =
    | RelayRequest(iop: nat, target: nat, rpc: bool, ans: int)
    | RelayRemap(iop: nat, target: nat, rpc: bool)
    | RelayRelease(iop: nat, ans: int)
    | DriverRequest(irq: nat, id: nat, arg: nat, ans: int)
    | DriverRelease(irq: nat, ans: int)
    | Enable(irq: nat)
    | Disable(irq: nat)
    | Raise(line: nat)
    | Interrupted(irq: nat)

  function Step(s: State, e: Event): (r: State)
    requires Shaped(s)
    ensures Shaped(r)
  {
    match e
    case RelayRequest(iop, target, rpc, ans) => RequestMap(s, iop, target, rpc, ans).0
    case RelayRemap(iop, target, rpc) => Remap(s, iop, target, rpc).0
    case RelayRelease(iop, ans) => ReleaseMap(s, iop, ans).0
    case DriverRequest(irq, id, arg, ans) => Request(s, irq, Callback(Driver(id), arg), ans).0
    case DriverRelease(irq, ans) => Release(s, irq, ans).0
    case Enable(irq) => EnableIrq(s, irq)
    case Disable(irq) => DisableIrq(s, irq)
    case Raise(line) => s.(stat := s.stat + {line})
    case Interrupted(irq) => Interrupt(s, irq)
  }

  function After(s: State, es: seq<Event>): (r: State)
    requires Shaped(s)
    ensures Shaped(r)
    decreases |es|
  {
    if es == [] then s else Step(After(s, es[..|es| - 1]), es[|es| - 1])
  }

  /** The modules have just started; drivers may already hold lines. */
  ghost predicate Initial(s: State) {
    && Shaped(s) && s.spdCount == 0 && s.mask == {} && s.called == [] && s.sent == []
    && (forall k :: 0 <= k < MAX_IRQ_RELAYS ==> s.irqs[k] == UNSET)
    && (forall i :: 0 <= i < SPD_LINES ==> s.spdIrqs[i] == None)
    && (forall irq :: irq in s.handlers ==> s.handlers[irq].handler.Driver?)
  }
}

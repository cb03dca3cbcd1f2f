/**
 The modules' static tables as objects updated in place, each function proved
 against its step in IrqState.
 */
module IrqSystem {
  import opened Common
  import opened IrqBits
  import opened IrqState
  import opened IrqLaws

  class Iop {
    const irqs: array<Slot>
    const spdIrqs: array<Option<Callback>>
    var spdCount: int
    var stat: set<nat>
    var mask: set<nat>
    var handlers: map<nat, Callback>
    var enabled: set<nat>
    var called: seq<Callback>
    var sent: seq<Message>

    ghost predicate Valid()
    {
      irqs.Length == MAX_IRQ_RELAYS && spdIrqs.Length == SPD_LINES
    }

    ghost function View(): (s: State)
      requires Valid()
      reads this, irqs, spdIrqs
      ensures Shaped(s)
    {
      State(irqs[..], spdIrqs[..], spdCount, stat, mask, handlers, enabled, called, sent)
    }

    constructor ()
      ensures Valid() && fresh(irqs) && fresh(spdIrqs) && Initial(View())
    {
      irqs := new Slot[MAX_IRQ_RELAYS](_ => UNSET);
      spdIrqs := new Option<Callback>[SPD_LINES](_ => None);
      spdCount := 0;
      stat, mask, enabled := {}, {}, {};
      handlers := map[];
      called, sent := [], [];
    }

    // ----- intrman, builtin/interrupt.c, module/irq.c -----

    method IntrmanRequestIrq(irq: nat, cb: Callback, ans: int) returns (ioperr: int)
      requires Valid()
      modifies this
      ensures (View(), ioperr) == IntrmanRequest(old(View()), irq, cb, ans)
    {
      if irq in handlers {
        return -IOP_EBUSYHAND;
      }
      if ans < 0 {
        return ans;
      }
      handlers := handlers[irq := cb];
      ioperr := 0;
    }

    method IntrmanReleaseIrq(irq: nat, ans: int) returns (ioperr: int)
      requires Valid()
      modifies this
      ensures (View(), ioperr) == IntrmanRelease(old(View()), irq, ans)
    {
      if irq !in handlers {
        return -IOP_ENOHAND;
      }
      if ans < 0 {
        return ans;
      }
      handlers := handlers - {irq};
      ioperr := 0;
    }

    method Enable(irq: nat)
      requires Valid()
      modifies this
      ensures View() == EnableIrq(old(View()), irq)
    {
      if IsSpd(irq) {
        mask := mask + {irq - SPD_BASE};
      } else {
        enabled := enabled + {irq};
      }
    }

    method Disable(irq: nat)
      requires Valid()
      modifies this
      ensures View() == DisableIrq(old(View()), irq)
    {
      if IsSpd(irq) {
        mask := mask - {irq - SPD_BASE};
      } else {
        enabled := enabled - {irq};
      }
    }

    /** request_irq__: register, then enable. */
    method RequestDirect(irq: nat, cb: Callback, ans: int) returns (err: int)
      requires Valid()
      modifies this
      ensures (View(), err) == DirectRequest(old(View()), irq, cb, ans)
    {
      var ioperr := IntrmanRequestIrq(irq, cb, ans);
      if ioperr < 0 {
        return ErrnoForIopError(ioperr);
      }
      Enable(irq);
      err := 0;
    }

    /** release_irq__: disable, then release. */
    method ReleaseDirect(irq: nat, ans: int) returns (err: int)
      requires Valid()
      modifies this
      ensures (View(), err) == DirectRelease(old(View()), irq, ans)
    {
      Disable(irq);
      var ioperr := IntrmanReleaseIrq(irq, ans);
      err := if ioperr < 0 then ErrnoForIopError(ioperr) else 0;
    }

    method SpdRequestIrq(irq: nat, cb: Callback, ans: int) returns (err: int)
      requires Valid() && IsSpd(irq)
      modifies this, spdIrqs
      ensures (View(), err) == SpdRequest(old(View()), irq, cb, ans)
      ensures err == 0 ==> stat == old(stat) - {irq - SPD_BASE} && mask == old(mask) + {irq - SPD_BASE}
    {
      var i := irq - SPD_BASE;
      if spdIrqs[i].Some? {
        return -EINVAL;
      }
      var ioperr := 0;
      if spdCount == 0 {
        ioperr := RequestDirect(IRQ_DEV9, SPD_HANDLER, ans);
      }
      if ioperr >= 0 {
        spdCount := spdCount + 1;
        spdIrqs[i] := Some(cb);
        stat := stat - {i};
        mask := mask + {i};
      }
      err := if ioperr < 0 then ErrnoForIopError(ioperr) else 0;
    }

    method SpdReleaseIrq(irq: nat, ans: int) returns (err: int)
      requires Valid() && IsSpd(irq)
      modifies this, spdIrqs
      ensures (View(), err) == SpdRelease(old(View()), irq, ans)
      ensures mask == if old(spdIrqs[irq - SPD_BASE]).Some? then old(mask) - {irq - SPD_BASE} else old(mask)
    {
      var i := irq - SPD_BASE;
      if spdIrqs[i].None? {
        return -EINVAL;
      }
      Disable(irq);
      var ioperr := 0;
      if spdCount == 1 {
        ioperr := ReleaseDirect(IRQ_DEV9, ans);
      }
      if ioperr >= 0 {
        spdCount := spdCount - 1;
      }
      spdIrqs[i] := None;
      err := if ioperr < 0 then ErrnoForIopError(ioperr) else 0;
    }

    method RequestIrq(irq: nat, cb: Callback, ans: int) returns (err: int)
      requires Valid()
      modifies this, spdIrqs
      ensures (View(), err) == Request(old(View()), irq, cb, ans)
    {
      if IsSpd(irq) {
        err := SpdRequestIrq(irq, cb, ans);
      } else {
        err := RequestDirect(irq, cb, ans);
      }
    }

    method ReleaseIrq(irq: nat, ans: int) returns (err: int)
      requires Valid()
      modifies this, spdIrqs
      ensures (View(), err) == Release(old(View()), irq, ans)
    {
      if IsSpd(irq) {
        err := SpdReleaseIrq(irq, ans);
      } else {
        err := ReleaseDirect(irq, ans);
      }
    }

    // ----- module/irqrelay.c -----

    method FindMapSlot(iop: nat) returns (k: Option<nat>)
      requires Valid()
      ensures k == FindMap(irqs[..], iop, 0)
    {
      for i := 0 to irqs.Length
        invariant FindMap(irqs[..], iop, i) == FindMap(irqs[..], iop, 0)
      {
        if irqs[i].used && irqs[i].iop == iop {
          return Some(i);
        }
      }
      k := None;
    }

    method FindUnsetSlot() returns (k: Option<nat>)
      requires Valid()
      ensures k == FindUnset(irqs[..], 0)
    {
      for i := 0 to irqs.Length
        invariant FindUnset(irqs[..], i) == FindUnset(irqs[..], 0)
      {
        if !irqs[i].used {
          return Some(i);
        }
      }
      k := None;
    }

    method RelayRequestMap(iop: nat, target: nat, rpc: bool, ans: int) returns (err: int)
      requires Valid()
      modifies this, irqs, spdIrqs
      ensures (View(), err) == RequestMap(old(View()), iop, target, rpc, ans)
      ensures old(Inv(View())) ==>
                var m := old(Targets(irqs[..]));
                && Inv(View()) && (err < 0 ==> View() == old(View()))
                && if iop >= 128 || target >= 128 then err == -EINVAL
                   else if iop in m then err == -EBUSY
                   else if |m| == MAX_IRQ_RELAYS then err == -ENOMEM
                   else err == 0 ==> Targets(irqs[..]) == m[iop := (target, rpc)]
    {
      hide Inv, Targets;
      if Inv(View()) {
        RequestRefinesMap(View(), iop, target, rpc, ans);
      }
      var w := Slot(true, iop % 128, target % 128, rpc);
      if w.iop != iop || w.target != target {
        return -EINVAL;
      }
      var m := FindMapSlot(iop);
      if m.Some? {
        return -EBUSY;
      }
      var k := FindUnsetSlot();
      if k.None? {
        return -ENOMEM;
      }
      irqs[k.value] := w;
      err := RequestIrq(irqs[k.value].iop, Callback(ServiceIrq, k.value), ans);
      if err < 0 {
        irqs[k.value] := UNSET;
      }
    }

    method RelayRemapMap(iop: nat, target: nat, rpc: bool) returns (err: int)
      requires Valid()
      modifies this, irqs
      ensures (View(), err) == Remap(old(View()), iop, target, rpc)
      ensures old(Inv(View())) ==>
                var m := old(Targets(irqs[..]));
                && Inv(View()) && (err < 0 ==> View() == old(View()))
                && if target >= 128 then err == -EINVAL
                   else if iop !in m then err == -ENXIO
                   else err == 0 && Targets(irqs[..]) == m[iop := (target, rpc)]
    {
      hide Inv, Targets;
      if Inv(View()) {
        RemapRefinesMap(View(), iop, target, rpc);
      }
      if target % 128 != target {
        return -EINVAL;
      }
      var m := FindMapSlot(iop);
      if m.None? {
        return -ENXIO;
      }
      irqs[m.value] := irqs[m.value].(target := target, rpc := rpc);
      err := 0;
    }

    method RelayReleaseMap(iop: nat, ans: int) returns (err: int)
      requires Valid()
      modifies this, irqs, spdIrqs
      ensures (View(), err) == ReleaseMap(old(View()), iop, ans)
      ensures old(Inv(View())) ==>
                var m := old(Targets(irqs[..]));
                && Inv(View()) && (iop !in m ==> err == -ENXIO && View() == old(View()))
                && Targets(irqs[..]) == if err == 0 then m - {iop} else m
    {
      hide Inv, Targets;
      if Inv(View()) {
        ReleaseRefinesMap(View(), iop, ans);
      }
      var m := FindMapSlot(iop);
      if m.None? {
        return -ENXIO;
      }
      err := ReleaseIrq(iop, ans);
      if err == 0 {
        irqs[m.value] := UNSET;
      }
    }

    // ----- Interrupts -----

    /** A driver's callback is recorded; the relay's, service_irq, also sends. */
    method CallBack(cb: Callback)
      requires Valid()
      modifies this
      ensures View() == Run(old(View()), cb)
    {
      called := called + [cb];
      if cb.handler.ServiceIrq? && cb.arg < irqs.Length {
        var m := irqs[cb.arg];
        sent := sent + [MessageFor(m.target, m.rpc)];
      }
    }

    /** The callbacks from line `n` down stay the same while a higher pending line is dropped. */
    static lemma {:induction false} DescendingBelow(cbs: seq<Option<Callback>>, p: set<nat>, q: set<nat>, n: nat)
      requires n <= |cbs| && forall i :: 0 <= i < n ==> (i in p <==> i in q)
      ensures Descending(cbs, p, n) == Descending(cbs, q, n)
    {
      if n > 0 {
        DescendingBelow(cbs, p, q, n - 1);
      }
    }

    /** Lines above the highest pending one contribute nothing. */
    static lemma {:induction false} DescendingFrom(cbs: seq<Option<Callback>>, p: set<nat>, k: nat, n: nat)
      requires k in p && k < n <= |cbs| && forall i :: i in p ==> i <= k
      ensures Descending(cbs, p, n)
           == (if cbs[k].Some? then [cbs[k].value] else []) + Descending(cbs, p - {k}, k)
      ensures Descending(cbs, p - {k}, n) == Descending(cbs, p - {k}, k)
    {
      DescendingBelow(cbs, p, p - {k}, k);
      if n > k + 1 {
        DescendingFrom(cbs, p, k, n - 1);
        assert n - 1 !in p;
        assert [] + Descending(cbs, p, n - 1) == Descending(cbs, p, n - 1);
        assert [] + Descending(cbs, p - {k}, n - 1) == Descending(cbs, p - {k}, n - 1);
      } else {
        assert [] + Descending(cbs, p - {k}, k) == Descending(cbs, p - {k}, k);
      }
    }

    static lemma {:induction false} NothingPending(cbs: seq<Option<Callback>>, n: nat)
      requires n <= |cbs|
      ensures Descending(cbs, {}, n) == []
    {
      if n > 0 {
        NothingPending(cbs, n - 1);
      }
    }

    /**
     spd_handle_irq. The loop indexes only lines that exist, since only they can be
     unmasked, and `fls` picks the highest pending one.
     */
    method HandleSpdIrq()
      requires Valid()
      requires forall i :: i in mask ==> i < SPD_LINES
      modifies this
      ensures View() == Dispatch(old(View()))
    {
      var pending := stat * mask;
      stat := stat - pending;
      ghost var todo := RunAll(View(), Descending(spdIrqs[..], pending, SPD_LINES));
      while pending != {}
        invariant forall i :: i in pending ==> i < SPD_LINES
        invariant RunAll(View(), Descending(spdIrqs[..], pending, SPD_LINES)) == todo
        decreases pending
      {
        var irqSpd := TopLine(pending);
        DescendingFrom(spdIrqs[..], pending, irqSpd, SPD_LINES);
        ghost var rest := Descending(spdIrqs[..], pending - {irqSpd}, irqSpd);
        assert [] + rest == rest;
        if spdIrqs[irqSpd].Some? {
          RunFirst(View(), spdIrqs[irqSpd].value, rest);
          CallBack(spdIrqs[irqSpd].value);
        }
        pending := pending - {irqSpd};
      }
      NothingPending(spdIrqs[..], SPD_LINES);
    }

    static lemma {:induction false} RunFirst(s: State, cb: Callback, rest: seq<Callback>)
      requires Shaped(s)
      ensures RunAll(s, [cb] + rest) == RunAll(Run(s, cb), rest)
    {
      assert ([cb] + rest)[1..] == rest;
    }

    static ghost function Highest(bits: set<nat>): (k: nat)
      requires bits != {}
      ensures k in bits && forall i :: i in bits ==> i <= k
    {
      var k :| k in bits;
      if bits == {k} then k
      else
        var rest := bits - {k};
        assert forall i :: i in bits ==> i == k || i in rest;
        var h := Highest(rest);
        if h < k then k else h
    }

    /** fls of the 16-bit register, less one, is the highest line in it. */
    static method TopLine(pending: set<nat>) returns (line: nat)
      requires pending != {} && forall i :: i in pending ==> i < SPD_LINES
      ensures line in pending && forall i :: i in pending ==> i <= line
    {
      ghost var k := Highest(pending);
      var word := Word(pending, 16);
      HighestBit(pending, 16, k);
      Powers();
      var last := Fls(word);
      assert Pow2(last) == 2 * Pow2(last - 1);
      TopBitIsUnique(word, last - 1, k);
      line := last - 1;
    }

    method ServeInterrupt(irq: nat)
      requires Valid()
      requires forall i :: i in mask ==> i < SPD_LINES
      modifies this
      ensures View() == Interrupt(old(View()), irq)
    {
      if irq in enabled && irq in handlers {
        if handlers[irq].handler.SpdHandleIrq? {
          HandleSpdIrq();
        } else {
          CallBack(handlers[irq]);
        }
      }
    }
  }
}

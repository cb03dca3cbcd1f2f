/**
 Laws of the interrupt modules over every run: the relay table as a partial map,
 who points at which slot, the SPD use count, and exact dispatch.
 */
module IrqLaws {
  import opened Common
  import opened IrqState

  /** The callback registered for a line, with whichever controller the line has. */
  function HandlerOf(s: State, irq: nat): Option<Callback>
    requires Shaped(s)
  {
    if IsSpd(irq) then s.spdIrqs[irq - SPD_BASE]
    else if irq in s.handlers then Some(s.handlers[irq])
    else None
  }

  predicate IsEnabled(s: State, irq: nat) {
    if IsSpd(irq) then irq - SPD_BASE in s.mask else irq in s.enabled
  }

  /** DEV9 is cascaded to the SPD handler. */
  predicate Cascaded(s: State) {
    IRQ_DEV9 in s.handlers && s.handlers[IRQ_DEV9].handler.SpdHandleIrq?
  }

  // ----- Requests and releases, by their effect -----

  /** Nothing changed about lines other than `irq`, except perhaps who has DEV9. */
  ghost predicate OthersKept(s: State, t: State, irq: nat)
    requires Shaped(s) && Shaped(t)
  {
    && t.irqs == s.irqs
    && (forall l :: l != irq && l != IRQ_DEV9 ==> HandlerOf(t, l) == HandlerOf(s, l))
    && (forall l :: l != irq && l != IRQ_DEV9 ==> IsEnabled(t, l) == IsEnabled(s, l))
    && t.called == s.called && t.sent == s.sent
  }

  lemma {:induction false} RequestEffect(s: State, irq: nat, cb: Callback, ans: int)
    requires Shaped(s)
    ensures var (t, e) := Request(s, irq, cb, ans);
            && e <= 0 && OthersKept(s, t, irq)
            && (e == 0 ==> HandlerOf(s, irq) == None && HandlerOf(t, irq) == Some(cb) && IsEnabled(t, irq))
            && (e < 0 ==> t == s)
            && (irq != IRQ_DEV9 ==>
                  HandlerOf(t, IRQ_DEV9) == HandlerOf(s, IRQ_DEV9)
                  || (HandlerOf(s, IRQ_DEV9) == None && HandlerOf(t, IRQ_DEV9) == Some(SPD_HANDLER)))
  {
  }

  lemma {:induction false} ReleaseEffect(s: State, irq: nat, ans: int)
    requires Shaped(s)
    ensures var (t, e) := Release(s, irq, ans);
            && e <= 0 && OthersKept(s, t, irq)
            && (HandlerOf(t, irq) == HandlerOf(s, irq) || HandlerOf(t, irq) == None)
            && (e == 0 ==> HandlerOf(t, irq) == None)
            && (irq != IRQ_DEV9 ==>
                  HandlerOf(t, IRQ_DEV9) == HandlerOf(s, IRQ_DEV9) || HandlerOf(t, IRQ_DEV9) == None)
  {
  }

  // ----- The table -----

  ghost predicate TableInv(irqs: seq<Slot>) {
    && (forall k :: 0 <= k < |irqs| ==>
          if irqs[k].used then irqs[k].iop < 128 && irqs[k].target < 128 else irqs[k] == UNSET)
    && (forall j, k :: 0 <= j < k < |irqs| && irqs[j].used && irqs[k].used ==> irqs[j].iop != irqs[k].iop)
  }

  /** Where a registered callback of the relay points. */
  ghost predicate PointsHome(irqs: seq<Slot>, irq: nat, cb: Callback) {
    cb.handler.ServiceIrq? ==> cb.arg < |irqs| && irqs[cb.arg].used && irqs[cb.arg].iop == irq
  }

  /** Holds in every run, whatever fails and whoever releases what. */
  ghost predicate Inv(s: State) {
    && Shaped(s) && TableInv(s.irqs)
    && (forall i :: i in s.mask ==> i < SPD_LINES)
    && (forall irq :: HandlerOf(s, irq).Some? ==> PointsHome(s.irqs, irq, HandlerOf(s, irq).value))
    && (forall irq :: HandlerOf(s, irq).Some? && HandlerOf(s, irq).value.handler.SpdHandleIrq? ==> irq == IRQ_DEV9)
  }

  lemma {:induction false} MaskKept(s: State, irq: nat, cb: Callback, ans: int)
    requires Shaped(s) && forall i :: i in s.mask ==> i < SPD_LINES
    ensures forall i :: i in Request(s, irq, cb, ans).0.mask ==> i < SPD_LINES
    ensures forall i :: i in Release(s, irq, ans).0.mask ==> i < SPD_LINES
  {
  }

  /** A request by anyone, with a callback that points home or is a driver's. */
  lemma {:induction false} RequestInv(s: State, irq: nat, cb: Callback, ans: int)
    requires Inv(s) && PointsHome(s.irqs, irq, cb) && !cb.handler.SpdHandleIrq?
    ensures Inv(Request(s, irq, cb, ans).0)
  {
    hide Request, Release;
    RequestEffect(s, irq, cb, ans);
    MaskKept(s, irq, cb, ans);
    var t := Request(s, irq, cb, ans).0;
    forall l | HandlerOf(t, l).Some?
      ensures PointsHome(t.irqs, l, HandlerOf(t, l).value)
      ensures HandlerOf(t, l).value.handler.SpdHandleIrq? ==> l == IRQ_DEV9
    {
      if HandlerOf(t, l) != HandlerOf(s, l) {
        assert l == irq || l == IRQ_DEV9;
      }
    }
  }

  lemma {:induction false} ReleaseInv(s: State, irq: nat, ans: int)
    requires Inv(s)
    ensures Inv(Release(s, irq, ans).0)
  {
    hide Request, Release;
    ReleaseEffect(s, irq, ans);
    MaskKept(s, irq, SPD_HANDLER, ans);
    var t := Release(s, irq, ans).0;
    forall l | HandlerOf(t, l).Some?
      ensures PointsHome(t.irqs, l, HandlerOf(t, l).value)
      ensures HandlerOf(t, l).value.handler.SpdHandleIrq? ==> l == IRQ_DEV9
    {
      assert HandlerOf(t, l) == HandlerOf(s, l);
    }
  }

  /** A slot can be rewritten while nobody points at it, or without changing its line. */
  lemma {:induction false} SlotInv(s: State, k: nat, w: Slot)
    requires Inv(s) && k < |s.irqs|
    requires if w.used then w.iop < 128 && w.target < 128 else w == UNSET
    requires forall j :: 0 <= j < |s.irqs| && j != k && s.irqs[j].used && w.used ==> s.irqs[j].iop != w.iop
    requires (w.used && s.irqs[k].used && w.iop == s.irqs[k].iop)
          || forall l :: HandlerOf(s, l).Some? && HandlerOf(s, l).value.handler.ServiceIrq? ==>
                         HandlerOf(s, l).value.arg != k
    ensures Inv(s.(irqs := s.irqs[k := w]))
  {
    var t := s.(irqs := s.irqs[k := w]);
    forall l | HandlerOf(t, l).Some?
      ensures PointsHome(t.irqs, l, HandlerOf(t, l).value)
      ensures HandlerOf(t, l).value.handler.SpdHandleIrq? ==> l == IRQ_DEV9
    {
      assert HandlerOf(t, l) == HandlerOf(s, l);
    }
  }

  lemma {:induction false} RequestMapInv(s: State, iop: nat, target: nat, rpc: bool, ans: int)
    requires Inv(s)
    ensures Inv(RequestMap(s, iop, target, rpc, ans).0)
  {
    hide Request, Release, FindMap, FindUnset;
    var w := Slot(true, iop % 128, target % 128, rpc);
    var k := FindUnset(s.irqs, 0);
    if w.iop == iop && w.target == target && FindMap(s.irqs, iop, 0).None? && k.Some? {
      SlotInv(s, k.value, w);
      var s0 := s.(irqs := s.irqs[k.value := w]);
      var cb := Callback(ServiceIrq, k.value);
      RequestInv(s0, iop, cb, ans);
      RequestEffect(s0, iop, cb, ans);
      var (s1, e) := Request(s0, iop, cb, ans);
      if e < 0 {
        assert s1.(irqs := s1.irqs[k.value := UNSET]) == s by {
          assert s.irqs[k.value] == UNSET;
          assert s0.irqs[k.value := UNSET] == s.irqs;
        }
      }
    }
  }

  lemma {:induction false} RemapInv(s: State, iop: nat, target: nat, rpc: bool)
    requires Inv(s)
    ensures Inv(Remap(s, iop, target, rpc).0)
  {
    hide FindMap;
    var k := FindMap(s.irqs, iop, 0);
    if target % 128 == target && k.Some? {
      SlotInv(s, k.value, s.irqs[k.value].(target := target, rpc := rpc));
    }
  }

  lemma {:induction false} ReleaseMapInv(s: State, iop: nat, ans: int)
    requires Inv(s)
    ensures Inv(ReleaseMap(s, iop, ans).0)
  {
    hide FindMap, Release, Request;
    var k := FindMap(s.irqs, iop, 0);
    if k.Some? {
      ReleaseInv(s, iop, ans);
      ReleaseEffect(s, iop, ans);
      var (s1, e) := Release(s, iop, ans);
      if e == 0 {
        forall l | HandlerOf(s1, l).Some? && HandlerOf(s1, l).value.handler.ServiceIrq?
          ensures HandlerOf(s1, l).value.arg != k.value
        {
          assert PointsHome(s1.irqs, l, HandlerOf(s1, l).value);
        }
        SlotInv(s1, k.value, UNSET);
      }
    }
  }

  // ----- Dispatch -----

  /** Claimed pending lines below `n`, highest first. */
  function Lines(spdIrqs: seq<Option<Callback>>, pending: set<nat>, n: nat): seq<nat>
    requires n <= |spdIrqs|
  {
    if n == 0 then []
    else (if n - 1 in pending && spdIrqs[n - 1].Some? then [n - 1] else []) + Lines(spdIrqs, pending, n - 1)
  }

  ghost predicate CallsOf(cbs: seq<Option<Callback>>, pending: set<nat>, n: nat, ls: seq<nat>, ds: seq<Callback>)
    requires n <= |cbs|
  {
    && |ds| == |ls|
    && (forall a :: 0 <= a < |ls| ==> ls[a] < n && ls[a] in pending && cbs[ls[a]] == Some(ds[a]))
    && (forall a, b :: 0 <= a < b < |ls| ==> ls[a] > ls[b])
    && (forall i :: 0 <= i < n && i in pending && cbs[i].Some? ==> i in ls)
  }

  lemma {:induction false} OneMoreLine(cbs: seq<Option<Callback>>, pending: set<nat>, n: nat,
                                       ls: seq<nat>, ds: seq<Callback>)
    requires n < |cbs| && CallsOf(cbs, pending, n, ls, ds)
    ensures if n in pending && cbs[n].Some? then CallsOf(cbs, pending, n + 1, [n] + ls, [cbs[n].value] + ds)
            else CallsOf(cbs, pending, n + 1, ls, ds)
  {
    if n in pending && cbs[n].Some? {
      var ls', ds' := [n] + ls, [cbs[n].value] + ds;
      forall a | 0 <= a < |ls'|
        ensures ls'[a] < n + 1 && ls'[a] in pending && cbs[ls'[a]] == Some(ds'[a])
      {
        if a > 0 {
          assert ls'[a] == ls[a - 1] && ds'[a] == ds[a - 1];
        }
      }
      forall i | 0 <= i < n + 1 && i in pending && cbs[i].Some?
        ensures i in ls'
      {
        assert i == n || i in ls;
      }
    }
  }

  /**
   The lines called back are exactly the pending, claimed ones, each once, in
   descending order, with their own callbacks.
   */
  lemma {:induction false} DispatchedLines(cbs: seq<Option<Callback>>, pending: set<nat>, n: nat)
    requires n <= |cbs|
    ensures CallsOf(cbs, pending, n, Lines(cbs, pending, n), Descending(cbs, pending, n))
  {
    hide CallsOf, Lines, Descending;
    if n == 0 {
      NoLines(cbs, pending);
    } else {
      var ls, ds := Lines(cbs, pending, n - 1), Descending(cbs, pending, n - 1);
      DispatchedLines(cbs, pending, n - 1);
      OneMoreLine(cbs, pending, n - 1, ls, ds);
      LinesStep(cbs, pending, n - 1);
    }
  }

  lemma {:induction false} LinesStep(cbs: seq<Option<Callback>>, pending: set<nat>, n: nat)
    requires n < |cbs|
    ensures var ls, ds := Lines(cbs, pending, n), Descending(cbs, pending, n);
            if n in pending && cbs[n].Some?
            then Lines(cbs, pending, n + 1) == [n] + ls && Descending(cbs, pending, n + 1) == [cbs[n].value] + ds
            else Lines(cbs, pending, n + 1) == ls && Descending(cbs, pending, n + 1) == ds
  {
  }

  lemma {:induction false} NoLines(cbs: seq<Option<Callback>>, pending: set<nat>)
    ensures CallsOf(cbs, pending, 0, Lines(cbs, pending, 0), Descending(cbs, pending, 0))
  {
  }

  /** The messages the callbacks send. */
  function Messages(irqs: seq<Slot>, cbs: seq<Callback>): seq<Message> {
    if cbs == [] then []
    else
      (if cbs[0].handler.ServiceIrq? && cbs[0].arg < |irqs|
       then [MessageFor(irqs[cbs[0].arg].target, irqs[cbs[0].arg].rpc)] else [])
      + Messages(irqs, cbs[1..])
  }

  /** Running callbacks changes nothing but the two logs. */
  lemma {:induction false} RunAllEffect(s: State, cbs: seq<Callback>)
    requires Shaped(s)
    ensures RunAll(s, cbs) == s.(called := s.called + cbs, sent := s.sent + Messages(s.irqs, cbs))
    decreases |cbs|
  {
    if cbs == [] {
      assert s.called + [] == s.called && s.sent + [] == s.sent;
    } else {
      var s1 := Run(s, cbs[0]);
      RunAllEffect(s1, cbs[1..]);
      assert s.called + [cbs[0]] + cbs[1..] == s.called + cbs;
      assert s1.sent + Messages(s.irqs, cbs[1..]) == s.sent + Messages(s.irqs, cbs);
    }
  }

  lemma {:induction false} DispatchEffect(s: State)
    requires Shaped(s)
    ensures var pending := s.stat * s.mask;
            var cbs := Descending(s.spdIrqs, pending, SPD_LINES);
            Dispatch(s) == s.(stat := s.stat - pending, called := s.called + cbs,
                              sent := s.sent + Messages(s.irqs, cbs))
  {
    var pending := s.stat * s.mask;
    RunAllEffect(s.(stat := s.stat - pending), Descending(s.spdIrqs, pending, SPD_LINES));
  }

  lemma {:induction false} InterruptKeeps(s: State, irq: nat)
    requires Shaped(s)
    ensures var t := Interrupt(s, irq);
            t == s.(stat := t.stat, called := t.called, sent := t.sent)
  {
    DispatchEffect(s);
  }

  lemma {:induction false} LogsDoNotMatter(s: State, t: State)
    requires Inv(s) && t == s.(stat := t.stat, called := t.called, sent := t.sent)
    ensures Inv(t)
  {
    assert forall l :: HandlerOf(t, l) == HandlerOf(s, l);
  }

  lemma {:induction false} SwitchInv(s: State, irq: nat)
    requires Inv(s)
    ensures Inv(EnableIrq(s, irq)) && Inv(DisableIrq(s, irq))
  {
    assert forall l :: HandlerOf(EnableIrq(s, irq), l) == HandlerOf(s, l);
    assert forall l :: HandlerOf(DisableIrq(s, irq), l) == HandlerOf(s, l);
  }

  /** Every event keeps the invariant. */
  lemma {:induction false} StepInv(s: State, e: Event)
    requires Inv(s)
    ensures Inv(Step(s, e))
  {
    hide Inv, RequestMap, Remap, ReleaseMap, Request, Release, Interrupt;
    InvShaped(s);
    match e
    case RelayRequest(iop, target, rpc, ans) => RequestMapInv(s, iop, target, rpc, ans);
    case RelayRemap(iop, target, rpc) => RemapInv(s, iop, target, rpc);
    case RelayRelease(iop, ans) => ReleaseMapInv(s, iop, ans);
    case DriverRequest(irq, id, arg, ans) => RequestInv(s, irq, Callback(Driver(id), arg), ans);
    case DriverRelease(irq, ans) => ReleaseInv(s, irq, ans);
    case Enable(irq) => SwitchInv(s, irq);
    case Disable(irq) => SwitchInv(s, irq);
    case Raise(line) => LogsDoNotMatter(s, s.(stat := s.stat + {line}));
    case Interrupted(irq) =>
      InterruptKeeps(s, irq);
      LogsDoNotMatter(s, Interrupt(s, irq));
  }

  lemma {:induction false} InvShaped(s: State)
    requires Inv(s)
    ensures Shaped(s)
  {
  }

  lemma {:induction false} InvTable(s: State)
    requires Inv(s)
    ensures TableInv(s.irqs)
  {
  }

  lemma {:induction false} InitialInv(s: State)
    requires Initial(s)
    ensures Inv(s)
  {
  }

  /**
   In every run: set slots hold distinct lines and 7-bit values, every registered
   service_irq points at the set slot of its own line, only lines that exist are
   unmasked, and only DEV9 is cascaded.
   */
  lemma {:induction false} RunInv(s: State, es: seq<Event>)
    requires Initial(s)
    ensures Inv(After(s, es))
    decreases |es|
  {
    hide Inv, Step;
    if es == [] {
      InitialInv(s);
    } else {
      RunInv(s, es[..|es| - 1]);
      StepInv(After(s, es[..|es| - 1]), es[|es| - 1]);
    }
  }

  // ----- The table as a partial map of capacity 16 -----

  /** Lines mapped to their targets. */
  ghost function Targets(irqs: seq<Slot>): map<nat, (nat, bool)> {
    map l: nat | l < 128 && FindMap(irqs, l, 0).Some? ::
      (irqs[FindMap(irqs, l, 0).value].target, irqs[FindMap(irqs, l, 0).value].rpc)
  }

  lemma {:induction false} FindMapTargets(irqs: seq<Slot>, iop: nat)
    requires TableInv(irqs)
    ensures var k := FindMap(irqs, iop, 0);
            if k.None? then iop !in Targets(irqs)
            else iop in Targets(irqs) && Targets(irqs)[iop] == (irqs[k.value].target, irqs[k.value].rpc)
  {
    hide FindMap;
  }

  lemma {:induction false} FoundAt(irqs: seq<Slot>, k: nat)
    requires TableInv(irqs) && k < |irqs| && irqs[k].used
    ensures FindMap(irqs, irqs[k].iop, 0) == Some(k)
  {
    hide FindMap;
    var j := FindMap(irqs, irqs[k].iop, 0);
    assert j.Some? && irqs[j.value].iop == irqs[k].iop;
  }

  /** Every set slot is an entry of the map. */
  lemma {:induction false} SlotInTargets(irqs: seq<Slot>, k: nat)
    requires TableInv(irqs) && k < |irqs| && irqs[k].used
    ensures irqs[k].iop in Targets(irqs) && Targets(irqs)[irqs[k].iop] == (irqs[k].target, irqs[k].rpc)
  {
    FoundAt(irqs, k);
    FindMapTargets(irqs, irqs[k].iop);
  }

  /** A slot that two tables share is found in both. */
  lemma {:induction false} FoundInBoth(irqs: seq<Slot>, t: seq<Slot>, l: nat)
    requires TableInv(t)
    requires var k := FindMap(irqs, l, 0); k.Some? ==> k.value < |t| && t[k.value] == irqs[k.value]
    ensures FindMap(irqs, l, 0).Some? ==> FindMap(t, l, 0) == FindMap(irqs, l, 0)
  {
    hide FindMap, TableInv;
    if FindMap(irqs, l, 0).Some? {
      FoundAt(t, FindMap(irqs, l, 0).value);
    }
  }

  /** Lines of other slots keep their slots. */
  lemma {:induction false} OtherSlots(irqs: seq<Slot>, k: nat, w: Slot, l: nat)
    requires k < |irqs| && TableInv(irqs) && TableInv(irqs[k := w])
    requires (irqs[k].used ==> l != irqs[k].iop) && (w.used ==> l != w.iop)
    ensures FindMap(irqs[k := w], l, 0) == FindMap(irqs, l, 0)
  {
    hide FindMap, TableInv;
    FoundInBoth(irqs, irqs[k := w], l);
    FoundInBoth(irqs[k := w], irqs, l);
  }

  /** Writing one slot, seen in the map. */
  lemma {:induction false} SlotTargets(irqs: seq<Slot>, k: nat, w: Slot)
    requires k < |irqs| && TableInv(irqs) && TableInv(irqs[k := w])
    requires irqs[k].used && w.used ==> w.iop == irqs[k].iop
    ensures Targets(irqs[k := w]) ==
            if w.used then Targets(irqs)[w.iop := (w.target, w.rpc)]
            else if irqs[k].used then Targets(irqs) - {irqs[k].iop}
            else Targets(irqs)
  {
    hide TableInv, FindMap, Targets;
    var t := irqs[k := w];
    var a, b := Targets(irqs), Targets(t);
    var c := if w.used then a[w.iop := (w.target, w.rpc)]
             else if irqs[k].used then a - {irqs[k].iop} else a;
    forall l: nat
      ensures l in b <==> l in c
      ensures l in b ==> b[l] == c[l]
    {
      FindMapTargets(irqs, l);
      FindMapTargets(t, l);
      if w.used && l == w.iop {
        SlotInTargets(t, k);
      } else if irqs[k].used && l == irqs[k].iop {
        Emptied(irqs, k, w);
      } else {
        OtherSlots(irqs, k, w, l);
      }
    }
    assert b.Keys == c.Keys;
  }

  lemma {:induction false} Emptied(irqs: seq<Slot>, k: nat, w: Slot)
    requires k < |irqs| && TableInv(irqs) && irqs[k].used && !w.used
    ensures FindMap(irqs[k := w], irqs[k].iop, 0).None?
  {
    hide FindMap;
  }

  /** The map is full exactly when every slot is set. */
  lemma {:induction false} TargetsSize(irqs: seq<Slot>)
    requires TableInv(irqs)
    ensures |Targets(irqs)| <= |irqs|
    ensures |Targets(irqs)| == |irqs| <==> forall k :: 0 <= k < |irqs| ==> irqs[k].used
  {
    hide TableInv, FindMap;
    if irqs == [] {
      assert Targets(irqs) == map[];
    } else {
      hide Targets;
      var init, last := irqs[..|irqs| - 1], irqs[|irqs| - 1];
      InitTable(irqs);
      TargetsSize(init);
      LastTarget(irqs);
      assert forall k :: 0 <= k < |init| ==> irqs[k] == init[k];
      if last.used {
        var m, n := Targets(init), Targets(irqs);
        assert n.Keys == m.Keys + {last.iop};
        assert |n| == |m| + 1;
      }
    }
  }

  lemma {:induction false} InitTable(irqs: seq<Slot>)
    requires irqs != [] && TableInv(irqs)
    ensures TableInv(irqs[..|irqs| - 1])
  {
  }

  lemma {:induction false} LastTarget(irqs: seq<Slot>)
    requires irqs != [] && TableInv(irqs) && TableInv(irqs[..|irqs| - 1])
    ensures var last, before := irqs[|irqs| - 1], Targets(irqs[..|irqs| - 1]);
            if last.used then last.iop !in before && Targets(irqs) == before[last.iop := (last.target, last.rpc)]
            else Targets(irqs) == before
  {
    hide TableInv, FindMap, Targets;
    var init, last := irqs[..|irqs| - 1], irqs[|irqs| - 1];
    var a, b := Targets(init), Targets(irqs);
    if last.used {
      SlotInTargets(irqs, |irqs| - 1);
      NotBefore(irqs);
    }
    forall l: nat | !(last.used && l == last.iop)
      ensures l in b <==> l in a
      ensures l in a ==> b[l] == a[l]
    {
      FindMapTargets(irqs, l);
      FindMapTargets(init, l);
      FoundBefore(irqs, l);
    }
    assert b.Keys == a.Keys + if last.used then {last.iop} else {};
  }

  lemma {:induction false} NotBefore(irqs: seq<Slot>)
    requires irqs != [] && TableInv(irqs) && TableInv(irqs[..|irqs| - 1]) && irqs[|irqs| - 1].used
    ensures irqs[|irqs| - 1].iop !in Targets(irqs[..|irqs| - 1])
  {
    hide FindMap, Targets;
    var init := irqs[..|irqs| - 1];
    FindMapTargets(init, irqs[|irqs| - 1].iop);
    assert forall i :: 0 <= i < |init| ==> init[i] == irqs[i];
  }

  lemma {:induction false} FoundBefore(irqs: seq<Slot>, l: nat)
    requires irqs != [] && TableInv(irqs) && TableInv(irqs[..|irqs| - 1])
    requires irqs[|irqs| - 1].used ==> l != irqs[|irqs| - 1].iop
    ensures FindMap(irqs, l, 0) == FindMap(irqs[..|irqs| - 1], l, 0)
  {
    hide FindMap, TableInv;
    FoundInBoth(irqs, irqs[..|irqs| - 1], l);
    FoundInBoth(irqs[..|irqs| - 1], irqs, l);
  }

  /**
   The relay table refines a partial map of capacity 16. A request answers -EINVAL,
   -EBUSY or -ENOMEM for a value beyond 7 bits, a mapped line, or a full map, and
   changes nothing; otherwise it adds the mapping, or, if the lower call fails,
   changes nothing either.
   */
  lemma {:induction false} RequestRefinesMap(s: State, iop: nat, target: nat, rpc: bool, ans: int)
    requires Inv(s)
    ensures var (t, e) := RequestMap(s, iop, target, rpc, ans);
            var m := Targets(s.irqs);
            if iop >= 128 || target >= 128 then t == s && e == -EINVAL
            else if iop in m then t == s && e == -EBUSY
            else if |m| == MAX_IRQ_RELAYS then t == s && e == -ENOMEM
            else e <= 0 && Inv(t) && if e == 0 then Targets(t.irqs) == m[iop := (target, rpc)] else t == s
  {
    hide Request, FindMap, FindUnset, Targets;
    FindMapTargets(s.irqs, iop);
    TargetsSize(s.irqs);
    RequestMapInv(s, iop, target, rpc, ans);
    var w := Slot(true, iop % 128, target % 128, rpc);
    var k := FindUnset(s.irqs, 0);
    if w.iop == iop && w.target == target && FindMap(s.irqs, iop, 0).None? && k.Some? {
      var s0 := s.(irqs := s.irqs[k.value := w]);
      RequestEffect(s0, iop, Callback(ServiceIrq, k.value), ans);
      var (s1, e) := Request(s0, iop, Callback(ServiceIrq, k.value), ans);
      assert s.irqs[k.value] == UNSET;
      if e == 0 {
        SlotTargets(s.irqs, k.value, w);
      } else {
        assert s1.irqs[k.value := UNSET] == s.irqs;
      }
    }
  }

  lemma {:induction false} RemapRefinesMap(s: State, iop: nat, target: nat, rpc: bool)
    requires Inv(s)
    ensures var (t, e) := Remap(s, iop, target, rpc);
            var m := Targets(s.irqs);
            if target >= 128 then t == s && e == -EINVAL
            else if iop !in m then t == s && e == -ENXIO
            else e == 0 && Inv(t) && Targets(t.irqs) == m[iop := (target, rpc)] && t == s.(irqs := t.irqs)
  {
    hide FindMap, Targets;
    FindMapTargets(s.irqs, iop);
    RemapInv(s, iop, target, rpc);
    var k := FindMap(s.irqs, iop, 0);
    if target < 128 && k.Some? {
      SlotTargets(s.irqs, k.value, s.irqs[k.value].(target := target, rpc := rpc));
    }
  }

  /** A set slot for an SPD line that nobody has claimed: what a failed release of DEV9 leaves. */
  ghost predicate LostSlot(s: State, iop: nat)
    requires Shaped(s)
  {
    IsSpd(iop) && iop in Targets(s.irqs) && HandlerOf(s, iop) == None
  }

  /** Releasing the last SPD line while intrman refuses to release DEV9 loses the slot. */
  lemma {:induction false} FailedReleaseLosesSlot(s: State, iop: nat, ans: int)
    requires Inv(s) && IsSpd(iop) && iop in Targets(s.irqs) && HandlerOf(s, iop).Some?
    requires s.spdCount == 1 && ans < 0
    ensures var (t, e) := ReleaseMap(s, iop, ans);
            e < 0 && LostSlot(t, iop)
  {
    hide FindMap, Targets;
    FindMapTargets(s.irqs, iop);
  }

  /** A lost slot can be neither released nor requested again. */
  lemma {:induction false} LostSlotAnswers(s: State, iop: nat, target: nat, rpc: bool, ans: int)
    requires Inv(s) && LostSlot(s, iop) && target < 128
    ensures ReleaseMap(s, iop, ans) == (s, -EINVAL)
    ensures RequestMap(s, iop, target, rpc, ans) == (s, -EBUSY)
  {
    hide FindMap, Targets;
    FindMapTargets(s.irqs, iop);
  }

  /** It stays lost whatever happens, unless a driver claims its line. */
  lemma {:induction false} LostSlotStays(s: State, e: Event, iop: nat)
    requires Inv(s) && LostSlot(s, iop) && !(e.DriverRequest? && e.irq == iop)
    ensures LostSlot(Step(s, e), iop)
  {
    hide FindMap, Targets, Inv, Request, Release, Interrupt, RequestMap, ReleaseMap, Remap;
    InvShaped(s);
    match e
    case RelayRequest(l, target, rpc, ans) => LostAtRequest(s, l, target, rpc, ans, iop);
    case RelayRemap(l, target, rpc) =>
      RemapRefinesMap(s, l, target, rpc);
      RemapKeepsHandlers(s, l, target, rpc, iop);
    case RelayRelease(l, ans) => LostAtRelease(s, l, ans, iop);
    case DriverRequest(irq, id, arg, ans) => RequestEffect(s, irq, Callback(Driver(id), arg), ans);
    case DriverRelease(irq, ans) => ReleaseEffect(s, irq, ans);
    case Enable(irq) =>
    case Disable(irq) =>
    case Raise(line) =>
    case Interrupted(irq) => InterruptKeeps(s, irq);
  }

  lemma {:induction false} RemapKeepsHandlers(s: State, iop: nat, target: nat, rpc: bool, l: nat)
    requires Shaped(s)
    ensures HandlerOf(Remap(s, iop, target, rpc).0, l) == HandlerOf(s, l)
  {
  }

  lemma {:induction false} LostAtRequest(s: State, l: nat, target: nat, rpc: bool, ans: int, iop: nat)
    requires Inv(s) && LostSlot(s, iop)
    ensures LostSlot(RequestMap(s, l, target, rpc, ans).0, iop)
  {
    hide FindMap, FindUnset, Targets, Request, HandlerOf;
    RequestRefinesMap(s, l, target, rpc, ans);
    var (t, e) := RequestMap(s, l, target, rpc, ans);
    if e == 0 {
      assert l != iop;
      var k := FindUnset(s.irqs, 0);
      var s0 := s.(irqs := s.irqs[k.value := Slot(true, l, target, rpc)]);
      RequestEffect(s0, l, Callback(ServiceIrq, k.value), ans);
      SlotsKeepHandlers(s, s0.irqs, iop);
    }
  }

  lemma {:induction false} LostAtRelease(s: State, l: nat, ans: int, iop: nat)
    requires Inv(s) && LostSlot(s, iop)
    ensures LostSlot(ReleaseMap(s, l, ans).0, iop)
  {
    hide FindMap, Targets, Release, HandlerOf;
    if l == iop {
      LostSlotAnswers(s, iop, 0, false, ans);
    } else {
      ReleaseRefinesMap(s, l, ans);
      ReleaseEffect(s, l, ans);
      var s1 := Release(s, l, ans).0;
      SlotsKeepHandlers(s1, ReleaseMap(s, l, ans).0.irqs, iop);
    }
  }

  lemma {:induction false} SlotsKeepHandlers(s: State, irqs: seq<Slot>, l: nat)
    requires Shaped(s) && |irqs| == MAX_IRQ_RELAYS
    ensures HandlerOf(s.(irqs := irqs), l) == HandlerOf(s, l)
  {
  }

  lemma {:induction false} ReleaseRefinesMap(s: State, iop: nat, ans: int)
    requires Inv(s)
    ensures var (t, e) := ReleaseMap(s, iop, ans);
            var m := Targets(s.irqs);
            && Inv(t)
            && if iop !in m then t == s && e == -ENXIO
               else e <= 0 && Targets(t.irqs) == if e == 0 then m - {iop} else m
  {
    hide FindMap, Release, Targets;
    FindMapTargets(s.irqs, iop);
    ReleaseMapInv(s, iop, ans);
    var k := FindMap(s.irqs, iop, 0);
    if k.Some? {
      ReleaseEffect(s, iop, ans);
      if Release(s, iop, ans).1 == 0 {
        SlotTargets(s.irqs, k.value, UNSET);
      }
    }
  }

  // ----- The SPD use count -----

  /** Claimed SPD lines below `n`. */
  function Claimed(spdIrqs: seq<Option<Callback>>, n: nat): nat
    requires n <= |spdIrqs|
  {
    if n == 0 then 0 else Claimed(spdIrqs, n - 1) + if spdIrqs[n - 1].Some? then 1 else 0
  }

  lemma {:induction false} ClaimedUpdate(cbs: seq<Option<Callback>>, i: nat, cb: Option<Callback>, n: nat)
    requires i < |cbs| && n <= |cbs|
    ensures Claimed(cbs[i := cb], n) ==
            Claimed(cbs, n) + if i >= n then 0 else (if cb.Some? then 1 else 0) - (if cbs[i].Some? then 1 else 0)
  {
    if n > 0 {
      ClaimedUpdate(cbs, i, cb, n - 1);
    }
  }

  /** What the count has beyond the claimed lines. */
  function Surplus(s: State): int
    requires Shaped(s)
  {
    s.spdCount - Claimed(s.spdIrqs, SPD_LINES)
  }

  ghost predicate SpdInv(s: State) {
    && Shaped(s)
    && (Cascaded(s) <==> s.spdCount > 0)
    && 0 <= Surplus(s) <= 1
  }

  /** DEV9 is not released behind the SPD module's back. */
  ghost predicate Fair(s: State, e: Event)
    requires Shaped(s)
  {
    Cascaded(s) ==>
      && !(e.DriverRelease? && e.irq == IRQ_DEV9 && e.ans >= 0)
      && !(e.RelayRelease? && e.iop == IRQ_DEV9 && FindMap(s.irqs, IRQ_DEV9, 0).Some? && e.ans >= 0)
  }

  lemma {:induction false} RequestSpd(s: State, irq: nat, cb: Callback, ans: int)
    requires SpdInv(s) && !cb.handler.SpdHandleIrq?
    ensures var t := Request(s, irq, cb, ans).0;
            SpdInv(t) && Surplus(t) == Surplus(s) && (Cascaded(s) ==> Cascaded(t))
  {
    if IsSpd(irq) {
      ClaimedUpdate(s.spdIrqs, irq - SPD_BASE, Some(cb), SPD_LINES);
    }
  }

  lemma {:induction false} SomeClaimed(cbs: seq<Option<Callback>>, i: nat, n: nat)
    requires i < n <= |cbs| && cbs[i].Some?
    ensures Claimed(cbs, n) >= 1
  {
    if i < n - 1 {
      SomeClaimed(cbs, i, n - 1);
    }
  }

  /** Releasing the last claimed SPD line, for which intrman refuses to release DEV9. */
  predicate IsRefused(s: State, irq: nat, ans: int)
    requires Shaped(s)
  {
    IsSpd(irq) && HandlerOf(s, irq).Some? && s.spdCount == 1 && ans < 0
  }

  lemma {:induction false} ReleaseSpd(s: State, irq: nat, ans: int)
    requires SpdInv(s) && (Cascaded(s) ==> irq != IRQ_DEV9 || ans < 0)
    ensures var t := Release(s, irq, ans).0;
            && SpdInv(t) && Surplus(t) == Surplus(s) + (if IsRefused(s, irq, ans) then 1 else 0)
            && (Surplus(s) == 1 ==> Cascaded(t))
  {
    if IsSpd(irq) {
      var i := irq - SPD_BASE;
      ClaimedUpdate(s.spdIrqs, i, None, SPD_LINES);
      if s.spdIrqs[i].Some? {
        SomeClaimed(s.spdIrqs, i, SPD_LINES);
      }
    }
  }

  /** Only the SPD side of the state matters to its law. */
  lemma {:induction false} SpdSideOnly(s: State, t: State)
    requires Shaped(s) && Shaped(t)
    requires t.spdIrqs == s.spdIrqs && t.spdCount == s.spdCount && t.handlers == s.handlers
    ensures SpdInv(t) == SpdInv(s) && Surplus(t) == Surplus(s) && Cascaded(t) == Cascaded(s)
  {
  }

  ghost predicate IsFailedRelease(s: State, e: Event)
    requires Shaped(s)
  {
    || (e.DriverRelease? && IsRefused(s, e.irq, e.ans))
    || (e.RelayRelease? && FindMap(s.irqs, e.iop, 0).Some? && IsRefused(s, e.iop, e.ans))
  }

  ghost predicate SpdStep(s: State, t: State, e: Event)
    requires Shaped(s) && Shaped(t)
  {
    && SpdInv(t) && Surplus(t) == Surplus(s) + (if IsFailedRelease(s, e) then 1 else 0)
    && (Surplus(s) == 1 ==> Cascaded(t))
  }

  lemma {:induction false} RelaySpd(s: State, e: Event)
    requires SpdInv(s) && Fair(s, e) && (e.RelayRequest? || e.RelayRelease?)
    ensures SpdStep(s, Step(s, e), e)
  {
    hide Request, Release, FindMap, FindUnset, SpdInv, Surplus;
    assert Shaped(s) by {
      SpdShaped(s);
    }
    SpdFacts(s);
    match e
    case RelayRequest(iop, target, rpc, ans) =>
      var w := Slot(true, iop % 128, target % 128, rpc);
      var k := FindUnset(s.irqs, 0);
      if k.Some? {
        var s0 := s.(irqs := s.irqs[k.value := w]);
        SpdSideOnly(s, s0);
        var cb := Callback(ServiceIrq, k.value);
        RequestSpd(s0, iop, cb, ans);
        var s1 := Request(s0, iop, cb, ans).0;
        SpdSideOnly(s1, s1.(irqs := s1.irqs[k.value := UNSET]));
      }
    case RelayRelease(iop, ans) =>
      var k := FindMap(s.irqs, iop, 0);
      if k.Some? {
        ReleaseSpd(s, iop, ans);
        var s1 := Release(s, iop, ans).0;
        SpdSideOnly(s1, s1.(irqs := s1.irqs[k.value := UNSET]));
      }
  }

  lemma {:induction false} SpdShaped(s: State)
    requires SpdInv(s)
    ensures Shaped(s)
  {
  }

  /** A surplus keeps the count positive, and with it the cascade. */
  lemma {:induction false} SpdFacts(s: State)
    requires SpdInv(s)
    ensures Surplus(s) == 1 ==> Cascaded(s)
    ensures Surplus(s) >= 0
  {
  }

  /**
   The use-count law, step by step: the SPD handler is registered on DEV9 exactly
   while the count is positive; the count exceeds the claimed lines by at most one,
   which it begins to do exactly at a failed release of DEV9, and from then on does for
   ever, with DEV9 never released again.
   */
  lemma {:induction false} SpdUseCount(s: State, e: Event)
    requires SpdInv(s) && Fair(s, e)
    ensures SpdStep(s, Step(s, e), e)
  {
    hide Request, Release, Interrupt, SpdInv, Surplus, RequestMap, ReleaseMap, Remap;
    SpdShaped(s);
    SpdFacts(s);
    match e
    case RelayRequest(_, _, _, _) => RelaySpd(s, e);
    case RelayRelease(_, _) => RelaySpd(s, e);
    case RelayRemap(iop, target, rpc) =>
      RemapKeeps(s, iop, target, rpc);
      SpdSideOnly(s, Step(s, e));
    case DriverRequest(irq, id, arg, ans) => RequestSpd(s, irq, Callback(Driver(id), arg), ans);
    case DriverRelease(irq, ans) => ReleaseSpd(s, irq, ans);
    case Enable(irq) => SpdSideOnly(s, Step(s, e));
    case Disable(irq) => SpdSideOnly(s, Step(s, e));
    case Raise(line) => SpdSideOnly(s, Step(s, e));
    case Interrupted(irq) =>
      InterruptKeeps(s, irq);
      SpdSideOnly(s, Step(s, e));
  }

  /** The law is kept by no other events: a release of the cascaded DEV9 breaks it. */
  lemma {:induction false} UnfairBreaksLaw(s: State, e: Event)
    requires SpdInv(s) && !Fair(s, e)
    ensures !SpdInv(Step(s, e))
  {
    hide Surplus, FindMap;
  }

  lemma {:induction false} RemapKeeps(s: State, iop: nat, target: nat, rpc: bool)
    requires Shaped(s)
    ensures var t := Remap(s, iop, target, rpc).0;
            t == s.(irqs := t.irqs)
  {
  }

  /** Every event of a run was fair in the state it met. */
  ghost predicate FairRun(s: State, es: seq<Event>)
    requires Shaped(s)
    decreases |es|
  {
    es != [] ==>
      FairRun(s, es[..|es| - 1]) && Fair(After(s, es[..|es| - 1]), es[|es| - 1])
  }

  lemma {:induction false} SpdLaw(s: State, es: seq<Event>)
    requires Initial(s) && FairRun(s, es)
    ensures SpdInv(After(s, es))
    decreases |es|
  {
    hide Step, SpdInv;
    if es == [] {
      InitialSpd(s);
    } else {
      SpdLaw(s, es[..|es| - 1]);
      SpdUseCount(After(s, es[..|es| - 1]), es[|es| - 1]);
    }
  }

  lemma {:induction false} FairPrefix(s: State, es: seq<Event>, n: nat)
    requires Shaped(s) && FairRun(s, es) && n <= |es|
    ensures FairRun(s, es[..n])
    decreases |es|
  {
    if n == |es| {
      assert es[..n] == es;
    } else {
      assert es[..|es| - 1][..n] == es[..n];
      FairPrefix(s, es[..|es| - 1], n);
    }
  }

  /** Once the count is one too high, it stays so, and DEV9 is never released again. */
  lemma {:induction false} SurplusStays(s: State, es: seq<Event>, n: nat)
    requires Initial(s) && FairRun(s, es) && n <= |es| && Surplus(After(s, es[..n])) == 1
    ensures Surplus(After(s, es)) == 1 && Cascaded(After(s, es))
    decreases |es|
  {
    hide Step, SpdInv, Surplus, Cascaded, Fair;
    SpdLaw(s, es);
    if n == |es| {
      assert es[..n] == es;
    } else {
      var init := es[..|es| - 1];
      assert init[..n] == es[..n];
      SurplusStays(s, init, n);
      SpdLaw(s, init);
      SpdUseCount(After(s, init), es[|es| - 1]);
    }
    SpdFacts(After(s, es));
    SurplusBound(After(s, es));
  }

  lemma {:induction false} SurplusBound(s: State)
    requires SpdInv(s)
    ensures 0 <= Surplus(s) <= 1
  {
  }

  /** Some step of the run was a failed release of DEV9. */
  ghost predicate FailedWithin(s: State, es: seq<Event>)
    requires Shaped(s)
  {
    exists n :: 0 <= n < |es| && IsFailedRelease(After(s, es[..n]), es[n])
  }

  /** In a fair run the count is one too high exactly if the run holds such a step. */
  lemma {:induction false} SurplusExactly(s: State, es: seq<Event>)
    requires Initial(s) && FairRun(s, es)
    ensures Surplus(After(s, es)) == 1 <==> FailedWithin(s, es)
  {
    hide Surplus, IsFailedRelease, Step, After, SpdInv, Fair;
    assert Shaped(s) by {
      InitialInv(s);
      InvShaped(s);
    }
    if Surplus(After(s, es)) == 1 {
      var n := SurplusCause(s, es);
    }
    if FailedWithin(s, es) {
      var n :| 0 <= n < |es| && IsFailedRelease(After(s, es[..n]), es[n]);
      FailedReleaseCounts(s, es, n);
      SurplusStays(s, es, n + 1);
    }
  }

  lemma {:induction false} FailedReleaseCounts(s: State, es: seq<Event>, n: nat)
    requires Initial(s) && FairRun(s, es) && n < |es| && IsFailedRelease(After(s, es[..n]), es[n])
    ensures Surplus(After(s, es[..n + 1])) == 1
  {
    hide Surplus, IsFailedRelease, Step, SpdInv, Fair;
    var before, now := es[..n], es[..n + 1];
    assert now[..n] == before && now[n] == es[n];
    FairPrefix(s, es, n);
    FairPrefix(s, es, n + 1);
    SpdLaw(s, before);
    SpdLaw(s, now);
    SpdUseCount(After(s, before), es[n]);
    SurplusBound(After(s, before));
    SurplusBound(After(s, now));
  }

  /** The count gets one too high only at a release of the last line that intrman refuses for DEV9. */
  lemma {:induction false} SurplusCause(s: State, es: seq<Event>) returns (n: nat)
    requires Initial(s) && FairRun(s, es) && Surplus(After(s, es)) == 1
    ensures n < |es| && Surplus(After(s, es[..n])) == 0 && IsFailedRelease(After(s, es[..n]), es[n])
    decreases |es|
  {
    hide Step, SpdInv, Surplus, Fair, IsFailedRelease;
    if es == [] {
      NoSurplusAtFirst(s);
      assert false;
    } else {
      var init := es[..|es| - 1];
      SpdLaw(s, init);
      SurplusBound(After(s, init));
      if Surplus(After(s, init)) == 1 {
        n := SurplusCause(s, init);
        assert init[..n] == es[..n];
      } else {
        n := |es| - 1;
        SpdUseCount(After(s, init), es[n]);
      }
    }
  }

  lemma {:induction false} NoSurplusAtFirst(s: State)
    requires Initial(s)
    ensures Surplus(s) == 0
  {
    NoneClaimed(s.spdIrqs, SPD_LINES);
  }

  lemma {:induction false} InitialSpd(s: State)
    requires Initial(s)
    ensures SpdInv(s)
  {
    NoneClaimed(s.spdIrqs, SPD_LINES);
  }

  lemma {:induction false} NoneClaimed(cbs: seq<Option<Callback>>, n: nat)
    requires n <= |cbs| && forall i :: 0 <= i < n ==> cbs[i] == None
    ensures Claimed(cbs, n) == 0
  {
    if n > 0 {
      NoneClaimed(cbs, n - 1);
    }
  }

  // ----- Who serves the mapped lines -----

  predicate IsRelays(cb: Option<Callback>) {
    cb.Some? && cb.value.handler.ServiceIrq?
  }

  /** Every set slot has the relay's handler registered for its line. */
  ghost predicate AllServed(s: State)
    requires Shaped(s)
  {
    forall l :: l in Targets(s.irqs) ==> IsRelays(HandlerOf(s, l))
  }

  /**
   A release after which a mapped line has no handler: by the relay, of its last SPD
   line while intrman refuses to release DEV9; or by anyone else, unless intrman
   refuses it.
   */
  ghost predicate Loses(s: State, e: Event)
    requires Shaped(s)
  {
    || (e.RelayRelease? && e.iop in Targets(s.irqs) && IsSpd(e.iop) && s.spdCount == 1 && e.ans < 0)
    || (e.DriverRelease? && e.irq in Targets(s.irqs) && (IsSpd(e.irq) || e.ans >= 0))
  }

  /** What becomes of a line with a handler that is released. */
  lemma {:induction false} ReleaseOutcome(s: State, irq: nat, ans: int)
    requires SpdInv(s) && HandlerOf(s, irq).Some?
    ensures var (t, e) := Release(s, irq, ans);
            && (e != 0 <==> ans < 0 && (!IsSpd(irq) || s.spdCount == 1))
            && HandlerOf(t, irq) == if IsSpd(irq) || ans >= 0 then None else HandlerOf(s, irq)
  {
    hide Surplus;
  }

  lemma {:induction false} ReleaseKeepsDev9(s: State, irq: nat, ans: int)
    requires SpdInv(s) && irq != IRQ_DEV9 && !Cascaded(s)
    ensures HandlerOf(Release(s, irq, ans).0, IRQ_DEV9) == HandlerOf(s, IRQ_DEV9)
  {
    hide Surplus;
  }

  /** A release changes no handler of another line that the relay serves. */
  lemma {:induction false} ReleaseKeepsServed(s: State, irq: nat, ans: int, l: nat)
    requires SpdInv(s) && IsRelays(HandlerOf(s, l)) && l != irq
    ensures HandlerOf(Release(s, irq, ans).0, l) == HandlerOf(s, l)
  {
    hide Release, SpdInv;
    SpdShaped(s);
    ReleaseEffect(s, irq, ans);
    if l == IRQ_DEV9 {
      ReleaseKeepsDev9(s, irq, ans);
    }
  }

  lemma {:induction false} RequestKeepsServed(s: State, irq: nat, cb: Callback, ans: int, l: nat)
    requires Shaped(s) && IsRelays(HandlerOf(s, l))
    ensures HandlerOf(Request(s, irq, cb, ans).0, l) == HandlerOf(s, l)
  {
    hide Request;
    RequestEffect(s, irq, cb, ans);
  }

  lemma {:induction false} RelayRequestServed(s: State, iop: nat, target: nat, rpc: bool, ans: int)
    requires Inv(s) && AllServed(s)
    ensures AllServed(RequestMap(s, iop, target, rpc, ans).0)
  {
    hide FindMap, FindUnset, Targets, Request, HandlerOf;
    RequestRefinesMap(s, iop, target, rpc, ans);
    var (t, e) := RequestMap(s, iop, target, rpc, ans);
    if e == 0 {
      var k := FindUnset(s.irqs, 0);
      var s0 := s.(irqs := s.irqs[k.value := Slot(true, iop, target, rpc)]);
      var cb := Callback(ServiceIrq, k.value);
      RequestEffect(s0, iop, cb, ans);
      forall l | l in Targets(t.irqs)
        ensures IsRelays(HandlerOf(t, l))
      {
        SlotsKeepHandlers(s, s0.irqs, l);
        if l != iop {
          RequestKeepsServed(s0, iop, cb, ans, l);
        }
      }
    }
  }

  lemma {:induction false} RelayReleaseServed(s: State, iop: nat, ans: int)
    requires Inv(s) && SpdInv(s) && AllServed(s)
    ensures AllServed(ReleaseMap(s, iop, ans).0) <==> !Loses(s, RelayRelease(iop, ans))
  {
    hide FindMap, Targets, Release, HandlerOf, SpdInv;
    ReleaseRefinesMap(s, iop, ans);
    FindMapTargets(s.irqs, iop);
    if iop in Targets(s.irqs) {
      var s1 := Release(s, iop, ans).0;
      var t := ReleaseMap(s, iop, ans).0;
      ReleaseEffect(s, iop, ans);
      ReleaseOutcome(s, iop, ans);
      SlotsKeepHandlers(s1, t.irqs, iop);
      forall l | l in Targets(t.irqs) && l != iop
        ensures IsRelays(HandlerOf(t, l))
      {
        ReleaseKeepsServed(s, iop, ans, l);
        SlotsKeepHandlers(s1, t.irqs, l);
      }
      if Loses(s, RelayRelease(iop, ans)) {
        assert iop in Targets(t.irqs) && !IsRelays(HandlerOf(t, iop));
      }
    }
  }

  lemma {:induction false} DriverReleaseServed(s: State, irq: nat, ans: int)
    requires Inv(s) && SpdInv(s) && AllServed(s)
    ensures AllServed(Release(s, irq, ans).0) <==> !Loses(s, DriverRelease(irq, ans))
  {
    hide FindMap, Targets, Release, HandlerOf, SpdInv;
    var t := Release(s, irq, ans).0;
    ReleaseEffect(s, irq, ans);
    forall l | l in Targets(s.irqs) && l != irq
      ensures IsRelays(HandlerOf(t, l))
    {
      ReleaseKeepsServed(s, irq, ans, l);
    }
    if irq in Targets(s.irqs) {
      ReleaseOutcome(s, irq, ans);
    }
  }

  lemma {:induction false} SameHandlersServed(s: State, t: State)
    requires Shaped(s) && t == s.(irqs := t.irqs, stat := t.stat, mask := t.mask, enabled := t.enabled,
                                  called := t.called, sent := t.sent)
    requires Shaped(t) && Targets(t.irqs).Keys == Targets(s.irqs).Keys
    ensures AllServed(t) <==> AllServed(s)
  {
    assert forall l :: HandlerOf(t, l) == HandlerOf(s, l);
    assert forall l :: l in Targets(t.irqs) <==> l in Targets(s.irqs);
  }

  /** Each step keeps every set slot served if and only if it does not lose one. */
  lemma {:induction false} ServedExactly(s: State, e: Event)
    requires Inv(s) && SpdInv(s) && AllServed(s)
    ensures AllServed(Step(s, e)) <==> !Loses(s, e)
  {
    hide Inv, SpdInv, AllServed, Targets, Request, Release, RequestMap, Remap, ReleaseMap, Interrupt;
    InvShaped(s);
    match e
    case RelayRequest(iop, target, rpc, ans) => RelayRequestServed(s, iop, target, rpc, ans);
    case RelayRemap(iop, target, rpc) =>
      RemapRefinesMap(s, iop, target, rpc);
      RemapKeeps(s, iop, target, rpc);
      assert Targets(Step(s, e).irqs).Keys == Targets(s.irqs).Keys;
      SameHandlersServed(s, Step(s, e));
    case RelayRelease(iop, ans) => RelayReleaseServed(s, iop, ans);
    case DriverRequest(irq, id, arg, ans) => DriverRequestServed(s, irq, Callback(Driver(id), arg), ans);
    case DriverRelease(irq, ans) => DriverReleaseServed(s, irq, ans);
    case Enable(irq) => SameHandlersServed(s, Step(s, e));
    case Disable(irq) => SameHandlersServed(s, Step(s, e));
    case Raise(line) => SameHandlersServed(s, Step(s, e));
    case Interrupted(irq) =>
      InterruptKeeps(s, irq);
      SameHandlersServed(s, Step(s, e));
  }

  lemma {:induction false} DriverRequestServed(s: State, irq: nat, cb: Callback, ans: int)
    requires Shaped(s) && AllServed(s)
    ensures AllServed(Request(s, irq, cb, ans).0)
  {
    hide Request, Targets, HandlerOf;
    var t := Request(s, irq, cb, ans).0;
    forall l | l in Targets(t.irqs)
      ensures IsRelays(HandlerOf(t, l))
    {
      RequestKeepsServed(s, irq, cb, ans, l);
    }
  }

  /** No step of the run lost a line. */
  ghost predicate NeverLoses(s: State, es: seq<Event>)
    requires Shaped(s)
    decreases |es|
  {
    es != [] ==> NeverLoses(s, es[..|es| - 1]) && !Loses(After(s, es[..|es| - 1]), es[|es| - 1])
  }

  /** All set slots were served throughout the run. */
  ghost predicate AlwaysServed(s: State, es: seq<Event>)
    requires Shaped(s)
    decreases |es|
  {
    AllServed(After(s, es)) && (es != [] ==> AlwaysServed(s, es[..|es| - 1]))
  }

  /** In a fair run every set slot has its handler at all times if and only if no step loses a line. */
  lemma {:induction false} RunServedExactly(s: State, es: seq<Event>)
    requires Initial(s) && FairRun(s, es)
    ensures AlwaysServed(s, es) <==> NeverLoses(s, es)
    decreases |es|
  {
    hide Step, Inv, SpdInv, AllServed, Loses, Fair, Initial;
    InitialServed(s);
    if es != [] {
      var init := es[..|es| - 1];
      RunServedExactly(s, init);
      RunInv(s, init);
      SpdLaw(s, init);
      ServedNow(s, init);
      if AlwaysServed(s, init) {
        ServedExactly(After(s, init), es[|es| - 1]);
      }
    }
  }

  lemma {:induction false} ServedNow(s: State, es: seq<Event>)
    requires Shaped(s)
    ensures AlwaysServed(s, es) ==> AllServed(After(s, es))
  {
  }

  lemma {:induction false} InitialServed(s: State)
    requires Initial(s)
    ensures Shaped(s) && AllServed(s)
  {
    hide FindMap;
    assert Targets(s.irqs) == map[];
  }

  /** A run that loses a slot: line 46 is requested, and intrman refuses to release DEV9. */
  lemma {:induction false} RunLosesSlot(s: State, target: nat)
    requires Initial(s) && IRQ_DEV9 !in s.handlers && target < 128
    ensures var es := [RelayRequest(SPD_BASE, target, true, 0), RelayRelease(SPD_BASE, -1)];
            FairRun(s, es) && !NeverLoses(s, es) && LostSlot(After(s, es), SPD_BASE)
  {
    var first, second := RelayRequest(SPD_BASE, target, true, 0), RelayRelease(SPD_BASE, -1);
    var es := [first, second];
    assert es[..1] == [first] && [first][..0] == [];
    assert After(s, []) == s && FairRun(s, []);
    InitialInv(s);
    InitialSpd(s);
    var t := Step(s, first);
    assert After(s, [first]) == t && After(s, es) == Step(t, second);
    LineRequested(s, target);
    StepInv(s, first);
    FailedReleaseLosesSlot(t, SPD_BASE, -1);
  }

  lemma {:induction false} LineRequested(s: State, target: nat)
    requires Initial(s) && IRQ_DEV9 !in s.handlers && target < 128
    ensures var t := Step(s, RelayRequest(SPD_BASE, target, true, 0));
            t.spdCount == 1 && SPD_BASE in Targets(t.irqs) && IsRelays(HandlerOf(t, SPD_BASE)) && Cascaded(t)
  {
    hide Inv, Targets, FindMap, FindUnset, Initial;
    NothingSet(s);
    var k := FindUnset(s.irqs, 0).value;
    var w := Slot(true, SPD_BASE, target, true);
    FirstClaim(s.(irqs := s.irqs[k := w]), Callback(ServiceIrq, k));
    InitialInv(s);
    InvTable(s);
    RequestRefinesMap(s, SPD_BASE, target, true, 0);
  }

  lemma {:induction false} NothingSet(s: State)
    requires Initial(s)
    ensures Shaped(s) && s.spdCount == 0 && s.spdIrqs[0] == None
    ensures FindMap(s.irqs, SPD_BASE, 0).None? && FindUnset(s.irqs, 0).Some?
  {
    hide FindMap, FindUnset;
    assert s.irqs[0] == UNSET;
  }

  lemma {:induction false} FirstClaim(s: State, cb: Callback)
    requires Shaped(s) && s.spdCount == 0 && s.spdIrqs[0] == None && IRQ_DEV9 !in s.handlers
    ensures var (t, e) := Request(s, SPD_BASE, cb, 0);
            e == 0 && t.spdCount == 1 && HandlerOf(t, SPD_BASE) == Some(cb) && Cascaded(t)
  {
  }
}

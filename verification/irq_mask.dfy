/**
 The registers of the SPD lines over runs: which lines are unmasked and why, what a
 claim acknowledges, and what calls that fail answer.
 */
module IrqMask {
  import opened Common
  import opened IrqBits
  import opened IrqState
  import opened IrqLaws
  import opened IrqDelivery

  // ----- The mask -----

  /** A release masks the line if it was claimed, whatever intrman answers, and nothing else. */
  lemma {:induction false} ReleaseMasks(s: State, irq: nat, ans: int)
    requires Shaped(s) && IsSpd(irq)
    ensures Release(s, irq, ans).0.mask ==
            if s.spdIrqs[irq - SPD_BASE].Some? then s.mask - {irq - SPD_BASE} else s.mask
    ensures Release(s, irq, ans).0.spdIrqs == s.spdIrqs[irq - SPD_BASE := None]
    ensures Release(s, irq, ans).0.stat == s.stat
  {
  }

  /** A claim acknowledges what was pending on the line and unmasks it; a refused one does nothing. */
  lemma {:induction false} ClaimUnmasks(s: State, irq: nat, cb: Callback, ans: int)
    requires Shaped(s) && IsSpd(irq)
    ensures var (t, e) := Request(s, irq, cb, ans);
            var i := irq - SPD_BASE;
            if e == 0 then
              && s.spdIrqs[i] == None && t.spdIrqs == s.spdIrqs[i := Some(cb)]
              && t.mask == s.mask + {i} && t.stat == s.stat - {i}
            else t == s
  {
  }

  lemma {:induction false} DirectLeavesRegisters(s: State, irq: nat, cb: Callback, ans: int)
    requires Shaped(s) && !IsSpd(irq)
    ensures SameRegisters(s, Request(s, irq, cb, ans).0) && SameRegisters(s, Release(s, irq, ans).0)
  {
  }

  ghost predicate SameRegisters(s: State, t: State) {
    t.stat == s.stat && t.mask == s.mask && t.spdIrqs == s.spdIrqs
  }

  /** What a step does to one line: it is claimed, released, switched, or left as it is. */
  ghost predicate LineStep(s: State, t: State, e: Event, i: nat)
    requires Shaped(s) && Shaped(t) && i < SPD_LINES
  {
    if s.spdIrqs[i].None? && t.spdIrqs[i].Some? then i in t.mask && i !in t.stat
    else if s.spdIrqs[i].Some? && t.spdIrqs[i].None? then i !in t.mask && (i in t.stat <==> i in s.stat)
    else
      && (i in t.mask <==> e == Enable(SPD_BASE + i) || (i in s.mask && e != Disable(SPD_BASE + i)))
      && (i in t.stat ==> i in s.stat || e == Raise(i))
  }

  lemma {:induction false} CallStep(s: State, t: State, e: Event, irq: nat, cb: Callback, ans: int, i: nat)
    requires Shaped(s) && Shaped(t) && i < SPD_LINES && !e.Enable? && !e.Disable? && !e.Raise?
    requires SameRegisters(t, Request(s, irq, cb, ans).0) || SameRegisters(t, Release(s, irq, ans).0)
    ensures LineStep(s, t, e, i)
  {
    hide Request, Release;
    if IsSpd(irq) {
      ReleaseMasks(s, irq, ans);
      ClaimUnmasks(s, irq, cb, ans);
    } else {
      DirectLeavesRegisters(s, irq, cb, ans);
    }
  }

  lemma {:induction false} EachLineSteps(s: State, e: Event, i: nat)
    requires Shaped(s) && i < SPD_LINES
    ensures LineStep(s, Step(s, e), e, i)
  {
    hide Request, Release, FindMap, FindUnset, LineStep, Dispatch;
    var t := Step(s, e);
    match e
    case RelayRequest(iop, target, rpc, ans) => RelayRequestSteps(s, e, i);
    case RelayRelease(iop, ans) => RelayReleaseSteps(s, e, i);
    case DriverRequest(irq, id, arg, ans) =>
      CallStep(s, t, e, irq, Callback(Driver(id), arg), ans, i);
    case DriverRelease(irq, ans) =>
      CallStep(s, t, e, irq, SPD_HANDLER, ans, i);
    case RelayRemap(iop, target, rpc) => LeftAlone(s, t, e, i);
    case Enable(irq) => SwitchSteps(s, e, irq, i);
    case Disable(irq) => SwitchSteps(s, e, irq, i);
    case Raise(line) => RaiseSteps(s, line, i);
    case Interrupted(irq) => InterruptSteps(s, irq, i);
  }

  lemma {:induction false} LeftAlone(s: State, t: State, e: Event, i: nat)
    requires Shaped(s) && Shaped(t) && i < SPD_LINES && !e.Enable? && !e.Disable? && !e.Raise?
    requires SameRegisters(s, t)
    ensures LineStep(s, t, e, i)
  {
  }

  lemma {:induction false} RelayRequestSteps(s: State, e: Event, i: nat)
    requires Shaped(s) && i < SPD_LINES && e.RelayRequest?
    ensures LineStep(s, Step(s, e), e, i)
  {
    hide Request, Release, FindMap, FindUnset, LineStep;
    var t := Step(s, e);
    if SameRegisters(s, t) {
      LeftAlone(s, t, e, i);
    } else {
      var k := FindUnset(s.irqs, 0).value;
      var s0 := s.(irqs := s.irqs[k := Slot(true, e.iop % 128, e.target % 128, e.rpc)]);
      CallStep(s0, t, e, e.iop, Callback(ServiceIrq, k), e.ans, i);
      SameLines(s0, s, t, e, i);
    }
  }

  lemma {:induction false} SameLines(s0: State, s: State, t: State, e: Event, i: nat)
    requires Shaped(s0) && Shaped(s) && Shaped(t) && i < SPD_LINES && SameRegisters(s0, s)
    requires LineStep(s0, t, e, i)
    ensures LineStep(s, t, e, i)
  {
  }

  lemma {:induction false} RelayReleaseSteps(s: State, e: Event, i: nat)
    requires Shaped(s) && i < SPD_LINES && e.RelayRelease?
    ensures LineStep(s, Step(s, e), e, i)
  {
    hide Request, Release, FindMap, LineStep;
    var t := Step(s, e);
    if FindMap(s.irqs, e.iop, 0).None? {
      LeftAlone(s, t, e, i);
    } else {
      CallStep(s, t, e, e.iop, SPD_HANDLER, e.ans, i);
    }
  }

  lemma {:induction false} SwitchSteps(s: State, e: Event, irq: nat, i: nat)
    requires Shaped(s) && i < SPD_LINES && (e == Enable(irq) || e == Disable(irq))
    ensures LineStep(s, Step(s, e), e, i)
  {
  }

  lemma {:induction false} RaiseSteps(s: State, line: nat, i: nat)
    requires Shaped(s) && i < SPD_LINES
    ensures LineStep(s, Step(s, Raise(line)), Raise(line), i)
  {
  }

  lemma {:induction false} InterruptSteps(s: State, irq: nat, i: nat)
    requires Shaped(s) && i < SPD_LINES
    ensures LineStep(s, Step(s, Interrupted(irq)), Interrupted(irq), i)
  {
    hide Dispatch;
    DispatchEffect(s);
  }

  // ----- Free lines -----

  /** The line was enabled at place `k` of the run, and since then it was neither claimed nor disabled. */
  ghost predicate EnabledWhileFree(s: State, es: seq<Event>, i: nat, k: nat)
    requires Shaped(s) && i < SPD_LINES
  {
    && k < |es| && es[k] == Enable(SPD_BASE + i)
    && (forall n :: k <= n <= |es| ==> After(s, es[..n]).spdIrqs[i].None?)
    && (forall n :: k < n < |es| ==> es[n] != Disable(SPD_BASE + i))
  }

  ghost predicate StillEnabled(s: State, es: seq<Event>, i: nat)
    requires Shaped(s) && i < SPD_LINES
  {
    exists k: nat :: EnabledWhileFree(s, es, i, k)
  }

  /**
   In every run, a free SPD line is masked unless someone enabled it since it became
   free, and did not disable it again.
   */
  lemma {:induction false} FreeLineMasked(s: State, es: seq<Event>, i: nat)
    requires Initial(s) && i < SPD_LINES && After(s, es).spdIrqs[i].None?
    ensures i in After(s, es).mask <==> StillEnabled(s, es, i)
    decreases |es|
  {
    hide Step, StillEnabled;
    if es == [] {
      NothingEnabled(s, i);
    } else {
      var n := |es| - 1;
      var before := es[..n];
      var e := es[n];
      EachLineSteps(After(s, before), e, i);
      assert es[..|es|] == es;
      if After(s, before).spdIrqs[i].None? {
        FreeLineMasked(s, before, i);
        FreeStep(s, es, i);
      } else {
        ClaimedBefore(s, es, i);
      }
    }
  }

  lemma {:induction false} NothingEnabled(s: State, i: nat)
    requires Shaped(s) && i < SPD_LINES
    ensures !StillEnabled(s, [], i)
  {
  }

  lemma {:induction false} ClaimedBefore(s: State, es: seq<Event>, i: nat)
    requires Shaped(s) && i < SPD_LINES && es != [] && After(s, es[..|es| - 1]).spdIrqs[i].Some?
    requires After(s, es).spdIrqs[i].None? && LineStep(After(s, es[..|es| - 1]), After(s, es), es[|es| - 1], i)
    ensures i !in After(s, es).mask && !StillEnabled(s, es, i)
  {
    hide Step, After;
  }

  lemma {:induction false} FreeStep(s: State, es: seq<Event>, i: nat)
    requires Shaped(s) && i < SPD_LINES && es != [] && After(s, es).spdIrqs[i].None?
    requires After(s, es[..|es| - 1]).spdIrqs[i].None?
    ensures StillEnabled(s, es, i) <==>
            || es[|es| - 1] == Enable(SPD_BASE + i)
            || (es[|es| - 1] != Disable(SPD_BASE + i) && StillEnabled(s, es[..|es| - 1], i))
  {
    hide Step, After;
    var n := |es| - 1;
    var before := es[..n];
    assert es[..|es|] == es;
    if es[n] == Enable(SPD_BASE + i) {
      assert EnabledWhileFree(s, es, i, n);
    }
    forall k: nat | k < n
      ensures EnabledWhileFree(s, es, i, k) <==>
              es[n] != Disable(SPD_BASE + i) && EnabledWhileFree(s, before, i, k)
    {
      assert forall m :: k <= m <= n ==> before[..m] == es[..m];
      assert forall m :: k < m < n ==> before[m] == es[m];
      if EnabledWhileFree(s, before, i, k) {
        forall m | k <= m <= |es|
          ensures After(s, es[..m]).spdIrqs[i].None?
        {
          if m <= n {
            assert before[..m] == es[..m];
          }
        }
      }
      if EnabledWhileFree(s, es, i, k) {
        forall m | k <= m <= n
          ensures After(s, before[..m]).spdIrqs[i].None?
        {
          assert before[..m] == es[..m];
        }
      }
    }
  }

  // ----- Stale events -----

  /** Nothing but a new event makes a line pending. */
  lemma {:induction false} StaysQuiet(s: State, es: seq<Event>, i: nat)
    requires Shaped(s) && i < SPD_LINES && i !in s.stat && Raise(i) !in es
    ensures i !in After(s, es).stat
    decreases |es|
  {
    hide Step;
    if es != [] {
      var before := es[..|es| - 1];
      StaysQuiet(s, before, i);
      EachLineSteps(After(s, before), es[|es| - 1], i);
    }
  }

  /** Mapped or not, a line that is not pending is owed nothing. */
  lemma {:induction false} OwedWithout(targets: map<nat, (nat, bool)>, pending: set<nat>, l: nat, n: nat)
    requires IsSpd(l) && l - SPD_BASE !in pending
    ensures OwedFor(targets, pending, n) == OwedFor(targets - {l}, pending, n)
  {
    if n > 0 {
      OwedWithout(targets, pending, l, n - 1);
    }
  }

  /**
   An event from before a line was claimed is not delivered to who claimed it: until a
   new one comes, whatever else happens, main is sent what it would be sent without the line.
   */
  lemma {:induction false} StaleEventDropped(s: State, e: Event, es: seq<Event>, l: nat, a: Known)
    requires Shaped(s) && IsSpd(l) && Raise(l - SPD_BASE) !in es
    requires (e.RelayRequest? && e.iop == l) || (e.DriverRequest? && e.irq == l)
    requires Answer(s, e) == 0 && DeliveryInv(After(Step(s, e), es), a)
    ensures var now := After(Step(s, e), es);
            Dispatch(now).sent == now.sent + OwedFor(a.targets - {l}, now.stat * now.mask, SPD_LINES)
  {
    hide DeliveryInv, After, OwedFor, Dispatch, Descending, Messages, LineStep;
    ClaimQuiets(s, e, l);
    StaysQuiet(Step(s, e), es, l - SPD_BASE);
    var now := After(Step(s, e), es);
    DispatchEffect(now);
    DispatchSends(now, a, now.stat * now.mask, SPD_LINES);
    OwedWithout(a.targets, now.stat * now.mask, l, SPD_LINES);
  }

  lemma {:induction false} ClaimQuiets(s: State, e: Event, l: nat)
    requires Shaped(s) && IsSpd(l) && Answer(s, e) == 0
    requires (e.RelayRequest? && e.iop == l) || (e.DriverRequest? && e.irq == l)
    ensures l - SPD_BASE !in Step(s, e).stat
  {
    hide Request, FindMap, FindUnset;
    if e.DriverRequest? {
      ClaimUnmasks(s, l, Callback(Driver(e.id), e.arg), e.ans);
    } else {
      var k := FindUnset(s.irqs, 0).value;
      var s0 := s.(irqs := s.irqs[k := Slot(true, l, e.target, e.rpc)]);
      ClaimUnmasks(s0, l, Callback(ServiceIrq, k), e.ans);
    }
  }

  // ----- Answers -----

  /** Why a request fails, in numbers: the line or DEV9 is taken, or intrman refuses. */
  lemma {:induction false} RequestAnswers(s: State, irq: nat, cb: Callback, ans: int)
    requires Shaped(s) && -1000 < ans
    ensures var e := Request(s, irq, cb, ans).1;
            if !IsSpd(irq) then
              if irq in s.handlers then e == -16 else if ans < 0 then e == -ListedErrno(-ans) else e == 0
            else if s.spdIrqs[irq - SPD_BASE].Some? then e == -22
            else if s.spdCount == 0 && (IRQ_DEV9 in s.handlers || ans < 0) then e == -22
            else e == 0
  {
    hide ListedErrno;
    if ans < 0 {
      TranslatedTwice(ans);
    }
    TranslatedTwice(-IOP_EBUSYHAND);
  }

  /** Why a release fails: nobody holds the line, or intrman refuses, for an SPD line as to DEV9. */
  lemma {:induction false} ReleaseAnswers(s: State, irq: nat, ans: int)
    requires Shaped(s) && -1000 < ans
    ensures var e := Release(s, irq, ans).1;
            if !IsSpd(irq) then
              if irq !in s.handlers then e == -2 else if ans < 0 then e == -ListedErrno(-ans) else e == 0
            else if s.spdIrqs[irq - SPD_BASE].None? then e == -22
            else if s.spdCount == 1 && (IRQ_DEV9 !in s.handlers || ans < 0) then e == -22
            else e == 0
  {
    hide ListedErrno;
    if ans < 0 {
      TranslatedTwice(ans);
    }
    TranslatedTwice(-IOP_ENOHAND);
  }
}

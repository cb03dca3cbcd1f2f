/**
 End-to-end delivery: what main is told when a mapped line interrupts, over every
 run that keeps the SPD use count and every mapped line's handler, whatever intrman
 refuses.
 */
module IrqDelivery {
  import opened Common
  import opened IrqBits
  import opened IrqState
  import opened IrqLaws

  /**
   What callers know: each mapped line with its latest target, the lines switched off
   since they were requested, the SPD lines someone has claimed, and whether DEV9 is
   stuck as the cascade because intrman refused to release it.
   */
  datatype Known = Known(targets: map<nat, (nat, bool)>, off: set<nat>, claimed: set<nat>, stuck: bool)

  const NOTHING_KNOWN := Known(map[], {}, {}, false)

  /** What the call answered. */
  function Answer(s: State, e: Event): int
    requires Shaped(s)
  {
    match e
    case RelayRequest(iop, target, rpc, ans) => RequestMap(s, iop, target, rpc, ans).1
    case RelayRemap(iop, target, rpc) => Remap(s, iop, target, rpc).1
    case RelayRelease(iop, ans) => ReleaseMap(s, iop, ans).1
    case DriverRequest(irq, id, arg, ans) => Request(s, irq, Callback(Driver(id), arg), ans).1
    case DriverRelease(irq, ans) => Release(s, irq, ans).1
    case _ => 0
  }

  /** A line was requested: it is on, and so is DEV9 if this made it the cascade. */
  function Requested(a: Known, irq: nat): Known {
    if IsSpd(irq) then
      var dev9 := if a.claimed == {} && !a.stuck then {IRQ_DEV9} else {};
      a.(off := a.off - {irq} - dev9, claimed := a.claimed + {irq})
    else a.(off := a.off - {irq})
  }

  /**
   A line was released, or was to be: a direct line is off in any case; an SPD line is
   free in any case, and an error means that DEV9 is off but stays the cascade.
   */
  function Released(a: Known, irq: nat, answer: int): Known {
    if !IsSpd(irq) then a.(off := a.off + {irq})
    else if irq !in a.claimed then a
    else if answer == 0 then a.(claimed := a.claimed - {irq})
    else a.(claimed := a.claimed - {irq}, off := a.off + {IRQ_DEV9}, stuck := true)
  }

  /** Callers' knowledge follows from their calls and the answers alone. */
  function Learn(a: Known, e: Event, answer: int): Known {
    match e
    case RelayRequest(iop, target, rpc, _) =>
      if answer == 0 then Requested(a.(targets := a.targets[iop := (target, rpc)]), iop) else a
    case RelayRemap(iop, target, rpc) =>
      if answer == 0 then a.(targets := a.targets[iop := (target, rpc)]) else a
    case RelayRelease(iop, _) =>
      if iop !in a.targets then a
      else Released(if answer == 0 then a.(targets := a.targets - {iop}) else a, iop, answer)
    case DriverRequest(irq, _, _, _) => if answer == 0 then Requested(a, irq) else a
    case DriverRelease(irq, _) => Released(a, irq, answer)
    case Enable(irq) => a.(off := a.off - {irq})
    case Disable(irq) => a.(off := a.off + {irq})
    case _ => a
  }

  /** What callers know after a run. */
  function KnownAfter(s: State, es: seq<Event>): Known
    requires Shaped(s)
    decreases |es|
  {
    if es == [] then NOTHING_KNOWN
    else
      var before := es[..|es| - 1];
      Learn(KnownAfter(s, before), es[|es| - 1], Answer(After(s, before), es[|es| - 1]))
  }

  // ----- The invariant -----

  /**
   Every mapped line is served by the relay, and callers know exactly which of them are
   enabled, whether the cascade is, and which SPD lines are claimed.
   */
  ghost predicate Served(s: State, a: Known)
    requires Shaped(s)
  {
    && (forall l :: l in a.targets ==> IsRelays(HandlerOf(s, l)))
    && (forall l :: l in a.targets ==> (IsEnabled(s, l) <==> l !in a.off))
    && (Cascaded(s) ==> (IRQ_DEV9 in s.enabled <==> IRQ_DEV9 !in a.off))
    && (forall l :: l in a.claimed <==> IsSpd(l) && HandlerOf(s, l).Some?)
  }

  ghost predicate DeliveryInv(s: State, a: Known) {
    && Inv(s) && SpdInv(s) && Surplus(s) == (if a.stuck then 1 else 0)
    && Targets(s.irqs) == a.targets && Served(s, a)
  }

  // ----- Requests and releases, seen from every line -----

  ghost predicate OtherLinesSame(s: State, t: State, irq: nat)
    requires Shaped(s) && Shaped(t)
  {
    forall l :: l != irq && l != IRQ_DEV9 ==>
      HandlerOf(t, l) == HandlerOf(s, l) && IsEnabled(t, l) == IsEnabled(s, l)
  }

  ghost predicate SameAt(s: State, t: State, l: nat)
    requires Shaped(s) && Shaped(t)
  {
    HandlerOf(t, l) == HandlerOf(s, l) && IsEnabled(t, l) == IsEnabled(s, l)
  }

  /** `irq` got a handler and is enabled; for the first SPD line DEV9 has become the cascade, enabled. */
  ghost predicate Gained(s: State, t: State, irq: nat)
    requires Shaped(s) && Shaped(t)
  {
    && HandlerOf(s, irq) == None && HandlerOf(t, irq).Some? && IsEnabled(t, irq)
    && !HandlerOf(t, irq).value.handler.SpdHandleIrq?
    && OtherLinesSame(s, t, irq)
    && (if IsSpd(irq) && s.spdCount == 0 then HandlerOf(s, IRQ_DEV9) == None && IRQ_DEV9 in t.enabled
        else irq == IRQ_DEV9 || SameAt(s, t, IRQ_DEV9))
  }

  /** A direct line was released, or refused to be: it is off. */
  ghost predicate DirectReleased(s: State, t: State, irq: nat, ans: int)
    requires Shaped(s) && Shaped(t)
  {
    && OtherLinesSame(s, t, irq) && (irq != IRQ_DEV9 ==> SameAt(s, t, IRQ_DEV9))
    && !IsEnabled(t, irq) && HandlerOf(t, irq) == (if ans >= 0 then None else HandlerOf(s, irq))
  }

  /** An SPD line was released: it is free; if it was the last, DEV9 was released too, or refused to be and is off. */
  ghost predicate SpdReleased(s: State, t: State, irq: nat, ans: int)
    requires Shaped(s) && Shaped(t)
  {
    && OtherLinesSame(s, t, irq) && HandlerOf(t, irq) == None
    && t.mask == (if HandlerOf(s, irq) == None then s.mask else s.mask - {irq - SPD_BASE})
    && if HandlerOf(s, irq) == None || s.spdCount != 1 then SameAt(s, t, IRQ_DEV9)
       else if ans >= 0 then HandlerOf(t, IRQ_DEV9) == None
       else HandlerOf(t, IRQ_DEV9) == HandlerOf(s, IRQ_DEV9) && IRQ_DEV9 !in t.enabled
  }

  lemma {:induction false} RequestGains(s: State, irq: nat, cb: Callback, ans: int)
    requires Shaped(s) && !cb.handler.SpdHandleIrq?
    ensures var (t, e) := Request(s, irq, cb, ans);
            && (e == 0 ==> Gained(s, t, irq) && HandlerOf(t, irq) == Some(cb))
            && (e != 0 ==> t == s)
  {
  }

  lemma {:induction false} ReleaseLines(s: State, irq: nat, ans: int)
    requires SpdInv(s)
    ensures var t := Release(s, irq, ans).0;
            if IsSpd(irq) then SpdReleased(s, t, irq, ans) else DirectReleased(s, t, irq, ans)
  {
    hide Surplus;
  }

  /** The relay table is no part of what lines look like. */
  lemma {:induction false} SlotsDoNotMatter(s: State, t: State, irqs: seq<Slot>, irq: nat)
    requires Shaped(s) && Shaped(t) && |irqs| == MAX_IRQ_RELAYS
    ensures Gained(s, t.(irqs := irqs), irq) == Gained(s, t, irq)
    ensures Gained(s.(irqs := irqs), t, irq) == Gained(s, t, irq)
  {
    assert forall l :: HandlerOf(t.(irqs := irqs), l) == HandlerOf(t, l);
    assert forall l :: HandlerOf(s.(irqs := irqs), l) == HandlerOf(s, l);
  }

  lemma {:induction false} ServedAfterGain(s: State, a: Known, t: State, b: Known, irq: nat)
    requires Shaped(s) && Shaped(t) && Served(s, a) && Gained(s, t, irq)
    requires a.claimed == {} && !a.stuck <==> s.spdCount == 0
    requires b.targets.Keys <= a.targets.Keys + {irq} && b == Requested(a.(targets := b.targets), irq)
    requires irq in b.targets ==> IsRelays(HandlerOf(t, irq))
    ensures Served(t, b)
  {
    forall l | l in b.targets
      ensures IsRelays(HandlerOf(t, l)) && (IsEnabled(t, l) <==> l !in b.off)
    {
      if l != irq {
        assert l in a.targets;
      }
    }
    forall l
      ensures l in b.claimed <==> IsSpd(l) && HandlerOf(t, l).Some?
    {
      assert l in a.claimed <==> IsSpd(l) && HandlerOf(s, l).Some?;
    }
  }

  lemma {:induction false} ServedAfterDirectRelease(s: State, a: Known, t: State, b: Known, irq: nat, ans: int)
    requires Shaped(s) && Shaped(t) && Served(s, a) && !IsSpd(irq) && DirectReleased(s, t, irq, ans)
    requires b.targets.Keys <= a.targets.Keys && (irq in b.targets ==> ans < 0)
    requires b == a.(targets := b.targets, off := a.off + {irq})
    requires irq == IRQ_DEV9 && Cascaded(s) ==> ans < 0
    ensures Served(t, b)
  {
    forall l | l in b.targets
      ensures IsRelays(HandlerOf(t, l)) && (IsEnabled(t, l) <==> l !in b.off)
    {
      assert l in a.targets;
    }
    forall l
      ensures l in b.claimed <==> IsSpd(l) && HandlerOf(t, l).Some?
    {
      assert l in a.claimed <==> IsSpd(l) && HandlerOf(s, l).Some?;
    }
  }

  lemma {:induction false} ServedAfterSpdRelease(s: State, a: Known, t: State, b: Known, irq: nat, ans: int, e: int)
    requires SpdInv(s) && Shaped(t) && Served(s, a) && IsSpd(irq) && SpdReleased(s, t, irq, ans)
    requires HandlerOf(s, irq).Some? ==> (e != 0 <==> s.spdCount == 1 && ans < 0)
    requires b.targets.Keys <= a.targets.Keys - {irq} && b == Released(a.(targets := b.targets), irq, e)
    ensures Served(t, b)
  {
    hide Surplus;
    forall l | l in b.targets
      ensures IsRelays(HandlerOf(t, l)) && (IsEnabled(t, l) <==> l !in b.off)
    {
      assert l in a.targets && l != irq;
    }
    forall l
      ensures l in b.claimed <==> IsSpd(l) && HandlerOf(t, l).Some?
    {
      assert l in a.claimed <==> IsSpd(l) && HandlerOf(s, l).Some?;
    }
  }

  /** A release that keeps the mapped lines' handlers and the cascade, seen by callers. */
  lemma {:induction false} ServedAfterRelease(s: State, a: Known, b: Known, irq: nat, ans: int)
    requires SpdInv(s) && Served(s, a)
    requires b.targets.Keys <= a.targets.Keys && (irq in b.targets ==> !IsSpd(irq) && ans < 0)
    requires b == Released(a.(targets := b.targets), irq, Release(s, irq, ans).1)
    requires irq == IRQ_DEV9 && Cascaded(s) ==> ans < 0
    ensures Served(Release(s, irq, ans).0, b)
  {
    hide Release, SpdInv, Surplus, HandlerOf, IsEnabled, DirectReleased, SpdReleased, Served, Cascaded;
    SpdShaped(s);
    ReleaseLines(s, irq, ans);
    if IsSpd(irq) {
      if HandlerOf(s, irq).Some? {
        ReleaseOutcome(s, irq, ans);
      }
      ServedAfterSpdRelease(s, a, Release(s, irq, ans).0, b, irq, ans, Release(s, irq, ans).1);
    } else {
      ServedAfterDirectRelease(s, a, Release(s, irq, ans).0, b, irq, ans);
    }
  }

  /** The count is zero exactly while no SPD line is claimed and DEV9 is not stuck. */
  lemma {:induction false} CountKnown(s: State, a: Known)
    requires DeliveryInv(s, a)
    ensures a.claimed == {} && !a.stuck <==> s.spdCount == 0
  {
    if s.spdCount == 0 {
      forall l | l in a.claimed
        ensures false
      {
        SomeClaimed(s.spdIrqs, l - SPD_BASE, SPD_LINES);
      }
    } else if a.claimed == {} {
      forall i | 0 <= i < SPD_LINES
        ensures s.spdIrqs[i] == None
      {
        assert SPD_BASE + i !in a.claimed;
      }
      NoneClaimed(s.spdIrqs, SPD_LINES);
    }
  }

  // ----- Steps -----

  lemma {:induction false} RelayRequestDelivers(s: State, a: Known, iop: nat, target: nat, rpc: bool, ans: int)
    requires DeliveryInv(s, a)
    ensures var e := RelayRequest(iop, target, rpc, ans);
            Served(Step(s, e), Learn(a, e, Answer(s, e)))
  {
    hide Request, FindMap, FindUnset, Targets, Inv, SpdInv, Surplus, HandlerOf, IsEnabled, Gained;
    InvShaped(s);
    RequestRefinesMap(s, iop, target, rpc, ans);
    var (t, e) := RequestMap(s, iop, target, rpc, ans);
    if e == 0 {
      var k := FindUnset(s.irqs, 0);
      var w := Slot(true, iop, target, rpc);
      var cb := Callback(ServiceIrq, k.value);
      var irqs := s.irqs[k.value := w];
      var s0 := s.(irqs := irqs);
      RequestGains(s0, iop, cb, ans);
      SlotsDoNotMatter(s, t, irqs, iop);
      CountKnown(s, a);
      ServedAfterGain(s, a, t, Requested(a.(targets := a.targets[iop := (target, rpc)]), iop), iop);
    }
  }

  /** Whatever the relay's release answers, it keeps the other lines served, unless it loses its own. */
  lemma {:induction false} RelayReleaseDelivers(s: State, a: Known, iop: nat, ans: int)
    requires DeliveryInv(s, a) && Fair(s, RelayRelease(iop, ans)) && !Loses(s, RelayRelease(iop, ans))
    ensures var e := RelayRelease(iop, ans);
            && Served(Step(s, e), Learn(a, e, Answer(s, e)))
            && (iop in a.targets ==> (Answer(s, e) == 0 <==> IsSpd(iop) || ans >= 0))
  {
    hide Release, FindMap, Targets, Inv, SpdInv, Surplus, HandlerOf, IsEnabled, Served;
    InvShaped(s);
    InvTable(s);
    FindMapTargets(s.irqs, iop);
    var k := FindMap(s.irqs, iop, 0);
    if k.Some? {
      assert HandlerOf(s, iop).Some? by {
        MappedHasHandler(s, a, iop);
      }
      ReleaseOutcome(s, iop, ans);
      var e := Release(s, iop, ans).1;
      var b := Released(if e == 0 then a.(targets := a.targets - {iop}) else a, iop, e);
      ServedAfterRelease(s, a, b, iop, ans);
      TableDoesNotServe(Release(s, iop, ans).0, ReleaseMap(s, iop, ans).0.irqs, b);
    }
  }

  lemma {:induction false} MappedHasHandler(s: State, a: Known, l: nat)
    requires Shaped(s) && Served(s, a) && l in a.targets
    ensures HandlerOf(s, l).Some?
  {
  }

  lemma {:induction false} TableDoesNotServe(s: State, irqs: seq<Slot>, a: Known)
    requires Shaped(s) && |irqs| == MAX_IRQ_RELAYS && Served(s, a)
    ensures Served(s.(irqs := irqs), a)
  {
    LogsDoNotServe(s, a, s.(irqs := irqs));
  }

  lemma {:induction false} DriverDelivers(s: State, a: Known, e: Event)
    requires DeliveryInv(s, a) && Fair(s, e) && !Loses(s, e) && (e.DriverRequest? || e.DriverRelease?)
    ensures Served(Step(s, e), Learn(a, e, Answer(s, e)))
  {
    hide Request, Release, FindMap, Targets, Inv, SpdInv, Surplus, IsEnabled;
    InvShaped(s);
    match e
    case DriverRequest(irq, id, arg, ans) =>
      RequestGains(s, irq, Callback(Driver(id), arg), ans);
      if Request(s, irq, Callback(Driver(id), arg), ans).1 == 0 {
        assert irq !in a.targets;
        CountKnown(s, a);
        ServedAfterGain(s, a, Step(s, e), Requested(a, irq), irq);
      }
    case DriverRelease(irq, ans) =>
      ServedAfterRelease(s, a, Released(a, irq, Release(s, irq, ans).1), irq, ans);
  }

  lemma {:induction false} SwitchDelivers(s: State, a: Known, irq: nat)
    requires Shaped(s) && Served(s, a)
    ensures Served(EnableIrq(s, irq), a.(off := a.off - {irq}))
    ensures Served(DisableIrq(s, irq), a.(off := a.off + {irq}))
  {
    var t, u := EnableIrq(s, irq), DisableIrq(s, irq);
    assert forall l :: HandlerOf(t, l) == HandlerOf(s, l);
    assert forall l :: HandlerOf(u, l) == HandlerOf(s, l);
    forall l
      ensures IsEnabled(t, l) <==> l == irq || IsEnabled(s, l)
      ensures IsEnabled(u, l) <==> l != irq && IsEnabled(s, l)
    {
      SwitchLine(s, irq, l);
    }
  }

  lemma {:induction false} SwitchLine(s: State, irq: nat, l: nat)
    requires Shaped(s)
    ensures IsEnabled(EnableIrq(s, irq), l) <==> l == irq || IsEnabled(s, l)
    ensures IsEnabled(DisableIrq(s, irq), l) <==> l != irq && IsEnabled(s, l)
  {
  }

  lemma {:induction false} LogsDoNotServe(s: State, a: Known, t: State)
    requires Shaped(s) && Shaped(t) && Served(s, a)
    requires t == s.(irqs := t.irqs, stat := t.stat, called := t.called, sent := t.sent)
    ensures Served(t, a)
  {
    assert forall l :: HandlerOf(t, l) == HandlerOf(s, l);
  }

  lemma {:induction false} StepServes(s: State, a: Known, e: Event)
    requires DeliveryInv(s, a) && Fair(s, e) && !Loses(s, e)
    ensures Served(Step(s, e), Learn(a, e, Answer(s, e)))
  {
    hide Request, Release, RequestMap, Remap, ReleaseMap, Interrupt, FindMap, Targets, Inv, SpdInv, Surplus, Served;
    InvShaped(s);
    match e
    case RelayRequest(iop, target, rpc, ans) => RelayRequestDelivers(s, a, iop, target, rpc, ans);
    case RelayRemap(iop, target, rpc) => RemapDelivers(s, a, iop, target, rpc);
    case RelayRelease(iop, ans) => RelayReleaseDelivers(s, a, iop, ans);
    case DriverRequest(_, _, _, _) => DriverDelivers(s, a, e);
    case DriverRelease(_, _) => DriverDelivers(s, a, e);
    case Enable(irq) => SwitchDelivers(s, a, irq);
    case Disable(irq) => SwitchDelivers(s, a, irq);
    case Raise(line) => LogsDoNotServe(s, a, Step(s, e));
    case Interrupted(irq) =>
      InterruptKeeps(s, irq);
      LogsDoNotServe(s, a, Step(s, e));
  }

  lemma {:induction false} RemapDelivers(s: State, a: Known, iop: nat, target: nat, rpc: bool)
    requires DeliveryInv(s, a)
    ensures var e := RelayRemap(iop, target, rpc);
            Served(Step(s, e), Learn(a, e, Answer(s, e)))
  {
    hide Remap, Targets, Inv, SpdInv, Surplus, HandlerOf, IsEnabled;
    InvShaped(s);
    RemapRefinesMap(s, iop, target, rpc);
    LogsDoNotServe(s, a, Remap(s, iop, target, rpc).0);
  }

  /** The table holds what callers know. */
  lemma {:induction false} StepTargets(s: State, a: Known, e: Event)
    requires Inv(s) && Targets(s.irqs) == a.targets
    ensures Targets(Step(s, e).irqs) == Learn(a, e, Answer(s, e)).targets
  {
    hide Request, Release, RequestMap, Remap, ReleaseMap, Interrupt, FindMap, Targets, Inv;
    InvShaped(s);
    match e
    case RelayRequest(iop, target, rpc, ans) => RequestRefinesMap(s, iop, target, rpc, ans);
    case RelayRemap(iop, target, rpc) => RemapRefinesMap(s, iop, target, rpc);
    case RelayRelease(iop, ans) => ReleaseRefinesMap(s, iop, ans);
    case DriverRequest(_, _, _, _) =>
    case DriverRelease(_, _) =>
    case Enable(irq) =>
    case Disable(irq) =>
    case Raise(line) =>
    case Interrupted(irq) => InterruptKeeps(s, irq);
  }

  /** Callers know when DEV9 gets stuck. */
  lemma {:induction false} StuckKnown(s: State, a: Known, e: Event)
    requires DeliveryInv(s, a) && Fair(s, e) && !Loses(s, e)
    ensures Learn(a, e, Answer(s, e)).stuck <==> a.stuck || IsFailedRelease(s, e)
  {
    hide Request, Release, RequestMap, Remap, FindMap, SpdInv, Surplus, Targets, Inv;
    InvShaped(s);
    if e.DriverRelease? && HandlerOf(s, e.irq).Some? {
      ReleaseOutcome(s, e.irq, e.ans);
    } else if e.RelayRelease? {
      InvTable(s);
      FindMapTargets(s.irqs, e.iop);
      RelayReleaseDelivers(s, a, e.iop, e.ans);
    }
  }

  lemma {:induction false} StepDelivers(s: State, a: Known, e: Event)
    requires DeliveryInv(s, a) && Fair(s, e) && !Loses(s, e)
    ensures DeliveryInv(Step(s, e), Learn(a, e, Answer(s, e)))
  {
    hide Step, Learn, Inv, SpdInv, Surplus, Served, Targets, Fair, Loses, IsFailedRelease;
    StepInv(s, e);
    StepTargets(s, a, e);
    StepServes(s, a, e);
    StuckKnown(s, a, e);
    InvShaped(s);
    SpdUseCount(s, e);
    SurplusBound(Step(s, e));
  }

  /** In every fair run that loses no line each mapped line is served by the relay, and callers know which are on. */
  lemma {:induction false} RunDelivers(s: State, es: seq<Event>)
    requires Initial(s) && FairRun(s, es) && NeverLoses(s, es)
    ensures DeliveryInv(After(s, es), KnownAfter(s, es))
    decreases |es|
  {
    hide DeliveryInv, Step, Learn, Answer, Fair, Loses;
    if es == [] {
      InitialDelivers(s);
    } else {
      RunDelivers(s, es[..|es| - 1]);
      StepDelivers(After(s, es[..|es| - 1]), KnownAfter(s, es[..|es| - 1]), es[|es| - 1]);
    }
  }

  lemma {:induction false} InitialDelivers(s: State)
    requires Initial(s)
    ensures DeliveryInv(s, NOTHING_KNOWN)
  {
    hide Inv, SpdInv, Surplus, FindMap;
    InitialInv(s);
    InitialSpd(s);
    NoSurplusAtFirst(s);
    assert Targets(s.irqs) == map[];
  }

  // ----- Delivery -----

  /** What main is owed for a line: the target's number, or the word with that bit set. */
  function Owed(targets: map<nat, (nat, bool)>, l: nat): Message
    requires l in targets
  {
    var (target, rpc) := targets[l];
    if rpc then Rpc(target := target) else SmFlag(bits := Word({target}, 32))
  }

  /** Main reads this target from the message: a command's number, or the only bit set in SMFLAG. */
  ghost predicate ReadAs(m: Message, target: nat, rpc: bool) {
    match m
    case Rpc(n) => rpc && n == target
    case SmFlag(w) => !rpc && target < 32 && forall k: nat :: k < 32 ==> (HasBit(w, k) <==> k == target)
  }

  /** Main reads the line's latest target, unless it is to be told by a bit that SMFLAG does not have. */
  lemma {:induction false} OwedIsRead(targets: map<nat, (nat, bool)>, l: nat)
    requires l in targets
    ensures ReadAs(Owed(targets, l), targets[l].0, targets[l].1) <==> targets[l].1 || targets[l].0 < 32
  {
    var (target, rpc) := targets[l];
    WordOfOne(target, 32);
    if !rpc && target < 32 {
      forall k: nat | k < 32
        ensures HasBit(Pow2(target), k) <==> k == target
      {
        OnlyBit(target, k);
      }
    }
  }

  lemma {:induction false} OwedIsSent(targets: map<nat, (nat, bool)>, l: nat)
    requires l in targets
    ensures MessageFor(targets[l].0, targets[l].1) == Owed(targets, l)
  {
    WordOfOne(targets[l].0, 32);
    ShiftedOne(targets[l].0);
  }

  /** The slot a mapped line's callback points at holds the line's target. */
  lemma {:induction false} RelayOwes(s: State, a: Known, l: nat)
    requires DeliveryInv(s, a) && l in a.targets
    ensures var h := HandlerOf(s, l);
            && IsRelays(h) && h.value.arg < |s.irqs|
            && MessageFor(s.irqs[h.value.arg].target, s.irqs[h.value.arg].rpc) == Owed(a.targets, l)
  {
    hide MessageFor, SpdInv, Surplus, FindMap, Targets, Owed;
    OwedIsSent(a.targets, l);
    SlotInTargets(s.irqs, HandlerOf(s, l).value.arg);
  }

  /** A direct line that is enabled: one callback, one message, nothing else; one that is not: nothing. */
  lemma {:induction false} DirectDelivery(s: State, a: Known, l: nat)
    requires DeliveryInv(s, a) && !IsSpd(l) && l in a.targets
    ensures var t := Step(s, Interrupted(l));
            && t.sent == s.sent + (if l in s.enabled then [Owed(a.targets, l)] else [])
            && |t.called| == |s.called| + (if l in s.enabled then 1 else 0)
            && t == s.(called := t.called, sent := t.sent)
  {
    hide MessageFor, SpdInv, Surplus, FindMap, Targets, Owed;
    RelayOwes(s, a, l);
  }

  /** What main is owed for one SPD line, if it is pending. */
  function OwedAt(targets: map<nat, (nat, bool)>, pending: set<nat>, i: nat): seq<Message> {
    if i in pending && SPD_BASE + i in targets then [Owed(targets, SPD_BASE + i)] else []
  }

  /** What main is owed for the pending SPD lines below `n`, highest line first. */
  function OwedFor(targets: map<nat, (nat, bool)>, pending: set<nat>, n: nat): seq<Message> {
    if n == 0 then []
    else OwedAt(targets, pending, n - 1) + OwedFor(targets, pending, n - 1)
  }

  lemma {:induction false} ClaimedLineOwes(s: State, a: Known, i: nat)
    requires DeliveryInv(s, a) && i < SPD_LINES && s.spdIrqs[i].Some?
    ensures var cb := s.spdIrqs[i].value;
            Messages(s.irqs, [cb]) == if SPD_BASE + i in a.targets then [Owed(a.targets, SPD_BASE + i)] else []
  {
    hide MessageFor, SpdInv, Surplus, FindMap, Targets, Owed;
    var l := SPD_BASE + i;
    assert HandlerOf(s, l) == s.spdIrqs[i];
    OneMessage(s.irqs, s.spdIrqs[i].value);
    if l in a.targets {
      RelayOwes(s, a, l);
    } else if s.spdIrqs[i].value.handler.ServiceIrq? {
      SlotInTargets(s.irqs, s.spdIrqs[i].value.arg);
      assert false;
    }
  }

  lemma {:induction false} OneMessage(irqs: seq<Slot>, cb: Callback)
    ensures Messages(irqs, [cb]) ==
            if cb.handler.ServiceIrq? && cb.arg < |irqs|
            then [MessageFor(irqs[cb.arg].target, irqs[cb.arg].rpc)] else []
  {
    assert Messages(irqs, [cb][1..]) == [];
  }

  lemma {:induction false} MessagesOfCons(irqs: seq<Slot>, cb: Callback, cbs: seq<Callback>)
    ensures Messages(irqs, [cb] + cbs) == Messages(irqs, [cb]) + Messages(irqs, cbs)
  {
    OneMessage(irqs, cb);
    assert ([cb] + cbs)[1..] == cbs;
  }

  /** The callbacks of a dispatch send exactly what is owed for the pending lines. */
  lemma {:induction false} DispatchSends(s: State, a: Known, pending: set<nat>, n: nat)
    requires DeliveryInv(s, a) && n <= SPD_LINES == |s.spdIrqs|
    ensures Messages(s.irqs, Descending(s.spdIrqs, pending, n)) == OwedFor(a.targets, pending, n)
  {
    hide DeliveryInv, Owed;
    if n > 0 {
      DispatchSends(s, a, pending, n - 1);
      DispatchSendsLine(s, a, pending, n - 1);
    }
  }

  lemma {:induction false} DispatchSendsLine(s: State, a: Known, pending: set<nat>, i: nat)
    requires DeliveryInv(s, a) && i < SPD_LINES == |s.spdIrqs|
    ensures var rest := Descending(s.spdIrqs, pending, i);
            Messages(s.irqs, Descending(s.spdIrqs, pending, i + 1)) ==
            OwedAt(a.targets, pending, i) + Messages(s.irqs, rest)
  {
    hide DeliveryInv, Owed, Messages;
    var rest := Descending(s.spdIrqs, pending, i);
    if s.spdIrqs[i].Some? {
      ClaimedLineOwes(s, a, i);
      MessagesOfCons(s.irqs, s.spdIrqs[i].value, rest);
    } else {
      Unclaimed(s, a, i);
    }
    if i !in pending || s.spdIrqs[i].None? {
      assert Descending(s.spdIrqs, pending, i + 1) == rest;
    }
  }

  lemma {:induction false} Unclaimed(s: State, a: Known, i: nat)
    requires DeliveryInv(s, a) && i < SPD_LINES == |s.spdIrqs| && s.spdIrqs[i].None?
    ensures SPD_BASE + i !in a.targets
  {
    hide Inv, SpdInv, Surplus, Targets;
    InvShaped(s);
    assert HandlerOf(s, SPD_BASE + i) == None;
  }

  /** A line among the pending ones adds exactly its one message. */
  lemma {:induction false} OwedOnce(targets: map<nat, (nat, bool)>, pending: set<nat>, i: nat, n: nat)
      returns (above: seq<Message>, below: seq<Message>)
    requires i in pending && i < n && SPD_BASE + i in targets
    ensures OwedFor(targets, pending, n) == above + [Owed(targets, SPD_BASE + i)] + below
    ensures OwedFor(targets, pending - {i}, n) == above + below
  {
    hide Owed, OwedFor;
    OwedStep(targets, pending, n - 1);
    OwedStep(targets, pending - {i}, n - 1);
    if i == n - 1 {
      OwedBelow(targets, pending, i, i);
      above, below := [], OwedFor(targets, pending, i);
      assert [] + below == below;
    } else {
      var rest;
      rest, below := OwedOnce(targets, pending, i, n - 1);
      var head := OwedAt(targets, pending, n - 1);
      above := head + rest;
      assert head + (rest + [Owed(targets, SPD_BASE + i)] + below) == above + [Owed(targets, SPD_BASE + i)] + below;
      assert head + (rest + below) == above + below;
    }
  }

  lemma {:induction false} OwedStep(targets: map<nat, (nat, bool)>, pending: set<nat>, i: nat)
    ensures OwedFor(targets, pending, i + 1) == OwedAt(targets, pending, i) + OwedFor(targets, pending, i)
  {
  }

  lemma {:induction false} OwedBelow(targets: map<nat, (nat, bool)>, pending: set<nat>, i: nat, n: nat)
    requires n <= i
    ensures OwedFor(targets, pending - {i}, n) == OwedFor(targets, pending, n)
  {
    if n > 0 {
      OwedBelow(targets, pending, i, n - 1);
    }
  }

  /**
   An SPD line, through DEV9. If DEV9 is enabled, main is sent what is owed for the
   lines pending and unmasked, each once and in descending order, and they are
   acknowledged; otherwise the line stays raised and nothing happens.
   */
  lemma {:induction false} CascadedDelivery(s: State, a: Known, l: nat)
    requires DeliveryInv(s, a) && IsSpd(l) && l in a.targets
    requires Shaped(s)
    ensures var t := Step(Step(s, Raise(l - SPD_BASE)), Interrupted(IRQ_DEV9));
            var pending := if IRQ_DEV9 in s.enabled then (s.stat + {l - SPD_BASE}) * s.mask else {};
            && t.stat == s.stat + {l - SPD_BASE} - pending
            && t.sent == s.sent + OwedFor(a.targets, pending, SPD_LINES)
            && t == s.(stat := t.stat, called := t.called, sent := t.sent)
  {
    hide Surplus, FindMap, Targets, Owed, Inv, SpdInv, Dispatch, OwedFor, Descending, Messages, HandlerOf;
    var s2 := Step(s, Raise(l - SPD_BASE));
    CascadeStands(s, a, l);
    if IRQ_DEV9 in s.enabled {
      DispatchEffect(s2);
      DispatchSends(s, a, s2.stat * s2.mask, SPD_LINES);
    } else {
      NothingOwed(a.targets, SPD_LINES);
      assert s2.stat - {} == s2.stat;
    }
  }

  /** A claimed SPD line keeps DEV9 cascaded. */
  lemma {:induction false} CascadeStands(s: State, a: Known, l: nat)
    requires DeliveryInv(s, a) && IsSpd(l) && l in a.targets
    ensures Cascaded(s)
  {
    SomeClaimed(s.spdIrqs, l - SPD_BASE, SPD_LINES);
  }

  lemma {:induction false} NothingOwed(targets: map<nat, (nat, bool)>, n: nat)
    ensures OwedFor(targets, {}, n) == []
  {
    if n > 0 {
      NothingOwed(targets, n - 1);
    }
  }

  /** The messages an event on the line leads to: directly, or through DEV9. */
  function Delivery(s: State, l: nat): (t: State)
    requires Shaped(s)
    ensures Shaped(t)
  {
    if IsSpd(l) then Step(Step(s, Raise(l - SPD_BASE)), Interrupted(IRQ_DEV9)) else Step(s, Interrupted(l))
  }

  /** An event on the line reaches main: the line is enabled, and for an SPD line DEV9 as well. */
  predicate Reaches(s: State, l: nat) {
    IsEnabled(s, l) && (IsSpd(l) ==> IRQ_DEV9 in s.enabled)
  }

  /** The same as callers see it. */
  predicate SwitchedOn(a: Known, l: nat) {
    l !in a.off && (IsSpd(l) ==> IRQ_DEV9 !in a.off)
  }

  /** What main is owed at the same event for other lines: the pending SPD lines served along. */
  function OwedForOthers(s: State, a: Known, l: nat): seq<Message> {
    if IsSpd(l) && IRQ_DEV9 in s.enabled then OwedFor(a.targets, s.stat * s.mask - {l - SPD_BASE}, SPD_LINES)
    else []
  }

  /**
   End to end: after any fair run that loses no line, an event on a mapped line sends main what is owed
   for the lines served along with it, and among that exactly one message for the
   line, for the target last requested or remapped, if and only if the event reaches
   main; and callers can tell whether it does.
   */
  lemma {:induction false} EndToEnd(s: State, es: seq<Event>, l: nat)
    returns (before: seq<Message>, behind: seq<Message>)
    requires Initial(s) && FairRun(s, es) && NeverLoses(s, es) && l in KnownAfter(s, es).targets
    ensures var now, a := After(s, es), KnownAfter(s, es);
            && before + behind == OwedForOthers(now, a, l)
            && Delivery(now, l).sent ==
               now.sent + (before + (if Reaches(now, l) then [Owed(a.targets, l)] else []) + behind)
            && (Reaches(now, l) <==> SwitchedOn(a, l))
            && (ReadAs(Owed(a.targets, l), a.targets[l].0, a.targets[l].1) <==>
                a.targets[l].1 || a.targets[l].0 < 32)
  {
    assert Shaped(s);
    hide After, KnownAfter, FairRun, NeverLoses, Initial, Owed, OwedForOthers, Delivery, DeliveryInv, Reaches,
      SwitchedOn;
    RunDelivers(s, es);
    OwedIsRead(KnownAfter(s, es).targets, l);
    CallersCanTell(After(s, es), KnownAfter(s, es), l);
    if IsSpd(l) {
      before, behind := CascadedAmongOthers(After(s, es), KnownAfter(s, es), l);
    } else {
      before, behind := [], [];
      DirectAlone(After(s, es), KnownAfter(s, es), l);
    }
  }

  lemma {:induction false} CallersCanTell(s: State, a: Known, l: nat)
    requires DeliveryInv(s, a) && Shaped(s) && l in a.targets
    ensures Reaches(s, l) <==> SwitchedOn(a, l)
  {
    hide Inv, SpdInv, Surplus, Targets, HandlerOf;
    if IsSpd(l) {
      CascadeStands(s, a, l);
    }
  }

  lemma {:induction false} CascadedAmongOthers(s: State, a: Known, l: nat)
    returns (before: seq<Message>, behind: seq<Message>)
    requires DeliveryInv(s, a) && Shaped(s) && IsSpd(l) && l in a.targets
    ensures Delivery(s, l).sent ==
            s.sent + (before + (if Reaches(s, l) then [Owed(a.targets, l)] else []) + behind)
    ensures before + behind == OwedForOthers(s, a, l)
  {
    hide DeliveryInv, Owed, OwedFor, Step;
    var i := l - SPD_BASE;
    var pending := (s.stat + {i}) * s.mask;
    CascadedDelivery(s, a, l);
    if IRQ_DEV9 !in s.enabled {
      before, behind := [], [];
      NothingOwed(a.targets, SPD_LINES);
      assert [] + [] + [] == OwedFor(a.targets, {}, SPD_LINES);
    } else if Reaches(s, l) {
      before, behind := OwedOnce(a.targets, pending, i, SPD_LINES);
      assert pending - {i} == s.stat * s.mask - {i};
    } else {
      before, behind := OwedFor(a.targets, pending, SPD_LINES), [];
      assert pending == s.stat * s.mask - {i};
      assert before + [] + [] == before && before + [] == before;
    }
  }

  lemma {:induction false} DirectAlone(s: State, a: Known, l: nat)
    requires DeliveryInv(s, a) && Shaped(s) && !IsSpd(l) && l in a.targets
    ensures Delivery(s, l).sent ==
            s.sent + ([] + (if Reaches(s, l) then [Owed(a.targets, l)] else []) + [])
    ensures [] + [] == OwedForOthers(s, a, l)
  {
    hide DeliveryInv, Owed, Step;
    DirectDelivery(s, a, l);
    var m := if Reaches(s, l) then [Owed(a.targets, l)] else [];
    assert [] + m + [] == m;
  }

  /** Lines requested and switched off again are not delivered: here DEV9 is, behind line 46. */
  lemma {:induction false} SwitchedOffLoses(s: State, target: nat)
    requires Initial(s) && 13 !in s.handlers && target < 128
    ensures var es := [RelayRequest(46, target, true, 0), Disable(13)];
            var now, a := After(s, es), KnownAfter(s, es);
            && FairRun(s, es) && NeverLoses(s, es) && 46 in a.targets && !SwitchedOn(a, 46)
            && Delivery(now, 46).sent == now.sent
  {
    hide Delivery;
    var first, second := RelayRequest(SPD_BASE, target, true, 0), Disable(IRQ_DEV9);
    FirstRequest(s, target);
    TwoSteps(s, first, second);
    var es := [first, second];
    var now, a := After(s, es), KnownAfter(s, es);
    assert IRQ_DEV9 in a.off;
    var before, behind := EndToEnd(s, es, SPD_BASE);
    assert before + [] + behind == before + behind;
  }

  /** DEV9 switched off before the first SPD line is claimed comes on with it. */
  lemma {:induction false} FirstClaimSwitchesOn(s: State, target: nat)
    requires Initial(s) && 13 !in s.handlers && target < 128
    ensures var es := [Disable(13), RelayRequest(46, target, true, 0)];
            var now, a := After(s, es), KnownAfter(s, es);
            && FairRun(s, es) && NeverLoses(s, es)
            && 46 in a.targets && SwitchedOn(a, 46) && Reaches(now, 46)
  {
    var first, second := Disable(IRQ_DEV9), RelayRequest(SPD_BASE, target, true, 0);
    TwoSteps(s, first, second);
    var es := [first, second];
    var t := Step(s, first);
    assert Initial(t);
    FirstRequest(t, target);
    assert KnownAfter(s, [first]) == Known(map[], {IRQ_DEV9}, {}, false);
    var before, behind := EndToEnd(s, es, SPD_BASE);
  }

  /** The first request of an SPD line, with nothing mapped. */
  lemma {:induction false} FirstRequest(s: State, target: nat)
    requires Initial(s) && IRQ_DEV9 !in s.handlers && target < 128
    ensures Answer(s, RelayRequest(SPD_BASE, target, true, 0)) == 0
  {
    assert FindMap(s.irqs, SPD_BASE, 0).None?;
    assert FindUnset(s.irqs, 0).Some?;
  }

  lemma {:induction false} TwoSteps(s: State, first: Event, second: Event)
    requires Shaped(s)
    ensures var es := [first, second];
            && After(s, [first]) == Step(s, first) && After(s, es) == Step(Step(s, first), second)
            && (FairRun(s, es) <==> Fair(s, first) && Fair(Step(s, first), second))
            && (NeverLoses(s, es) <==> !Loses(s, first) && !Loses(Step(s, first), second))
            && KnownAfter(s, [first]) == Learn(NOTHING_KNOWN, first, Answer(s, first))
            && KnownAfter(s, es) == Learn(KnownAfter(s, [first]), second, Answer(Step(s, first), second))
  {
    hide Step, Learn, Answer, Fair, Loses;
    var es := [first, second];
    assert es[..1] == [first] && [first][..0] == [];
    assert After(s, []) == s && FairRun(s, []) && NeverLoses(s, []) && KnownAfter(s, []) == NOTHING_KNOWN;
    assert After(s, [first]) == Step(s, first);
    assert (FairRun(s, [first]) <==> Fair(s, first)) && (NeverLoses(s, [first]) <==> !Loses(s, first));
  }

  /** When nothing else is pending, the message for the line is the only one. */
  lemma {:induction false} DeliveredAlone(s: State, es: seq<Event>, l: nat)
    requires Initial(s) && FairRun(s, es) && NeverLoses(s, es) && l in KnownAfter(s, es).targets
    requires IsSpd(l) ==> After(s, es).stat * After(s, es).mask <= {l - SPD_BASE}
    ensures var now, a := After(s, es), KnownAfter(s, es);
            && Delivery(now, l).sent == now.sent + (if SwitchedOn(a, l) then [Owed(a.targets, l)] else [])
            && (ReadAs(Owed(a.targets, l), a.targets[l].0, a.targets[l].1) <==>
                a.targets[l].1 || a.targets[l].0 < 32)
  {
    assert Shaped(s);
    hide After, KnownAfter, FairRun, NeverLoses, Initial, Owed, OwedFor, Delivery, Reaches, SwitchedOn;
    var before, behind := EndToEnd(s, es, l);
    var now, a := After(s, es), KnownAfter(s, es);
    if IsSpd(l) {
      assert now.stat * now.mask - {l - SPD_BASE} == {};
      NothingOwed(a.targets, SPD_LINES);
    }
    assert before == [] && behind == [];
    var m := if Reaches(now, l) then [Owed(a.targets, l)] else [];
    assert [] + m + [] == m;
  }

  /** Main can tell targets apart: it reads no other target from the message, told by either way. */
  lemma {:induction false} MessagesTellTargets(target: nat, rpc: bool, other: nat, otherRpc: bool)
    requires rpc || target < 32
    ensures ReadAs(MessageFor(target, rpc), other, otherRpc) <==> target == other && rpc == otherRpc
  {
    var targets := map[0 := (target, rpc)];
    OwedIsSent(targets, 0);
    OwedIsRead(targets, 0);
    var m := MessageFor(target, rpc);
    if m.SmFlag? && other < 32 {
      assert HasBit(m.bits, other) <==> other == target;
    }
  }
}

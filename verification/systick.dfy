/** The SysTick driver of the TM4C123: a periodic or busy-wait timer over the CTRL, RELOAD
    and CURRENT registers of the Cortex-M4 system timer, plus the one callback slot that
    the SysTick exception handler dispatches to.

    The timer's state is one immutable record `Timer`; every driver service is a pure
    transition. CTRL is a bit-vector because the services set, clear and test its bits;
    RELOAD and CURRENT are only ever assigned whole values and are kept as numbers below
    2^32. A callback is known by an identity (the function pointer), and the empty slot
    (`NULL_PTR`) is `None`. */
module SysTick {
  import opened Wrappers

  /** A `uint16` argument: the delay in milliseconds. */
  type U16 = x: int | 0 <= x < 0x1_0000

  /** The contents of a 32-bit register that is only ever assigned whole values. */
  type U32 = x: int | 0 <= x < 0x1_0000_0000

  /** The identity of a callback function (the value of a function pointer). */
  type CallbackId = nat

  datatype Timer = Timer(
    ctrl: bv32,                     // SYSTICK_CTRL_REG
    reload: U32,                    // SYSTICK_RELOAD_REG
    current: U32,                   // SYSTICK_CURRENT_REG
    callback: Option<CallbackId>    // g_callBackPtr
  )

  // CTRL bits, as section B3.3 of the ARMv7-M Architecture Reference Manual lays them out.

  /** ENABLE, bit 0: the counter runs. */
  const CtrlEnable: bv32 := 0x0000_0001
  /** TICKINT, bit 1: reaching zero raises the SysTick exception. */
  const CtrlTickInt: bv32 := 0x0000_0002
  /** CLKSOURCE, bit 2: the counter runs on the processor clock. */
  const CtrlClkSource: bv32 := 0x0000_0004
  /** COUNTFLAG, bit 16: the counter reached zero since CTRL was last read. */
  const CountFlag: bv32 := 0x0001_0000

  /** The value SysTick_Init OR-s into CTRL. */
  const InitCtrlBits: bv32 := 0x07
  /** The value SysTick_StartBusyWait OR-s into CTRL. */
  const BusyWaitCtrlBits: bv32 := 0x05

  /** The processor clock ticks in one millisecond: a 16 MHz clock. */
  const TicksPerMs: int := 16000

  /** The driver's literals name the intended CTRL bits: Init enables the counter, its
      interrupt and the processor clock; the busy wait enables the counter on the processor
      clock without the interrupt. */
  lemma CtrlLiterals()
    ensures InitCtrlBits == CtrlEnable | CtrlTickInt | CtrlClkSource
    ensures BusyWaitCtrlBits == CtrlEnable | CtrlClkSource
    ensures BusyWaitCtrlBits & CtrlTickInt == 0
  {
  }

  // ---------------------------------------------------------------------------------------
  // The reload value
  // ---------------------------------------------------------------------------------------

  /** `a_TimeInMilliSeconds * 16000`: the `uint16` operand is promoted to `int`, and the
      product stays far below 2^31, so the signed multiplication never overflows. */
  function TicksFor(ms: U16): (n: int)
    ensures 0 <= n <= 65535 * TicksPerMs
    ensures n < 0x8000_0000
    ensures n % TicksPerMs == 0
  {
    ms * TicksPerMs
  }

  /** C's conversion of an `int` value to a 32-bit unsigned register: modulo 2^32. */
  function IntToU32(x: int): (v: U32)
    requires -0x8000_0000 <= x < 0x8000_0000
    ensures v % 0x1_0000_0000 == x % 0x1_0000_0000
  {
    if x < 0 then x + 0x1_0000_0000 else x
  }

  /** The value stored into RELOAD: the tick count minus one, which for 0 ms is -1 and
      lands in the register as 0xFFFF_FFFF. */
  function ReloadFor(ms: U16): (v: U32)
    ensures 1 <= ms ==> v == ms * TicksPerMs - 1
    ensures ms == 0 ==> v == 0xFFFF_FFFF
  {
    IntToU32(TicksFor(ms) - 1)
  }

  /** The ticks in one period of the counter: it counts from the reload value down to zero,
      so one period is `reload + 1` ticks. */
  function PeriodTicks(reload: U32): (n: int)
    ensures 1 <= n <= 0x1_0000_0000
  {
    reload + 1
  }

  /** The whole milliseconds in one period. */
  function PeriodMs(reload: U32): int {
    PeriodTicks(reload) / TicksPerMs
  }

  /** For a delay of at least 1 ms the reload value gives back the requested delay. */
  lemma ReloadRoundTrip(ms: U16)
    requires 1 <= ms
    ensures PeriodTicks(ReloadFor(ms)) == ms * TicksPerMs
    ensures PeriodMs(ReloadFor(ms)) == ms
  {
    assert PeriodTicks(ReloadFor(ms)) == ms * TicksPerMs;
  }

  /** A request for 0 ms does not give a zero delay: the -1 stored into RELOAD is the
      largest value of the register, a period of 2^32 ticks, longer than that of every
      other delay (about 268 seconds at 16000 ticks per ms). */
  lemma ZeroDelayIsLongest(ms: U16)
    ensures PeriodTicks(ReloadFor(0)) == 0x1_0000_0000
    ensures PeriodMs(ReloadFor(0)) == 268435
    ensures 1 <= ms ==> ReloadFor(ms) < ReloadFor(0) && PeriodMs(ReloadFor(ms)) < PeriodMs(ReloadFor(0))
  {
    if 1 <= ms {
      ReloadRoundTrip(ms);
    }
  }

  /** The ticks in one period on the device. RELOAD is a 24-bit field (section B3.3 of the
      ARMv7-M Architecture Reference Manual) and bits 24..31 of a value written to it are
      dropped, so the counter runs `reload % 2^24 + 1` ticks. A value whose low 24 bits
      are 0 is counted here as a 1-tick period, although the hardware then never raises
      COUNTFLAG or the exception; no delay stores such a value (`DeviceRoundTrip`). */
  function DevicePeriodTicks(reload: U32): (n: int)
    ensures 1 <= n <= 0x100_0000
    ensures reload < 0x100_0000 ==> n == PeriodTicks(reload)
  {
    reload % 0x100_0000 + 1
  }

  /** On the device the requested delay is kept exactly for 1..1048 ms. A 0 ms request
      gives the longest 24-bit period, 2^24 ticks (about 1048 ms), and from 1049 ms on the
      tick count wraps: 1049 ms gives 6784 ticks. */
  lemma DeviceRoundTrip(ms: U16)
    ensures DevicePeriodTicks(ReloadFor(ms)) == ms * TicksPerMs <==> 1 <= ms <= 1048
    ensures ms == 0 ==> DevicePeriodTicks(ReloadFor(ms)) == 0x100_0000
    ensures ms == 1049 ==> DevicePeriodTicks(ReloadFor(ms)) == 6784
    ensures ReloadFor(ms) % 0x100_0000 != 0
  {
    if 1 <= ms <= 1048 {
      ReloadRoundTrip(ms);
    }
  }

  /** Different delays give different reload values. */
  lemma ReloadInjective(a: U16, b: U16)
    ensures ReloadFor(a) == ReloadFor(b) <==> a == b
  {
    if 1 <= a && 1 <= b {
      ReloadRoundTrip(a);
      ReloadRoundTrip(b);
    } else if 1 <= a {
      ZeroDelayIsLongest(a);
    } else if 1 <= b {
      ZeroDelayIsLongest(b);
    }
  }

  // ---------------------------------------------------------------------------------------
  // Services
  // ---------------------------------------------------------------------------------------

  /** SysTick_Init: CTRL cleared, RELOAD set from the delay, CURRENT cleared, then the
      ENABLE, TICKINT and CLKSOURCE bits OR-ed into CTRL. The callback slot is not
      touched. */
  function Init(t: Timer, ms: U16): (t': Timer)
    ensures t'.ctrl == InitCtrlBits
    ensures t'.reload == ReloadFor(ms) && t'.current == 0
    ensures t'.callback == t.callback
  {
    var stopped := t.(ctrl := 0);
    var loaded := stopped.(reload := ReloadFor(ms));
    var cleared := loaded.(current := 0);
    cleared.(ctrl := cleared.ctrl | InitCtrlBits)
  }

  /** The registers SysTick_StartBusyWait has written when it starts polling: as Init, but
      with the interrupt left disabled. */
  function BusyWaitArmed(t: Timer, ms: U16): (t': Timer)
    ensures t'.ctrl == BusyWaitCtrlBits
    ensures t'.reload == ReloadFor(ms) && t'.current == 0
    ensures t'.callback == t.callback
  {
    var stopped := t.(ctrl := 0);
    var loaded := stopped.(reload := ReloadFor(ms));
    var cleared := loaded.(current := 0);
    cleared.(ctrl := cleared.ctrl | BusyWaitCtrlBits)
  }

  /** A CTRL value read with COUNTFLAG set: the counter has reached zero. */
  predicate CountFlagSet(c: bv32) {
    c & CountFlag != 0
  }

  /** The outcome of SysTick_StartBusyWait over a finite run of CTRL reads: either some
      read saw COUNTFLAG and the service returned after `polls` reads, or every supplied
      read came back without it and the service is still polling. */
  datatype BusyWait = Returned(timer: Timer, polls: nat) | StillPolling(timer: Timer)

  /** SysTick_StartBusyWait. The values the hardware returns for the CTRL reads of the
      polling loop are supplied as `samples`; the loop runs until a read has COUNTFLAG set
      and then SysTick_Stop clears ENABLE. The callback slot is not touched. */
  method StartBusyWait(t: Timer, ms: U16, samples: seq<bv32>) returns (o: BusyWait)
    ensures o.Returned? <==> exists i :: 0 <= i < |samples| && CountFlagSet(samples[i])
    ensures o.Returned? ==> 1 <= o.polls <= |samples| && CountFlagSet(samples[o.polls - 1])
    ensures o.Returned? ==> forall j :: 0 <= j < o.polls - 1 ==> !CountFlagSet(samples[j])
    ensures o.Returned? ==> o.timer == Stop(BusyWaitArmed(t, ms))
    ensures o.StillPolling? ==> o.timer == BusyWaitArmed(t, ms)
    ensures o.timer.callback == t.callback
  {
    var armed := BusyWaitArmed(t, ms);
    var i := 0;
    while i < |samples| && !CountFlagSet(samples[i])
      invariant 0 <= i <= |samples|
      invariant forall j :: 0 <= j < i ==> !CountFlagSet(samples[j])
    {
      i := i + 1;
    }
    if i == |samples| {
      o := StillPolling(armed);
    } else {
      o := Returned(Stop(armed), i + 1);
    }
  }

  /** SysTick_SetCallBack: the slot takes the given pointer, which may be null. */
  function SetCallBack(t: Timer, f: Option<CallbackId>): (t': Timer)
    ensures t'.callback == f
    ensures t'.(callback := t.callback) == t
  {
    t.(callback := f)
  }

  /** SysTick_Stop: ENABLE cleared in CTRL. */
  function Stop(t: Timer): (t': Timer)
    ensures t'.(ctrl := t.ctrl) == t
  {
    t.(ctrl := t.ctrl & !CtrlEnable)
  }

  /** SysTick_Start: ENABLE set in CTRL. */
  function Start(t: Timer): (t': Timer)
    ensures t'.(ctrl := t.ctrl) == t
  {
    t.(ctrl := t.ctrl | CtrlEnable)
  }

  /** SysTick_DeInit: CTRL, CURRENT and RELOAD cleared. The callback slot is not touched. */
  function DeInit(t: Timer): (t': Timer)
    ensures t'.ctrl == 0 && t'.current == 0 && t'.reload == 0
    ensures t'.callback == t.callback
  {
    t.(ctrl := 0).(current := 0).(reload := 0)
  }

  /** SysTick_Handler: the callback in the slot is called, if there is one. The result is
      the state after the handler and the callbacks it called, in order. */
  function Handler(t: Timer): (res: (Timer, seq<CallbackId>))
    ensures res.0 == t
    ensures |res.1| <= 1
    ensures forall c :: c in res.1 <==> t.callback == Some(c)
  {
    match t.callback
    case None => (t, [])
    case Some(f) => (t, [f])
  }

  // ---------------------------------------------------------------------------------------
  // Properties of single services
  // ---------------------------------------------------------------------------------------

  /** After Stop, ENABLE reads as clear and every other CTRL bit is as before. */
  lemma StopClearsEnable(t: Timer)
    ensures Stop(t).ctrl & CtrlEnable == 0
    ensures Stop(t).ctrl & !CtrlEnable == t.ctrl & !CtrlEnable
  {
  }

  /** After Start, ENABLE reads as set and every other CTRL bit is as before. */
  lemma StartSetsEnable(t: Timer)
    ensures Start(t).ctrl & CtrlEnable == CtrlEnable
    ensures Start(t).ctrl & !CtrlEnable == t.ctrl & !CtrlEnable
  {
  }

  /** Stopping twice is stopping once. */
  lemma StopIdempotentWord(t: Timer)
    ensures Stop(Stop(t)).ctrl == t.ctrl & !CtrlEnable
  {
  }

  lemma StopIdempotent(t: Timer)
    ensures Stop(Stop(t)) == Stop(t)
  {
    StopIdempotentWord(t);
  }

  /** Starting twice is starting once. */
  lemma StartIdempotentWord(t: Timer)
    ensures Start(Start(t)).ctrl == t.ctrl | CtrlEnable
  {
  }

  lemma StartIdempotent(t: Timer)
    ensures Start(Start(t)) == Start(t)
  {
    StartIdempotentWord(t);
  }

  /** Stopping and restarting a timer Init set up gives back exactly the state Init left:
      in particular RELOAD still holds the delay Init loaded. */
  lemma StopStartAfterInit(t: Timer, ms: U16)
    ensures Start(Stop(Init(t, ms))) == Init(t, ms)
  {
  }

  /** The busy wait leaves CTRL with only CLKSOURCE set: the counter is stopped and its
      interrupt was never enabled. */
  lemma BusyWaitEndsStopped(t: Timer, ms: U16)
    ensures Stop(BusyWaitArmed(t, ms)).ctrl == CtrlClkSource
  {
  }

  /** DeInit after Init clears every register Init wrote, whatever the delay. */
  lemma DeInitUndoesInit(t: Timer, ms: U16)
    ensures DeInit(Init(t, ms)) == DeInit(t)
  {
  }

  /** Of two SetCallBack calls only the latest one counts. */
  lemma SetCallBackLatestWins(t: Timer, f: Option<CallbackId>, g: Option<CallbackId>)
    ensures SetCallBack(SetCallBack(t, f), g) == SetCallBack(t, g)
  {
  }

  // ---------------------------------------------------------------------------------------
  // Sequences of calls
  // ---------------------------------------------------------------------------------------

  /** A call of an interrupt-mode service, or the SysTick exception being taken. The busy
      wait is left out: it is a method over its own CTRL reads. */
  datatype Call =
    | InitCall(ms: U16)
    | SetCallBackCall(f: Option<CallbackId>)
    | StopCall
    | StartCall
    | DeInitCall
    | Interrupt

  /** The state after one call and the callbacks it invoked. */
  function Step(t: Timer, c: Call): (Timer, seq<CallbackId>) {
    match c
    case InitCall(ms) => (Init(t, ms), [])
    case SetCallBackCall(f) => (SetCallBack(t, f), [])
    case StopCall => (Stop(t), [])
    case StartCall => (Start(t), [])
    case DeInitCall => (DeInit(t), [])
    case Interrupt => Handler(t)
  }

  /** The state after a sequence of calls and the callbacks invoked along the way. */
  function Run(t: Timer, calls: seq<Call>): (Timer, seq<CallbackId>)
    decreases |calls|
  {
    if |calls| == 0 then (t, [])
    else
      var (t1, out1) := Step(t, calls[0]);
      var (t2, out2) := Run(t1, calls[1..]);
      (t2, out1 + out2)
  }

  /** Running `[c] + rest` is one step followed by running the rest. */
  lemma RunFirst(t: Timer, c: Call, rest: seq<Call>)
    ensures Run(t, [c] + rest).0 == Run(Step(t, c).0, rest).0
    ensures Run(t, [c] + rest).1 == Step(t, c).1 + Run(Step(t, c).0, rest).1
  {
    assert ([c] + rest)[1..] == rest;
  }

  /** The timer before any driver call: `g_callBackPtr` starts out null, and CTRL, RELOAD
      and CURRENT hold whatever the reset left. */
  function PowerOn(ctrl: bv32, reload: U32, current: U32): (t: Timer)
    ensures t.callback == None
    ensures Handler(t) == (t, [])
  {
    Timer(ctrl, reload, current, None)
  }

  /** The number of times the SysTick exception is taken in `calls`. */
  function Interrupts(calls: seq<Call>): nat
    decreases |calls|
  {
    if |calls| == 0 then 0
    else (if calls[0] == Interrupt then 1 else 0) + Interrupts(calls[1..])
  }

  /** The slot after `calls`: the last pointer set, or `slot` when none was set. */
  function LastSet(slot: Option<CallbackId>, calls: seq<Call>): Option<CallbackId>
    decreases |calls|
  {
    if |calls| == 0 then slot
    else LastSet(if calls[0].SetCallBackCall? then calls[0].f else slot, calls[1..])
  }

  /** Whether `calls` holds no SetCallBack. */
  predicate NoSetCallBack(calls: seq<Call>) {
    forall i :: 0 <= i < |calls| ==> !calls[i].SetCallBackCall?
  }

  /** The callback slot changes only through SetCallBack: after any sequence of calls it
      holds the last pointer set. */
  lemma {:induction false} RunSlot(t: Timer, calls: seq<Call>)
    ensures Run(t, calls).0.callback == LastSet(t.callback, calls)
    decreases |calls|
  {
    if |calls| > 0 {
      var t1 := Step(t, calls[0]).0;
      assert t1.callback == (if calls[0].SetCallBackCall? then calls[0].f else t.callback);
      RunSlot(t1, calls[1..]);
    }
  }

  /** At most one callback is invoked per interrupt. */
  lemma {:induction false} RunTraceBound(t: Timer, calls: seq<Call>)
    ensures |Run(t, calls).1| <= Interrupts(calls)
    decreases |calls|
  {
    if |calls| > 0 {
      RunTraceBound(Step(t, calls[0]).0, calls[1..]);
    }
  }

  /** Every invoked callback is one the slot held at the start or one a SetCallBack
      stored. */
  lemma {:induction false} RunInvokesOnlyOffered(t: Timer, calls: seq<Call>, c: CallbackId)
    requires c in Run(t, calls).1
    ensures t.callback == Some(c) || exists i :: 0 <= i < |calls| && calls[i] == SetCallBackCall(Some(c))
    decreases |calls|
  {
    var (t1, out1) := Step(t, calls[0]);
    if c in out1 {
      assert calls[0] == Interrupt;
    } else {
      assert c in Run(t1, calls[1..]).1;
      RunInvokesOnlyOffered(t1, calls[1..], c);
      if t1.callback == Some(c) && !(t.callback == Some(c)) {
        assert calls[0] == SetCallBackCall(Some(c));
      } else if t1.callback != Some(c) {
        var i :| 0 <= i < |calls[1..]| && calls[1..][i] == SetCallBackCall(Some(c));
        assert calls[i + 1] == SetCallBackCall(Some(c));
      }
    }
  }

  /** While no SetCallBack intervenes, every interrupt invokes the callback in the slot,
      once, and nothing else is invoked; with an empty slot nothing is invoked at all. */
  lemma {:induction false} FixedCallbackFires(t: Timer, calls: seq<Call>)
    requires NoSetCallBack(calls)
    ensures t.callback.Some? ==> Run(t, calls).1 == seq(Interrupts(calls), _ => t.callback.value)
    ensures t.callback.None? ==> Run(t, calls).1 == []
    decreases |calls|
  {
    if |calls| > 0 {
      var t1 := Step(t, calls[0]).0;
      assert t1.callback == t.callback;
      assert NoSetCallBack(calls[1..]) by {
        forall i | 0 <= i < |calls[1..]| ensures !calls[1..][i].SetCallBackCall? {
          assert calls[1..][i] == calls[i + 1];
        }
      }
      FixedCallbackFires(t1, calls[1..]);
    }
  }

  /** DeInit does not empty the callback slot: a timer de-initialised and then restarted
      still calls the callback set before DeInit when the exception is taken. */
  lemma StaleCallbackAfterDeInit(t: Timer, f: CallbackId, ms: U16)
    ensures Run(t, [SetCallBackCall(Some(f)), DeInitCall, InitCall(ms), Interrupt]).1 == [f]
  {
    var t1 := SetCallBack(t, Some(f));
    var t2 := DeInit(t1);
    var t3 := Init(t2, ms);
    assert t3.callback == Some(f);
    assert Step(t3, Interrupt) == (t3, [f]);
    RunFirst(t3, Interrupt, []);
    assert [Interrupt] + [] == [Interrupt];
    assert Run(t3, [Interrupt]).1 == [f];
    RunFirst(t2, InitCall(ms), [Interrupt]);
    assert [InitCall(ms)] + [Interrupt] == [InitCall(ms), Interrupt];
    RunFirst(t1, DeInitCall, [InitCall(ms), Interrupt]);
    assert [DeInitCall] + [InitCall(ms), Interrupt] == [DeInitCall, InitCall(ms), Interrupt];
    RunFirst(t, SetCallBackCall(Some(f)), [DeInitCall, InitCall(ms), Interrupt]);
    assert [SetCallBackCall(Some(f))] + [DeInitCall, InitCall(ms), Interrupt]
        == [SetCallBackCall(Some(f)), DeInitCall, InitCall(ms), Interrupt];
  }

  /** From power-on, nothing is invoked and the slot stays null until the first
      SetCallBack, whatever other calls and interrupts come first. */
  lemma NothingInvokedBeforeSetCallBack(ctrl: bv32, reload: U32, current: U32, calls: seq<Call>)
    requires NoSetCallBack(calls)
    ensures Run(PowerOn(ctrl, reload, current), calls).1 == []
    ensures Run(PowerOn(ctrl, reload, current), calls).0.callback == None
  {
    FixedCallbackFires(PowerOn(ctrl, reload, current), calls);
    RunSlot(PowerOn(ctrl, reload, current), calls);
    NoSetCallBackLastSet(None, calls);
  }

  /** Without a SetCallBack the slot after `calls` is the one before. */
  lemma {:induction false} NoSetCallBackLastSet(slot: Option<CallbackId>, calls: seq<Call>)
    requires NoSetCallBack(calls)
    ensures LastSet(slot, calls) == slot
    decreases |calls|
  {
    if |calls| > 0 {
      assert !calls[0].SetCallBackCall?;
      assert NoSetCallBack(calls[1..]) by {
        forall i | 0 <= i < |calls[1..]| ensures !calls[1..][i].SetCallBackCall? {
          assert calls[1..][i] == calls[i + 1];
        }
      }
      NoSetCallBackLastSet(slot, calls[1..]);
    }
  }
}

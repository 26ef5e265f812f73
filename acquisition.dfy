/**
 * The acquisition engine: the single engine object that holds the active mode
 * handler, the mirrored interrupt mask, the readings queue, the HY3131 chip
 * as the engine sees it, and the enabled flag of the acquisition job.
 *
 * Every interrupt-disabled critical section, and every job-disabled
 * mutation, is one atomic step of a sequential model.
 */
module Acquisition {
  import opened Wrappers
  import opened Protocol
  import opened Ad1Data

  /** ACQ_READING_QUEUE_SIZE; a power of two, so `& QueueMask` reduces an index modulo it. */
  const QueueSize: nat := 8
  /** Q_MASK */
  const QueueMask: bv8 := 7

  /** `i & Q_MASK` for the indices the queue computes, 0 through QueueSize: the index modulo QueueSize. */
  function Wrap(i: int): (r: int)
    requires 0 <= i <= QueueSize
    ensures r == if i < QueueSize then i else 0
  {
    ((i as bv8) & QueueMask) as int
  }

  /** The settling delay after powering the chip, in milliseconds. */
  const SettleDelayMs: nat := 10

  /** Whether the interrupt source survives both the pending flags and the engine's mask, so that an event is delivered. */
  function Fires(pending: bv8, mask: bv8, source: bv8): (r: bool)
    ensures r ==> pending & source != 0 && mask & source != 0
    ensures mask == 0 || pending == 0 ==> !r
    ensures IsSingleBit(source) ==> (r <==> pending & source != 0 && mask & source != 0)
  {
    pending & mask & source != 0
  }

  predicate IsSingleBit(b: bv8) {
    b != 0 && b & (b - 1) == 0
  }

  /** The HY3131 registers the engine touches. */
  datatype Chip = Chip(intf: bv8, inte: bv8, ad1: (bv8, bv8, bv8))

  /** Hardware side effects of acq_init and acq_deinit, in the order they happen. */
  datatype HwStep = DigitalSupplyOn | AnalogSupplyOn | Delay(ms: nat) | ChipInit | ChipDeinit
                  | AnalogSupplyOff | DigitalSupplyOff

  /** A call a mode handler makes back into the engine while it handles an event. */
  datatype Effect<T> = DoSetIntMask(mask: bv8) | DoPutReading(reading: T) | DoClearReadings

  /**
   * What acq_modes.h and hy3131.h fix: the registry acq_mode_funcs, the
   * indices ACQ_MODE_MISC and ACQ_MODE_MISC_SUBMODE_OFF, the AD1 bit of the
   * interrupt registers, and what each non-misc handler does back into the
   * engine for each event.
   */
  datatype Config<T> = Config(
    modeFuncs: seq<Handler>,
    miscMode: nat,
    miscOff: int,
    intAd1: bv8,
    behaviour: (nat, EventKind, int) -> seq<Effect<T>>)
  {
    predicate Valid() {
      miscMode < |modeFuncs| && modeFuncs[miscMode] == Misc
    }
  }

  /** acq_mode_func_misc: whatever the event, turn interrupts off and empty the queue. */
  function MiscEffects<T>(): seq<Effect<T>> {
    [DoSetIntMask(0), DoClearReadings]
  }

  /** The calls handler h makes back into the engine when it is handed (event, value). */
  function HandlerEffects<T>(config: Config<T>, h: Handler, event: EventKind, value: int): seq<Effect<T>> {
    match h
    case Misc => MiscEffects()
    case Mode(id) => config.behaviour(id, event, value)
  }

  /** The part of the engine's state that handler effects act on. */
  datatype View<T> = View(intMask: bv8, chip: Chip, readings: seq<T>, measurementScheduled: bool)

  /** The abstract effect of one engine call, as acq_set_int_mask, acq_put_reading and acq_clear_readings define it. */
  function ApplyEffect<T>(v: View<T>, e: Effect<T>): View<T> {
    match e
    case DoSetIntMask(m) =>
      v.(intMask := m, chip := v.chip.(inte := m, intf := if m != 0 then 0 else v.chip.intf))
    case DoPutReading(r) =>
      v.(readings := if |v.readings| < QueueSize - 1 then v.readings + [r] else v.readings,
         measurementScheduled := true)
    case DoClearReadings =>
      v.(readings := [])
  }

  /** The effects es applied in order. */
  function ApplyEffects<T>(v: View<T>, es: seq<Effect<T>>): View<T> {
    if es == [] then v else ApplyEffect(ApplyEffects(v, es[..|es| - 1]), es[|es| - 1])
  }

  lemma ApplyEffectsSnoc<T>(v: View<T>, es: seq<Effect<T>>, e: Effect<T>)
    ensures ApplyEffects(v, es + [e]) == ApplyEffect(ApplyEffects(v, es), e)
  {
    assert (es + [e])[..|es|] == es;
  }

  lemma ApplySingle<T>(v: View<T>, e: Effect<T>)
    ensures ApplyEffects(v, [e]) == ApplyEffect(v, e)
  {
    ApplyEffectsSnoc(v, [], e);
  }

  /** The mask mirrors the chip's INTE register, and the queue holds at most QueueSize - 1 readings. */
  ghost predicate ViewInvariant<T>(v: View<T>) {
    v.intMask == v.chip.inte && |v.readings| < QueueSize
  }

  /** Whatever a handler does through the engine's API keeps the mirror and the capacity bound. */
  lemma {:induction false} EffectsKeepInvariant<T>(v: View<T>, es: seq<Effect<T>>)
    requires ViewInvariant(v)
    ensures ViewInvariant(ApplyEffects(v, es))
    decreases |es|
  {
    if es != [] {
      EffectsKeepInvariant(v, es[..|es| - 1]);
    }
  }

  /** Effects never change the AD1 data registers. */
  lemma {:induction false} EffectsKeepAd1<T>(v: View<T>, es: seq<Effect<T>>)
    ensures ApplyEffects(v, es).chip.ad1 == v.chip.ad1
    decreases |es|
  {
    if es != [] {
      EffectsKeepAd1(v, es[..|es| - 1]);
    }
  }

  /** The misc handler, for any event, sets the mask and INTE to 0 and empties the queue, and changes nothing else. */
  lemma MiscQuiesces<T>(v: View<T>)
    ensures ApplyEffects(v, MiscEffects()) == v.(intMask := 0, chip := v.chip.(inte := 0), readings := [])
  {
    var es: seq<Effect<T>> := MiscEffects();
    assert es == [] + [DoSetIntMask(0)] + [DoClearReadings];
    ApplyEffectsSnoc(v, [], DoSetIntMask(0));
    ApplyEffectsSnoc(v, [DoSetIntMask(0)], DoClearReadings);
  }

  /**
   * The deliveries of the session that begins at s in trace t are well formed,
   * and the handler the engine holds, if any, is the one the session has open.
   */
  ghost predicate SessionValid(t: seq<Delivery>, s: nat, active: Option<Handler>) {
    && s <= |t|
    && WellFormed(t[s..])
    && (active.Some? ==> PhaseAfter(t[s..]) == Running(active.value))
  }

  lemma SessionExtends(t: seq<Delivery>, s: nat, ds: seq<Delivery>)
    requires s <= |t|
    ensures (t + ds)[s..] == t[s..] + ds
  {}

  /** SET_SUBMODE or NEW_AD1 to the open handler keeps the session well formed. */
  lemma DeliverToActive(t: seq<Delivery>, s: nat, h: Handler, event: EventKind, value: int)
    requires SessionValid(t, s, Some(h)) && (event == SetSubmode || event == NewAd1)
    ensures SessionValid(t + [Delivery(h, event, value)], s, Some(h))
  {
    SessionExtends(t, s, [Delivery(h, event, value)]);
    PhaseAfterSnoc(t[s..], Delivery(h, event, value));
  }

  /** STOP to the open handler and START to the next one keeps the session well formed. */
  lemma SwitchActive(t: seq<Delivery>, s: nat, oldH: Handler, newH: Handler, sub: int)
    requires SessionValid(t, s, Some(oldH))
    ensures SessionValid(t + [Delivery(oldH, Stop, 0), Delivery(newH, Start, sub)], s, Some(newH))
  {
    SessionExtends(t, s, [Delivery(oldH, Stop, 0), Delivery(newH, Start, sub)]);
    Transition(t[s..], oldH, newH, sub);
  }

  /** A session opened by a START to h has h open. */
  lemma OpenSession(t: seq<Delivery>, h: Handler, sub: int)
    ensures SessionValid(t + [Delivery(h, Start, sub)], |t|, Some(h))
  {
    assert (t + [Delivery(h, Start, sub)])[|t|..] == [] + [Delivery(h, Start, sub)];
    PhaseAfterSnoc([], Delivery(h, Start, sub));
  }

  class Engine<T(0)> {
    const config: Config<T>
    /** curr_acq_mode_func; None is the null pointer. */
    var active: Option<Handler>
    /** curr_int_mask */
    var intMask: bv8
    var chip: Chip
    /** Whether the scheduler may run JOB_ACQUISITION. */
    var jobEnabled: bool
    /** Whether JOB_MEASUREMENT has been scheduled since the engine was created. */
    ghost var measurementScheduled: bool

    /** queue, q_head and q_tail */
    const queue: array<T>
    var qHead: int
    var qTail: int
    /** The buffered readings, oldest first. */
    ghost var readings: seq<T>

    /** Every handler call ever made, in order. */
    ghost var trace: seq<Delivery>
    /** Where in trace the current session (the calls since the last acq_init) begins. */
    ghost var sessionStart: nat
    /** Power sequencing, delays and chip driver calls, in order. */
    ghost var hardware: seq<HwStep>

    /** How many readings the buffer holds between tail t and head h: `(h - t) & Q_MASK`. */
    static function Count(h: int, t: int): (c: int)
      requires 0 <= h < QueueSize && 0 <= t < QueueSize
      ensures 0 <= c < QueueSize && c == (h - t) % QueueSize
      ensures c == 0 <==> h == t
    {
      if h >= t then h - t else h - t + QueueSize
    }

    /** The slot holding the k-th oldest reading when the tail is at t: `(t + k) & Q_MASK`. */
    static function Slot(t: int, k: int): (i: int)
      requires 0 <= t < QueueSize && 0 <= k < QueueSize
      ensures 0 <= i < QueueSize && i == (t + k) % QueueSize
    {
      if t + k < QueueSize then t + k else t + k - QueueSize
    }

    ghost predicate QueueValid()
      reads this`qHead, this`qTail, this`readings, queue
    {
      && queue.Length == QueueSize
      && 0 <= qHead < QueueSize && 0 <= qTail < QueueSize
      && |readings| == Count(qHead, qTail)
      && forall k :: 0 <= k < |readings| ==> readings[k] == queue[Slot(qTail, k)]
    }

    /** What holds between any two handler calls. */
    ghost predicate Consistent()
      reads this`qHead, this`qTail, this`readings, this`sessionStart, this`trace, queue
    {
      config.Valid() && QueueValid() && sessionStart <= |trace|
    }

    /** What holds between any two calls into the engine. */
    ghost predicate Valid()
      reads this`qHead, this`qTail, this`readings, this`sessionStart, this`trace, queue
      reads this`intMask, this`chip, this`active
    {
      && Consistent()
      && intMask == chip.inte
      && SessionValid(trace, sessionStart, active)
    }

    ghost function CurrentView(): View<T>
      reads this`intMask, this`chip, this`readings, this`measurementScheduled
    {
      View(intMask, chip, readings, measurementScheduled)
    }

    /** The state at reset: static variables zeroed, the chip's interrupts disabled. */
    constructor (config: Config<T>, chip: Chip, jobEnabled: bool)
      requires config.Valid() && chip.inte == 0
      ensures Valid() && fresh(queue)
      ensures this.config == config && this.chip == chip && this.jobEnabled == jobEnabled
      ensures active == None && intMask == 0 && readings == [] && qHead == 0 && qTail == 0
      ensures trace == [] && hardware == [] && !measurementScheduled
    {
      this.config := config;
      this.chip := chip;
      this.jobEnabled := jobEnabled;
      active := None;
      intMask := 0;
      queue := new T[QueueSize];
      qHead, qTail := 0, 0;
      readings := [];
      measurementScheduled := false;
      trace, sessionStart, hardware := [], 0, [];
    }

    // ---- collaborators: scheduler and chip driver ----

    /** job_disable(JOB_ACQUISITION) */
    method JobDisable() returns (wasEnabled: bool)
      modifies this`jobEnabled
      ensures wasEnabled == old(jobEnabled) && !jobEnabled
    {
      wasEnabled := jobEnabled;
      jobEnabled := false;
    }

    /** job_resume(JOB_ACQUISITION, wasEnabled) */
    method JobResume(wasEnabled: bool)
      modifies this`jobEnabled
      ensures jobEnabled == (old(jobEnabled) || wasEnabled)
    {
      if wasEnabled {
        jobEnabled := true;
      }
    }

    /** hy_read_regs(HY_REG_INTF, 1, ...): reading the pending flags clears them. */
    method ReadIntf() returns (flags: bv8)
      modifies this`chip
      ensures flags == old(chip.intf) && chip == old(chip).(intf := 0)
    {
      flags := chip.intf;
      chip := chip.(intf := 0);
    }

    /** The chip finishing a conversion: the sample lands in the AD1 data registers and the flags are raised in INTF. */
    method Convert(flags: bv8, sample: (bv8, bv8, bv8))
      requires Valid()
      modifies this`chip
      ensures Valid()
      ensures chip == old(chip).(intf := old(chip.intf) | flags, ad1 := sample)
    {
      chip := chip.(intf := chip.intf | flags, ad1 := sample);
    }

    // ---- readings queue ----

    /** acq_put_reading: store the reading unless the queue is full, and schedule JOB_MEASUREMENT either way. */
    method PutReading(r: T)
      requires QueueValid()
      modifies this`qHead, this`readings, this`measurementScheduled, queue
      ensures QueueValid()
      ensures Wrap(old(qHead) + 1) != old(qTail) <==> |old(readings)| < QueueSize - 1
      ensures Wrap(old(qHead) + 1) != old(qTail) ==>
                qHead == Wrap(old(qHead) + 1) && queue[..] == old(queue[..])[old(qHead) := r]
      ensures Wrap(old(qHead) + 1) == old(qTail) ==> qHead == old(qHead) && queue[..] == old(queue[..])
      ensures CurrentView() == ApplyEffect(old(CurrentView()), DoPutReading(r))
    {
      var h := qHead;
      if Wrap(h + 1) != qTail {
        ghost var before := readings;
        queue[h] := r;
        qHead := Wrap(h + 1);
        readings := readings + [r];
        assert forall k :: 0 <= k < |before| ==> Slot(qTail, k) != h;
      }
      measurementScheduled := true;
    }

    /** acq_get_reading: the oldest reading, or None when head == tail. */
    method GetReading() returns (r: Option<T>)
      requires QueueValid()
      modifies this`qTail, this`readings
      ensures QueueValid()
      ensures r.None? <==> old(qHead) == old(qTail)
      ensures r.None? <==> old(readings) == []
      ensures r.None? ==> qTail == old(qTail) && readings == old(readings)
      ensures r.Some? ==> r.value == old(queue[qTail]) && qTail == Wrap(old(qTail) + 1)
      ensures r.Some? ==> r.value == old(readings)[0] && readings == old(readings)[1..]
    {
      var t := qTail;
      if qHead != t {
        r := Some(queue[t]);
        qTail := Wrap(t + 1);
        readings := readings[1..];
      } else {
        r := None;
      }
    }

    /** acq_clear_readings */
    method ClearReadings()
      requires QueueValid()
      modifies this`qHead, this`qTail, this`readings
      ensures QueueValid()
      ensures qHead == 0 && qTail == 0 && readings == []
    {
      qHead := 0;
      qTail := 0;
      readings := [];
    }

    // ---- interrupt mask ----

    /** acq_set_int_mask */
    method SetIntMask(mask: bv8)
      modifies this`intMask, this`chip, this`jobEnabled
      ensures intMask == mask && chip.inte == mask
      ensures chip.intf == (if mask != 0 then 0 else old(chip.intf)) && chip.ad1 == old(chip.ad1)
      ensures jobEnabled == old(jobEnabled)
      ensures CurrentView() == ApplyEffect(old(CurrentView()), DoSetIntMask(mask))
    {
      var wasEnabled := JobDisable();
      intMask := mask;
      if mask != 0 {
        var whatever := ReadIntf();
      }
      chip := chip.(inte := mask);
      JobResume(wasEnabled);
    }

    // ---- handler dispatch ----

    /** One call a handler makes back into the engine. */
    method Perform(e: Effect<T>)
      requires QueueValid()
      modifies this`intMask, this`chip, this`jobEnabled, this`qHead, this`qTail, this`readings,
               this`measurementScheduled, queue
      ensures QueueValid()
      ensures CurrentView() == ApplyEffect(old(CurrentView()), e)
      ensures jobEnabled == old(jobEnabled)
    {
      match e {
        case DoSetIntMask(m) => SetIntMask(m);
        case DoPutReading(r) => PutReading(r);
        case DoClearReadings => ClearReadings();
      }
    }

    /** One call `h(event, value)` of a mode handler. */
    method Call(h: Handler, event: EventKind, value: int)
      requires Consistent()
      modifies this`intMask, this`chip, this`jobEnabled, this`qHead, this`qTail, this`readings,
               this`measurementScheduled, queue, this`trace
      ensures Consistent()
      ensures trace == old(trace) + [Delivery(h, event, value)]
      ensures CurrentView() == ApplyEffects(old(CurrentView()), HandlerEffects(config, h, event, value))
      ensures jobEnabled == old(jobEnabled)
    {
      trace := trace + [Delivery(h, event, value)];
      var effects := HandlerEffects(config, h, event, value);
      ghost var v0 := CurrentView();
      var i := 0;
      while i < |effects|
        invariant 0 <= i <= |effects|
        invariant QueueValid()
        invariant CurrentView() == ApplyEffects(v0, effects[..i])
        invariant jobEnabled == old(jobEnabled)
        invariant trace == old(trace) + [Delivery(h, event, value)]
        modifies this`intMask, this`chip, this`jobEnabled, this`qHead, this`qTail, this`readings,
                 this`measurementScheduled, queue
        decreases |effects| - i
      {
        Perform(effects[i]);
        assert effects[..i + 1] == effects[..i] + [effects[i]];
        ApplyEffectsSnoc(v0, effects[..i], effects[i]);
        i := i + 1;
      }
      assert effects[..i] == effects;
    }

    // ---- acquisition job ----

    /** acq_handle_job_acquisition */
    method HandleJobAcquisition()
      requires Valid()
      requires active.None? ==> !Fires(chip.intf, intMask, config.intAd1)
      modifies this`intMask, this`chip, this`jobEnabled, this`qHead, this`qTail, this`readings,
               this`measurementScheduled, queue, this`trace
      ensures Valid()
      ensures Fires(old(chip.intf), old(intMask), config.intAd1) ==>
                var value := DecodeAd1(old(chip.ad1.0), old(chip.ad1.1), old(chip.ad1.2));
                && trace == old(trace) + [Delivery(old(active).value, NewAd1, value)]
                && CurrentView() == ApplyEffects(old(CurrentView()).(chip := old(chip).(intf := 0)),
                                                 HandlerEffects(config, old(active).value, NewAd1, value))
      ensures !Fires(old(chip.intf), old(intMask), config.intAd1) ==>
                trace == old(trace) && CurrentView() == old(CurrentView()).(chip := old(chip).(intf := 0))
      ensures jobEnabled == old(jobEnabled)
    {
      var whichInts := ReadIntf();
      whichInts := whichInts & intMask;
      if whichInts & config.intAd1 != 0 {
        DeliverSample();
      }
    }

    /** The AD1 branch of acq_handle_job_acquisition: decode the data registers and hand the value to the active handler. */
    method DeliverSample()
      requires Valid() && active.Some?
      modifies this`intMask, this`chip, this`jobEnabled, this`qHead, this`qTail, this`readings,
               this`measurementScheduled, queue, this`trace
      ensures Valid()
      ensures var value := DecodeAd1(old(chip.ad1.0), old(chip.ad1.1), old(chip.ad1.2));
              && trace == old(trace) + [Delivery(old(active).value, NewAd1, value)]
              && CurrentView() == ApplyEffects(old(CurrentView()), HandlerEffects(config, old(active).value, NewAd1, value))
      ensures jobEnabled == old(jobEnabled)
    {
      var (b0, b1, b2) := chip.ad1;
      var value := DecodeAd1(b0, b1, b2);
      ghost var v := CurrentView();
      DeliverToActive(trace, sessionStart, active.value, NewAd1, value);
      Call(active.value, NewAd1, value);
      EffectsKeepInvariant(v, HandlerEffects(config, active.value, NewAd1, value));
    }

    // ---- mode control ----

    /** acq_set_mode */
    method SetMode(mode: nat, submode: int)
      requires Valid() && active.Some? && mode < |config.modeFuncs|
      modifies this`intMask, this`chip, this`jobEnabled, this`qHead, this`qTail, this`readings,
               this`measurementScheduled, queue, this`trace, this`active
      ensures Valid()
      ensures active == Some(config.modeFuncs[mode])
      ensures trace == old(trace) + [Delivery(old(active).value, Stop, 0),
                                     Delivery(config.modeFuncs[mode], Start, submode)]
      ensures CurrentView() == ApplyEffects(ApplyEffects(old(CurrentView()), HandlerEffects(config, old(active).value, Stop, 0)),
                                     HandlerEffects(config, config.modeFuncs[mode], Start, submode))
      ensures jobEnabled == old(jobEnabled)
    {
      var wasEnabled := JobDisable();
      ghost var v := CurrentView();
      var previous := active.value;
      SwitchActive(trace, sessionStart, previous, config.modeFuncs[mode], submode);
      Call(previous, Stop, 0);
      ghost var v1 := CurrentView();
      active := Some(config.modeFuncs[mode]);
      Call(active.value, Start, submode);
      JobResume(wasEnabled);
      assert trace == old(trace) + [Delivery(previous, Stop, 0), Delivery(active.value, Start, submode)];
      EffectsKeepInvariant(v, HandlerEffects(config, previous, Stop, 0));
      EffectsKeepInvariant(v1, HandlerEffects(config, active.value, Start, submode));
    }

    /** acq_set_submode */
    method SetSubmode(submode: int)
      requires Valid() && active.Some?
      modifies this`intMask, this`chip, this`jobEnabled, this`qHead, this`qTail, this`readings,
               this`measurementScheduled, queue, this`trace
      ensures Valid()
      ensures trace == old(trace) + [Delivery(old(active).value, EventKind.SetSubmode, submode)]
      ensures CurrentView() == ApplyEffects(old(CurrentView()), HandlerEffects(config, old(active).value, EventKind.SetSubmode, submode))
      ensures jobEnabled == old(jobEnabled)
    {
      var wasEnabled := JobDisable();
      ghost var v := CurrentView();
      DeliverToActive(trace, sessionStart, active.value, EventKind.SetSubmode, submode);
      Call(active.value, EventKind.SetSubmode, submode);
      JobResume(wasEnabled);
      EffectsKeepInvariant(v, HandlerEffects(config, active.value, EventKind.SetSubmode, submode));
    }

    // ---- lifecycle ----

    /** acq_init */
    method Init()
      requires Consistent()
      modifies this`intMask, this`chip, this`jobEnabled, this`qHead, this`qTail, this`readings,
               this`measurementScheduled, queue, this`trace, this`active, this`sessionStart, this`hardware
      ensures Valid()
      ensures hardware == old(hardware) + [DigitalSupplyOn, AnalogSupplyOn, Delay(SettleDelayMs), ChipInit]
      ensures active == Some(Misc)
      ensures intMask == 0 && chip == old(chip).(inte := 0) && readings == []
      ensures trace == old(trace) + [Delivery(Misc, Start, config.miscOff)]
      ensures sessionStart == |old(trace)|
      ensures jobEnabled == old(jobEnabled) && measurementScheduled == old(measurementScheduled)
    {
      hardware := hardware + [DigitalSupplyOn, AnalogSupplyOn, Delay(SettleDelayMs)];
      intMask := 0;
      hardware := hardware + [ChipInit];
      active := Some(config.modeFuncs[config.miscMode]);
      sessionStart := |trace|;
      ghost var v := CurrentView();
      OpenSession(trace, Misc, config.miscOff);
      Call(active.value, Start, config.miscOff);
      MiscQuiesces(v);
    }

    /** acq_deinit */
    method Deinit()
      requires Valid() && active.Some?
      modifies this`intMask, this`chip, this`jobEnabled, this`qHead, this`qTail, this`readings,
               this`measurementScheduled, queue, this`trace, this`active, this`hardware
      ensures Valid()
      ensures active == None
      ensures intMask == 0 && chip.inte == 0 && readings == []
      ensures var stopped := ApplyEffects(old(CurrentView()), HandlerEffects(config, old(active).value, Stop, 0));
              CurrentView() == stopped.(intMask := 0, chip := stopped.chip.(inte := 0), readings := [])
      ensures chip.ad1 == old(chip.ad1)
      ensures trace == old(trace) + [Delivery(old(active).value, Stop, 0), Delivery(Misc, Start, config.miscOff)]
      ensures hardware == old(hardware) + [ChipDeinit, AnalogSupplyOff, DigitalSupplyOff]
      ensures jobEnabled == old(jobEnabled) && sessionStart == old(sessionStart)
    {
      SetMode(config.miscMode, config.miscOff);
      ghost var v := ApplyEffects(old(CurrentView()), HandlerEffects(config, old(active).value, Stop, 0));
      MiscQuiesces(v);
      EffectsKeepAd1(old(CurrentView()), HandlerEffects(config, old(active).value, Stop, 0));
      active := None;
      hardware := hardware + [ChipDeinit, AnalogSupplyOff, DigitalSupplyOff];
    }
  }
}

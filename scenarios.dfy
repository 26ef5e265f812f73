/**
 * Verified call sequences (scenarios) on a small concrete configuration: the misc handler at
 * index 0 and one measuring handler, Mode(0), at index 1, which enables the
 * AD1 interrupt when started and queues every AD1 value it is handed.
 */
module Scenarios {
  import opened Wrappers
  import opened Protocol
  import opened Acquisition

  /** The AD1 bit of INTF and INTE in these runs. */
  const Ad1Bit: bv8 := 0x01

  function Measuring(id: nat, event: EventKind, value: int): seq<Effect<int>> {
    match event
    case Start => [DoSetIntMask(Ad1Bit)]
    case NewAd1 => [DoPutReading(value)]
    case _ => []
  }

  function TestConfig(): Config<int> {
    Config([Misc, Mode(0)], 0, 0, Ad1Bit, Measuring)
  }

  /** After acq_init the mask is 0, so a pending AD1 flag is discarded and nothing is queued. */
  method InitIgnoresPending() returns (r: Option<int>, ghost events: seq<Delivery>)
    ensures r == None
    ensures events == [Delivery(Misc, Start, 0)]
  {
    var e: Engine<int> := new Engine(TestConfig(), Chip(Ad1Bit, 0, (0x34, 0x12, 0x00)), true);
    e.Init();
    e.HandleJobAcquisition();
    r := e.GetReading();
    events := e.trace;
  }

  /** acq_init then acq_set_mode(1, sub): Mode(0) runs with the AD1 interrupt enabled and an empty queue. */
  method StartMeasuring(e: Engine<int>, sub: int)
    requires e.Consistent() && e.config == TestConfig()
    modifies e`intMask, e`chip, e`jobEnabled, e`qHead, e`qTail, e`readings, e`measurementScheduled, e.queue, e`trace, e`active, e`sessionStart, e`hardware
    ensures e.Valid() && e.active == Some(Mode(0)) && e.intMask == Ad1Bit && e.readings == []
  {
    e.Init();
    ghost var v := e.CurrentView();
    e.SetMode(1, sub);
    MiscQuiesces(v);
    ApplySingle(ApplyEffects(v, MiscEffects()), DoSetIntMask(Ad1Bit));
  }

  /** A measuring mode receives the chip's sample, decoded, and queues it: [0x34,0x12,0x00] is 0x1234. */
  method SampleReachesQueue(b0: bv8, b1: bv8, b2: bv8) returns (r: Option<int>)
    ensures r == Some(Ad1Data.DecodeAd1(b0, b1, b2))
  {
    var e: Engine<int> := new Engine(TestConfig(), Chip(0, 0, (0, 0, 0)), true);
    StartMeasuring(e, 7);
    e.Convert(Ad1Bit, (b0, b1, b2));
    ghost var v := e.CurrentView();
    assert Fires(e.chip.intf, e.intMask, Ad1Bit);
    ghost var value := Ad1Data.DecodeAd1(b0, b1, b2);
    assert HandlerEffects(e.config, Mode(0), NewAd1, value) == [DoPutReading(value)];
    e.HandleJobAcquisition();
    ApplySingle(v.(chip := v.chip.(intf := 0)), DoPutReading(value));
    r := e.GetReading();
  }

  /** acq_deinit leaves the mask at 0, so the job delivers nothing although no handler is held. */
  method DeinitSilencesJob() returns (active: Option<Handler>, r: Option<int>)
    ensures active == None
    ensures r == None
  {
    var e: Engine<int> := new Engine(TestConfig(), Chip(0, 0, (0, 0, 0)), false);
    StartMeasuring(e, 3);
    e.Deinit();
    e.Convert(Ad1Bit, (4, 5, 6));
    e.HandleJobAcquisition();
    r := e.GetReading();
    active := e.active;
  }

  /**
   * acq_init after acq_deinit gives back the state of the first acq_init
   * (misc active, mask 0, queue empty); but the misc handler, started by
   * acq_deinit's acq_set_mode, is started again with no STOP in between, so
   * the deliveries across both sessions are not one well-formed sequence.
   */
  method ReinitStartsMiscTwice() returns (active: Option<Handler>, mask: bv8, r: Option<int>, ghost events: seq<Delivery>)
    ensures active == Some(Misc) && mask == 0 && r == None
    ensures events == [Delivery(Misc, Start, 0), Delivery(Misc, Stop, 0), Delivery(Misc, Start, 0),
                       Delivery(Misc, Start, 0)]
    ensures !WellFormed(events)
  {
    var e: Engine<int> := new Engine(TestConfig(), Chip(0, 0, (0, 0, 0)), true);
    e.Init();
    e.Deinit();
    e.Init();
    active, mask := e.active, e.intMask;
    events := e.trace;
    r := e.GetReading();
    assert events[..3] + [events[3]] == events;
    PhaseAfterSnoc(events[..3], events[3]);
    assert events[..2] + [events[2]] == events[..3];
    PhaseAfterSnoc(events[..2], events[2]);
    assert events[..1] + [events[1]] == events[..2];
    PhaseAfterSnoc(events[..1], events[1]);
    assert [] + [events[0]] == events[..1];
    PhaseAfterSnoc([], events[0]);
  }

  /** Readings leave the queue in the order they were put, and an empty queue yields nothing. */
  method QueueIsFifo(x: int, y: int) returns (first: Option<int>, second: Option<int>, third: Option<int>)
    ensures first == Some(x) && second == Some(y) && third == None
  {
    var e: Engine<int> := new Engine(TestConfig(), Chip(0, 0, (0, 0, 0)), true);
    e.PutReading(x);
    e.PutReading(y);
    first := e.GetReading();
    second := e.GetReading();
    third := e.GetReading();
  }

  /** Put the readings xs, in order, into an empty queue with room for them all. */
  method Fill(e: Engine<int>, xs: seq<int>)
    requires e.QueueValid() && e.readings == [] && |xs| < QueueSize
    modifies e`qHead, e`readings, e`measurementScheduled, e.queue
    ensures e.QueueValid() && e.readings == xs
  {
    var i := 0;
    while i < |xs|
      invariant 0 <= i <= |xs|
      invariant e.QueueValid() && e.readings == xs[..i]
    {
      e.PutReading(xs[i]);
      assert xs[..i + 1] == xs[..i] + [xs[i]];
      i := i + 1;
    }
    assert xs[..i] == xs;
  }

  /** Get readings until the queue reports none: the result is the buffered readings, oldest first. */
  method Drain(e: Engine<int>) returns (drained: seq<int>)
    requires e.QueueValid()
    modifies e`qTail, e`readings
    ensures e.QueueValid() && e.readings == [] && drained == old(e.readings)
  {
    drained := [];
    var r := e.GetReading();
    while r.Some?
      invariant e.QueueValid() && drained + (if r.Some? then [r.value] else []) + e.readings == old(e.readings)
      invariant r.None? ==> e.readings == []
      decreases |e.readings| + (if r.Some? then 1 else 0)
    {
      drained := drained + [r.value];
      r := e.GetReading();
    }
  }

  /** With seven readings buffered the queue is full: an eighth is dropped, and draining returns the seven in order. */
  method FullQueueDrops(xs: seq<int>, extra: int) returns (drained: seq<int>)
    requires |xs| == QueueSize - 1
    ensures drained == xs
  {
    var e: Engine<int> := new Engine(TestConfig(), Chip(0, 0, (0, 0, 0)), true);
    Fill(e, xs);
    e.PutReading(extra);
    drained := Drain(e);
  }

  /** A get right after a clear finds nothing, whatever the queue held. */
  method ClearThenGet(xs: seq<int>) returns (r: Option<int>)
    ensures r == None
  {
    var e: Engine<int> := new Engine(TestConfig(), Chip(0, 0, (0, 0, 0)), true);
    var i := 0;
    while i < |xs|
      invariant e.QueueValid()
      modifies e`qHead, e`readings, e`measurementScheduled, e.queue
    {
      e.PutReading(xs[i]);
      i := i + 1;
    }
    e.ClearReadings();
    r := e.GetReading();
  }
}

/**
  The DHT22 daemon: relay commands on two GPIO pins, normalisation of the
  sensor driver's result, the HTTP send outcome, and the main loop that
  toggles the fridge and fan every cycle and buffers one data point per cycle.
  GPIO writes and sleeps are recorded as events; the sensor driver, the DNS
  resolver and the HTTP server are injected outcomes.
 */
module Dht22 {
  import opened Wrappers
  import Retry

  // BCM pin numbers
  const SsrPin: int := 23
  const FanPin: int := 17

  /** Seconds slept at the end of each main-loop cycle. */
  const TimeSleep: nat := 30

  datatype Level = Low | High

  /** Observable effects of the daemon, in the order it performs them. */
  datatype Event =
    | SetupOutput(pin: int)           // GPIO.setup(pin, GPIO.OUT)
    | Write(pin: int, level: Level)   // GPIO.output(pin, level)
    | Sleep(seconds: nat)             // time.sleep(seconds)

  /** The four relay commands `turn_fridge_off`, `turn_fridge_on`, `turn_fan_off`, `turn_fan_on`. */
  datatype Command = FridgeOff | FridgeOn | FanOff | FanOn

  function PinOf(c: Command): int
  {
    match c
    case FridgeOff | FridgeOn => SsrPin
    case FanOff | FanOn => FanPin
  }

  function LevelOf(c: Command): Level
  {
    match c
    case FridgeOff | FanOff => Low
    case FridgeOn | FanOn => High
  }

  /** Pin levels after issuing command `c`: its own pin takes its level and no other pin changes. */
  function Apply(pins: map<int, Level>, c: Command): (r: map<int, Level>)
    ensures PinOf(c) in r && r[PinOf(c)] == LevelOf(c)
    ensures r.Keys == pins.Keys + {PinOf(c)}
    ensures forall p :: p in pins && p != PinOf(c) ==> r[p] == pins[p]
  {
    pins[PinOf(c) := LevelOf(c)]
  }

  /** Issuing a command twice leaves the same pin state as issuing it once. */
  lemma ApplyIdempotent(pins: map<int, Level>, c: Command)
    ensures Apply(Apply(pins, c), c) == Apply(pins, c)
  {
    var once := Apply(pins, c);
    var twice := Apply(once, c);
    assert twice.Keys == once.Keys;
    forall p | p in once
      ensures twice[p] == once[p]
    {
    }
  }

  /** A fridge command and a fan command touch different pins, so their order does not matter. */
  lemma FridgeAndFanCommute(pins: map<int, Level>, fridge: Command, fan: Command)
    requires PinOf(fridge) == SsrPin && PinOf(fan) == FanPin
    ensures Apply(Apply(pins, fridge), fan) == Apply(Apply(pins, fan), fridge)
  {
    var a := Apply(Apply(pins, fridge), fan);
    var b := Apply(Apply(pins, fan), fridge);
    assert a.Keys == b.Keys;
    forall p | p in a
      ensures a[p] == b[p]
    {
    }
  }

  /** Pin state after `setup_gpio`: the fridge and the fan are both forced low. */
  function SetupPins(pins: map<int, Level>): (r: map<int, Level>)
    ensures SsrPin in r && r[SsrPin] == Low
    ensures FanPin in r && r[FanPin] == Low
    ensures forall p :: p in pins && p != SsrPin && p != FanPin ==> p in r && r[p] == pins[p]
  {
    Apply(Apply(pins, FridgeOff), FanOff)
  }

  // ---------------------------------------------------------------------------
  // Sensor read

  /** What `Adafruit_DHT.read_retry` returns: humidity and temperature, each possibly missing. */
  datatype DriverResult = DriverResult(humidity: Option<real>, temperature: Option<real>)

  /** What `read` returns: humidity and temperature, a missing one replaced by the sentinel 0. */
  datatype Reading = Reading(humidity: real, temperature: real)

  /** `read`: a missing value becomes 0, a present value passes through unchanged. */
  function Read(d: DriverResult): (r: Reading)
    ensures d.humidity.Some? ==> r.humidity == d.humidity.value
    ensures d.humidity.None? ==> r.humidity == 0.0
    ensures d.temperature.Some? ==> r.temperature == d.temperature.value
    ensures d.temperature.None? ==> r.temperature == 0.0
  {
    if d.temperature.None? || d.humidity.None? then
      Reading(OrZero(d.humidity), OrZero(d.temperature))
    else
      Reading(d.humidity.value, d.temperature.value)
  }

  /** Python's `x or 0` for a reading that may be None (a present 0.0 also gives 0). */
  function OrZero(x: Option<real>): real
  {
    if x.Some? && x.value != 0.0 then x.value else 0.0
  }

  /** When the driver reports both values, `read` returns both unchanged. */
  lemma ReadBothPresent(h: real, t: real)
    ensures Read(DriverResult(Some(h), Some(t))) == Reading(h, t)
  {
  }

  // ---------------------------------------------------------------------------
  // Telemetry

  /** One buffered data point (the timestamp string is not modelled). */
  datatype Point = Point(temperature: real, humidity: real)

  function ToPoint(r: Reading): Point
  {
    Point(r.temperature, r.humidity)
  }

  /** The data points produced by a run of cycles over the given driver results, in order. */
  function Points(ds: seq<DriverResult>): (ps: seq<Point>)
  {
    if ds == [] then [] else Points(ds[..|ds| - 1]) + [ToPoint(Read(ds[|ds| - 1]))]
  }

  /** One point per cycle, the i-th made from the i-th reading. */
  lemma {:induction false} PointsAt(ds: seq<DriverResult>, i: nat)
    requires i < |ds|
    ensures |Points(ds)| == |ds|
    ensures Points(ds)[i] == ToPoint(Read(ds[i]))
  {
    PointsLength(ds);
    if i < |ds| - 1 {
      PointsAt(ds[..|ds| - 1], i);
      assert ds[..|ds| - 1][i] == ds[i];
    }
  }

  lemma PointsSnoc(ds: seq<DriverResult>, i: nat)
    requires i < |ds|
    ensures Points(ds[..i + 1]) == Points(ds[..i]) + [ToPoint(Read(ds[i]))]
  {
    assert ds[..i + 1][..i] == ds[..i];
  }

  lemma {:induction false} PointsLength(ds: seq<DriverResult>)
    ensures |Points(ds)| == |ds|
  {
    if ds != [] {
      PointsLength(ds[..|ds| - 1]);
    }
  }

  /** How the POST to the collector ends: with an HTTP status, or with a request exception. */
  datatype PostOutcome = Status(code: int) | RequestError

  /** What a call of `send` leaves behind: whether it counted as delivered, and the caller's buffer afterwards. */
  datatype SendResult = SendResult(delivered: bool, buffer: seq<Point>)

  /**
    `send` as written: only status 200 counts as delivered, and request
    exceptions are swallowed. The `data = []` on success rebinds the local
    name only, so the caller's buffer is the list it passed in.
   */
  function SendAsWritten(data: seq<Point>, outcome: PostOutcome): (r: SendResult)
    ensures r.delivered <==> outcome == Status(200)
    ensures r.buffer == data
  {
    match outcome
    case Status(code) => SendResult(code == 200, data)
    case RequestError => SendResult(false, data)
  }

  /** A successful send of one buffered point leaves the point in the caller's buffer. */
  lemma SendAsWrittenKeepsDeliveredPoint(p: Point)
    ensures SendAsWritten([p], Status(200)).delivered
    ensures SendAsWritten([p], Status(200)).buffer == [p]
  {
  }

  /**
    `send` as its comment says it should behave: after a successful POST the
    caller's buffer is emptied; on any other status or a request exception
    it keeps every point, in order, for the next attempt.
   */
  function SendClearing(data: seq<Point>, outcome: PostOutcome): (r: SendResult)
    ensures r.delivered <==> outcome == Status(200)
    ensures r.delivered ==> r.buffer == []
    ensures !r.delivered ==> r.buffer == data
  {
    var sent := SendAsWritten(data, outcome);
    if sent.delivered then SendResult(true, []) else sent
  }

  /**
    A point cached after a failed send (503) goes out with the next cycle's
    point on the next successful send, after which the buffer is empty.
   */
  lemma SendRetriesCachedPoints(first: Point, second: Point)
    ensures var afterFail := SendClearing([first], Status(503));
      && afterFail.buffer == [first]
      && SendClearing(afterFail.buffer + [second], Status(200)) == SendResult(true, [])
  {
  }

  /** The first address of a DNS answer, or a failed attempt when the query raised or returned nothing. */
  function ResolveAttempt(answer: Option<seq<string>>): (a: Retry.Attempt<string>)
    ensures a.Succeeded? <==> answer.Some? && |answer.value| > 0
    ensures a.Succeeded? ==> a.value == answer.value[0]
  {
    match answer
    case None => Retry.Failed
    case Some(addrs) => if |addrs| == 0 then Retry.Failed else Retry.Succeeded(addrs[0])
  }

  function ResolveAttempts(answers: seq<Option<seq<string>>>): (r: seq<Retry.Attempt<string>>)
    ensures |r| == |answers|
    ensures forall i :: 0 <= i < |answers| ==> r[i] == ResolveAttempt(answers[i])
  {
    if answers == [] then [] else [ResolveAttempt(answers[0])] + ResolveAttempts(answers[1..])
  }

  // ---------------------------------------------------------------------------
  // Main loop

  /** The fridge flag after `cycles` cycles: it flips once per cycle. */
  function FlagAfter(fridgeOff: bool, cycles: nat): bool
  {
    if cycles % 2 == 0 then fridgeOff else !fridgeOff
  }

  /** Commands of one cycle: fridge on and fan off when the fridge was off, and the reverse otherwise. */
  function CycleCommands(fridgeOff: bool): (cs: (Command, Command))
  {
    if fridgeOff then (FridgeOn, FanOff) else (FridgeOff, FanOn)
  }

  function CycleEvents(fridgeOff: bool): seq<Event>
  {
    var (fridge, fan) := CycleCommands(fridgeOff);
    [Write(PinOf(fridge), LevelOf(fridge)), Write(PinOf(fan), LevelOf(fan)), Sleep(TimeSleep)]
  }

  /** The events of `cycles` consecutive main-loop cycles. */
  function LoopEvents(fridgeOff: bool, cycles: nat): (es: seq<Event>)
    ensures |es| == 3 * cycles
  {
    if cycles == 0 then []
    else LoopEvents(fridgeOff, cycles - 1) + CycleEvents(FlagAfter(fridgeOff, cycles - 1))
  }

  /** The pins after one cycle: the fridge command of the cycle, then its fan command. */
  function CyclePins(pins: map<int, Level>, fridgeOff: bool): map<int, Level>
  {
    var (fridge, fan) := CycleCommands(fridgeOff);
    Apply(Apply(pins, fridge), fan)
  }

  /** The pins after `cycles` consecutive main-loop cycles. */
  function LoopPins(pins: map<int, Level>, fridgeOff: bool, cycles: nat): map<int, Level>
  {
    if cycles == 0 then pins
    else CyclePins(LoopPins(pins, fridgeOff, cycles - 1), FlagAfter(fridgeOff, cycles - 1))
  }

  /** One more cycle extends the loop's pins, events and flag by that cycle's. */
  lemma LoopStep(pins: map<int, Level>, fridgeOff: bool, cycles: nat)
    ensures LoopPins(pins, fridgeOff, cycles + 1) == CyclePins(LoopPins(pins, fridgeOff, cycles), FlagAfter(fridgeOff, cycles))
    ensures LoopEvents(fridgeOff, cycles + 1) == LoopEvents(fridgeOff, cycles) + CycleEvents(FlagAfter(fridgeOff, cycles))
    ensures FlagAfter(fridgeOff, cycles + 1) == !FlagAfter(fridgeOff, cycles)
  {
  }

  lemma AppendAssoc<T>(a: seq<T>, b: seq<T>, c: seq<T>)
    ensures a + b + c == a + (b + c)
  {
  }

  function Opposite(l: Level): Level
  {
    if l == Low then High else Low
  }

  /**
    Starting from `fridge_off = True`, cycle i (counting from 0) drives the
    fridge high when i is even and low when i is odd, drives the fan to the
    opposite level, and then sleeps `TIME_SLEEP` seconds.
   */
  lemma {:induction false} LoopEventsAt(cycles: nat, i: nat)
    requires i < cycles
    ensures var es := LoopEvents(true, cycles);
      && es[3 * i] == Write(SsrPin, if i % 2 == 0 then High else Low)
      && es[3 * i + 1] == Write(FanPin, Opposite(es[3 * i].level))
      && es[3 * i + 2] == Sleep(TimeSleep)
  {
    if i < cycles - 1 {
      LoopEventsAt(cycles - 1, i);
    }
  }

  /** After k > 0 cycles from `fridge_off = True`, the fridge is high iff k is odd and the fan is at the opposite level. */
  lemma LoopPinsAfter(pins: map<int, Level>, cycles: nat)
    requires cycles > 0
    ensures var r := LoopPins(pins, true, cycles);
      && SsrPin in r && FanPin in r
      && r[SsrPin] == (if cycles % 2 == 1 then High else Low)
      && r[FanPin] == Opposite(r[SsrPin])
  {
  }

  /**
    The DHT22 daemon's state: the last commanded level of each GPIO pin,
    the events performed so far, the in-memory list of data points and the
    `fridge_off` flag of the main loop.
   */
  class Controller {
    var pins: map<int, Level>
    var events: seq<Event>
    var data: seq<Point>
    var fridgeOff: bool

    /** Process start: no pin commanded yet, nothing done. */
    constructor ()
      ensures pins == map[] && events == [] && data == [] && fridgeOff
    {
      pins := map[];
      events := [];
      data := [];
      fridgeOff := true;
    }

    /** `GPIO.output`: drives one pin to a level. */
    method Output(pin: int, level: Level)
      modifies this`pins, this`events
      ensures pins == old(pins)[pin := level]
      ensures events == old(events) + [Write(pin, level)]
    {
      pins := pins[pin := level];
      events := events + [Write(pin, level)];
    }

    method TurnFridgeOff() returns (ok: bool)
      modifies this`pins, this`events
      ensures ok
      ensures pins == Apply(old(pins), FridgeOff)
      ensures events == old(events) + [Write(SsrPin, Low)]
    {
      Output(SsrPin, Low);
      ok := true;
    }

    method TurnFridgeOn() returns (ok: bool)
      modifies this`pins, this`events
      ensures ok
      ensures pins == Apply(old(pins), FridgeOn)
      ensures events == old(events) + [Write(SsrPin, High)]
    {
      Output(SsrPin, High);
      ok := true;
    }

    method TurnFanOff() returns (ok: bool)
      modifies this`pins, this`events
      ensures ok
      ensures pins == Apply(old(pins), FanOff)
      ensures events == old(events) + [Write(FanPin, Low)]
    {
      Output(FanPin, Low);
      ok := true;
    }

    method TurnFanOn() returns (ok: bool)
      modifies this`pins, this`events
      ensures ok
      ensures pins == Apply(old(pins), FanOn)
      ensures events == old(events) + [Write(FanPin, High)]
    {
      Output(FanPin, High);
      ok := true;
    }

    /** `setup_gpio`: configures both relay pins as outputs and forces the fridge and fan off. */
    method SetupGpio() returns (ok: bool)
      modifies this`pins, this`events
      ensures ok
      ensures pins == SetupPins(old(pins))
      ensures events == old(events) + [SetupOutput(SsrPin), SetupOutput(FanPin), Write(SsrPin, Low), Write(FanPin, Low)]
    {
      events := events + [SetupOutput(SsrPin), SetupOutput(FanPin)];
      var _ := TurnFridgeOff();
      var _ := TurnFanOff();
      ok := true;
    }

    /**
      The start of `main`: set up the GPIO, resolve the collector address
      (retrying with backoff over the given DNS answers), and start with an
      empty buffer and `fridge_off = True`. `addr` is None when no supplied
      answer gave an address, i.e. the daemon is still retrying.
     */
    method Start(answers: seq<Option<seq<string>>>) returns (addr: Option<string>)
      modifies this
      ensures var n := Retry.FailuresBefore(ResolveAttempts(answers));
        && (n < |answers| ==> addr == Some(answers[n].value[0]))
        && (n == |answers| ==> addr == None)
        && events == old(events) + [SetupOutput(SsrPin), SetupOutput(FanPin), Write(SsrPin, Low), Write(FanPin, Low)]
                     + Sleeps(Retry.Schedule(n))
      ensures pins == SetupPins(old(pins))
      ensures data == [] && fridgeOff
    {
      var _ := SetupGpio();
      var calls, sleeps;
      addr, calls, sleeps := Retry.RetryForever(ResolveAttempts(answers));
      events := events + Sleeps(sleeps);
      data := [];
      fridgeOff := true;
    }

    /**
      One cycle of the main loop over the driver result `d`: read, switch the
      fridge on if it was off (off otherwise), drive the fan to the opposite
      level, append one data point and sleep. The `send` call is disabled in
      this loop, so the point stays buffered.
     */
    method Cycle(d: DriverResult)
      modifies this
      ensures fridgeOff == !old(fridgeOff)
      ensures pins == CyclePins(old(pins), old(fridgeOff))
      ensures events == old(events) + CycleEvents(old(fridgeOff))
      ensures data == old(data) + [ToPoint(Read(d))]
    {
      var reading := Read(d);
      if fridgeOff {
        var ok := TurnFridgeOn();
        if ok {
          fridgeOff := false;
        }
        var _ := TurnFanOff();
      } else {
        var ok := TurnFridgeOff();
        if ok {
          fridgeOff := true;
        }
        var _ := TurnFanOn();
      }
      data := data + [ToPoint(reading)];
      events := events + [Sleep(TimeSleep)];
    }

    /** Runs `|readings|` cycles of the main loop, the i-th over the i-th driver result. */
    method RunCycles(readings: seq<DriverResult>)
      modifies this
      ensures fridgeOff == FlagAfter(old(fridgeOff), |readings|)
      ensures pins == LoopPins(old(pins), old(fridgeOff), |readings|)
      ensures events == old(events) + LoopEvents(old(fridgeOff), |readings|)
      ensures data == old(data) + Points(readings)
    {
      ghost var pins0, events0, data0, flag0 := pins, events, data, fridgeOff;
      var i := 0;
      while i < |readings|
        invariant 0 <= i <= |readings|
        invariant fridgeOff == FlagAfter(flag0, i)
        invariant pins == LoopPins(pins0, flag0, i)
        invariant events == events0 + LoopEvents(flag0, i)
        invariant data == data0 + Points(readings[..i])
      {
        Cycle(readings[i]);
        PointsSnoc(readings, i);
        LoopStep(pins0, flag0, i);
        AppendAssoc(events0, LoopEvents(flag0, i), CycleEvents(FlagAfter(flag0, i)));
        AppendAssoc(data0, Points(readings[..i]), [ToPoint(Read(readings[i]))]);
        i := i + 1;
      }
      assert readings[..i] == readings;
    }
  }

  function Sleeps(ds: seq<nat>): (es: seq<Event>)
    ensures |es| == |ds|
    ensures forall i :: 0 <= i < |ds| ==> es[i] == Sleep(ds[i])
  {
    if ds == [] then [] else [Sleep(ds[0])] + Sleeps(ds[1..])
  }

  /**
    The daemon from process start: set-up, then the address lookup with
    backoff. Only once an address has been resolved does the main loop run
    k cycles, leaving exactly k buffered points, the i-th from the i-th
    reading, and the pins as the last cycle drove them. While no supplied
    answer resolves, the daemon is still retrying: nothing is buffered and
    both relays stay low.
   */
  method StartAndRun(answers: seq<Option<seq<string>>>, readings: seq<DriverResult>)
    returns (c: Controller, addr: Option<string>)
    ensures var n := Retry.FailuresBefore(ResolveAttempts(answers));
      && (n < |answers| ==> addr == Some(answers[n].value[0]))
      && (n == |answers| ==> addr == None)
    ensures addr.None? ==> c.data == [] && c.pins == SetupPins(map[])
    ensures addr.Some? ==> |c.data| == |readings|
    ensures addr.Some? ==> forall i :: 0 <= i < |readings| ==> c.data[i] == ToPoint(Read(readings[i]))
    ensures addr.Some? && |readings| > 0 ==>
              && SsrPin in c.pins && FanPin in c.pins
              && c.pins[SsrPin] == (if |readings| % 2 == 1 then High else Low)
              && c.pins[FanPin] == Opposite(c.pins[SsrPin])
  {
    c := new Controller();
    addr := c.Start(answers);
    if addr.Some? {
      c.RunCycles(readings);
      assert [] + Points(readings) == Points(readings);
      PointsLength(readings);
      forall i | 0 <= i < |readings|
        ensures c.data[i] == ToPoint(Read(readings[i]))
      {
        PointsAt(readings, i);
      }
      if |readings| > 0 {
        LoopPinsAfter(SetupPins(map[]), |readings|);
      }
    }
  }
}

/**
  The sensor loop of the 1-Wire thermometer daemon. Each cycle reads every
  sensor (a failed read sleeps 2 seconds and moves on, leaving `temp` as it
  was), publishes the current `temp` to `home/<room>/temperature`, and sleeps
  `TIME_SLEEP - 1` seconds. Sensor results are injected outcomes; MQTT
  publications and sleeps are recorded as events.
 */
module W1ThermLoop {
  import opened Wrappers
  import W1ThermConfig

  const TimeSleep: nat := 60

  /** Seconds slept after a failed sensor read. */
  const ReadRetrySleep: nat := 2

  /** Outcome of `sensor.get_temperature()`: a value, or a `W1ThermSensorError`. */
  datatype SensorRead = Temperature(celsius: real) | SensorError

  /** Observable effects of the daemon, in the order it performs them. */
  datatype Event =
    | Announce(discovery: W1ThermConfig.Discovery)          // publish.single(..., retain=True)
    | Publish(host: string, msgs: seq<(string, real)>)      // publish.multiple(msgs, hostname=host)
    | Sleep(seconds: nat)                                    // time.sleep(seconds)

  /** The topic the loop publishes the temperature to. */
  function TemperatureTopic(room: string): string
  {
    "home/" + room + "/temperature"
  }

  /** `temp` after reading the given sensors in order, starting from `temp` (None: not yet bound). */
  function LastGood(temp: Option<real>, results: seq<SensorRead>): (r: Option<real>)
    ensures temp.Some? ==> r.Some?
    ensures |results| > 0 && results[|results| - 1].Temperature? ==> r == Some(results[|results| - 1].celsius)
  {
    if results == [] then temp
    else match results[|results| - 1]
      case Temperature(v) => Some(v)
      case SensorError => LastGood(temp, results[..|results| - 1])
  }

  /**
    `temp` is the value of the last successful read, and is left as it was
    when every read fails.
   */
  lemma LastGoodIsLastSuccess(temp: Option<real>, results: seq<SensorRead>)
    ensures (forall k :: 0 <= k < |results| ==> results[k].SensorError?) ==> LastGood(temp, results) == temp
    ensures forall j :: (0 <= j < |results| && results[j].Temperature?
                         && (forall k :: j < k < |results| ==> results[k].SensorError?))
                        ==> LastGood(temp, results) == Some(results[j].celsius)
  {
    if forall k :: 0 <= k < |results| ==> results[k].SensorError? {
      LastGoodAllFail(temp, results);
    }
    forall j | 0 <= j < |results| && results[j].Temperature? && (forall k :: j < k < |results| ==> results[k].SensorError?)
      ensures LastGood(temp, results) == Some(results[j].celsius)
    {
      LastGoodAt(temp, results, j);
    }
  }

  lemma {:induction false} LastGoodAllFail(temp: Option<real>, results: seq<SensorRead>)
    requires forall k :: 0 <= k < |results| ==> results[k].SensorError?
    ensures LastGood(temp, results) == temp
  {
    if results != [] {
      var n := |results| - 1;
      assert forall k :: 0 <= k < n ==> results[..n][k] == results[k];
      LastGoodAllFail(temp, results[..n]);
    }
  }

  lemma {:induction false} LastGoodAt(temp: Option<real>, results: seq<SensorRead>, j: nat)
    requires j < |results| && results[j].Temperature?
    requires forall k :: j < k < |results| ==> results[k].SensorError?
    ensures LastGood(temp, results) == Some(results[j].celsius)
  {
    var n := |results| - 1;
    if j < n {
      assert results[..n][j] == results[j];
      assert forall k :: j < k < n ==> results[..n][k] == results[k];
      LastGoodAt(temp, results[..n], j);
    }
  }

  /** Reading more sensors continues from where the earlier ones left `temp`. */
  lemma {:induction false} LastGoodAppend(temp: Option<real>, a: seq<SensorRead>, b: seq<SensorRead>)
    ensures LastGood(temp, a + b) == LastGood(LastGood(temp, a), b)
  {
    if b != [] {
      assert (a + b)[..|a + b| - 1] == a + b[..|b| - 1];
      LastGoodAppend(temp, a, b[..|b| - 1]);
    } else {
      assert a + b == a;
    }
  }

  /** The sleeps of the sensor pass: 2 seconds after each failed read, in order. */
  function ReadEvents(results: seq<SensorRead>): (es: seq<Event>)
  {
    if results == [] then []
    else ReadEvents(results[..|results| - 1]) + (if results[|results| - 1].SensorError? then [Sleep(ReadRetrySleep)] else [])
  }

  /** Number of failed reads. */
  function Failures(results: seq<SensorRead>): nat
  {
    if results == [] then 0
    else Failures(results[..|results| - 1]) + (if results[|results| - 1].SensorError? then 1 else 0)
  }

  /** The sensor pass sleeps once per failed read, 2 seconds each time, and does nothing else. */
  lemma {:induction false} ReadEventsAreRetrySleeps(results: seq<SensorRead>)
    ensures |ReadEvents(results)| == Failures(results)
    ensures forall k :: 0 <= k < |ReadEvents(results)| ==> ReadEvents(results)[k] == Sleep(ReadRetrySleep)
  {
    if results != [] {
      ReadEventsAreRetrySleeps(results[..|results| - 1]);
    }
  }

  /** What a run of cycles leaves: the value of `temp`, the events, and whether it ended by crashing. */
  datatype LoopResult = LoopResult(temp: Option<real>, events: seq<Event>, crashed: bool)

  /**
    One cycle: the sensor pass, then one publication of `temp` and a sleep of
    `TIME_SLEEP - 1`. When no read has ever succeeded, `temp` is unbound and
    the publication raises, ending the process.
   */
  function CycleSpec(temp: Option<real>, host: string, room: string, results: seq<SensorRead>): (r: LoopResult)
    ensures r.temp == LastGood(temp, results)
    ensures r.crashed <==> r.temp.None?
    ensures temp.Some? ==> !r.crashed
    ensures ReadEvents(results) <= r.events
    ensures r.crashed ==> r.events == ReadEvents(results)
    ensures !r.crashed ==> |r.events| == |ReadEvents(results)| + 2 && r.events[|r.events| - 1] == Sleep(TimeSleep - 1)
    ensures !r.crashed ==> r.events[|r.events| - 2] == Publish(host, [(TemperatureTopic(room), r.temp.value)])
  {
    var t := LastGood(temp, results);
    if t.None? then LoopResult(t, ReadEvents(results), true)
    else LoopResult(t, ReadEvents(results) + [Publish(host, [(TemperatureTopic(room), t.value)]), Sleep(TimeSleep - 1)], false)
  }

  /** `cycles.Length` cycles of the loop, the i-th reading the sensors as `cycles[i]` says; nothing runs after a crash. */
  function LoopSpec(temp: Option<real>, host: string, room: string, cycles: seq<seq<SensorRead>>): (r: LoopResult)
    ensures temp.Some? ==> !r.crashed && r.temp.Some?
    ensures r.crashed ==> cycles != []
  {
    if cycles == [] then LoopResult(temp, [], false)
    else
      var before := LoopSpec(temp, host, room, cycles[..|cycles| - 1]);
      if before.crashed then before
      else
        var last := CycleSpec(before.temp, host, room, cycles[|cycles| - 1]);
        LoopResult(last.temp, before.events + last.events, last.crashed)
  }

  /** All sensor results of the given cycles, in order. */
  function Flatten(cycles: seq<seq<SensorRead>>): seq<SensorRead>
  {
    if cycles == [] then [] else Flatten(cycles[..|cycles| - 1]) + cycles[|cycles| - 1]
  }

  /** All sensor results of cycles 0 to i, in order. */
  function ReadsThrough(cycles: seq<seq<SensorRead>>, i: nat): seq<SensorRead>
    requires i < |cycles|
  {
    Flatten(cycles[..i + 1])
  }

  /** The publications among the events, in order. */
  function Publications(es: seq<Event>): seq<seq<(string, real)>>
  {
    if es == [] then []
    else Publications(es[..|es| - 1]) + (if es[|es| - 1].Publish? then [es[|es| - 1].msgs] else [])
  }

  lemma {:induction false} PublicationsAppend(a: seq<Event>, b: seq<Event>)
    ensures Publications(a + b) == Publications(a) + Publications(b)
  {
    if b != [] {
      assert (a + b)[..|a + b| - 1] == a + b[..|b| - 1];
      PublicationsAppend(a, b[..|b| - 1]);
    } else {
      assert a + b == a;
    }
  }

  lemma {:induction false} ReadEventsPublishNothing(results: seq<SensorRead>)
    ensures Publications(ReadEvents(results)) == []
  {
    if results != [] {
      var last := if results[|results| - 1].SensorError? then [Sleep(ReadRetrySleep)] else [];
      ReadEventsPublishNothing(results[..|results| - 1]);
      PublicationsAppend(ReadEvents(results[..|results| - 1]), last);
      assert Publications(last) == [] by {
        if last != [] {
          assert last[..0] == [];
        }
      }
    }
  }

  /** A cycle that does not crash publishes exactly one message: one (topic, value) pair. */
  lemma CyclePublishesOnce(temp: Option<real>, host: string, room: string, results: seq<SensorRead>)
    requires !CycleSpec(temp, host, room, results).crashed
    ensures var r := CycleSpec(temp, host, room, results);
      && r.temp.Some?
      && Publications(r.events) == [[(TemperatureTopic(room), r.temp.value)]]
  {
    var r := CycleSpec(temp, host, room, results);
    var tail := [Publish(host, [(TemperatureTopic(room), r.temp.value)]), Sleep(TimeSleep - 1)];
    ReadEventsPublishNothing(results);
    PublicationsAppend(ReadEvents(results), tail);
    assert Publications(tail) == [[(TemperatureTopic(room), r.temp.value)]] by {
      var head := tail[..|tail| - 1];
      assert head == [Publish(host, [(TemperatureTopic(room), r.temp.value)])];
      assert head[..|head| - 1] == [];
      assert Publications(head) == [[(TemperatureTopic(room), r.temp.value)]];
    }
  }

  /**
    A cycle that does not crash sleeps 2 seconds per failed read, then
    publishes, then sleeps `TIME_SLEEP - 1` = 59 seconds.
   */
  lemma CycleSleeps(temp: Option<real>, host: string, room: string, results: seq<SensorRead>)
    requires !CycleSpec(temp, host, room, results).crashed
    ensures var es := CycleSpec(temp, host, room, results).events;
      && |es| == Failures(results) + 2
      && (forall k :: 0 <= k < Failures(results) ==> es[k] == Sleep(2))
      && es[|es| - 2].Publish? && es[|es| - 1] == Sleep(59)
  {
    ReadEventsAreRetrySleeps(results);
  }

  /**
    The loop can only crash in its first cycle, and does exactly when it
    starts with `temp` unbound and every read of that cycle fails.
   */
  lemma {:induction false} CrashOnlyInFirstCycle(temp: Option<real>, host: string, room: string, cycles: seq<seq<SensorRead>>)
    ensures LoopSpec(temp, host, room, cycles).crashed
            <==> |cycles| > 0 && LastGood(temp, cycles[0]).None?
  {
    if |cycles| > 1 {
      var init := cycles[..|cycles| - 1];
      CrashOnlyInFirstCycle(temp, host, room, init);
      assert init[0] == cycles[0];
      var before := LoopSpec(temp, host, room, init);
      if !before.crashed {
        LoopTempIsLastGood(temp, host, room, init);
        LastGoodAppend(temp, Flatten(init[..0]), init[0]);
        assert init[..1] == [init[0]];
        assert Flatten(init[..1]) == Flatten(init[..0]) + init[0];
        assert init[..0] == [];
        if LastGood(temp, cycles[0]).Some? {
          LastGoodKeepsBoundAcross(temp, init);
        }
      }
    }
  }

  /** A loop that crashes has published nothing: the crash comes before the first publication. */
  lemma {:induction false} CrashedLoopPublishesNothing(temp: Option<real>, host: string, room: string, cycles: seq<seq<SensorRead>>)
    requires LoopSpec(temp, host, room, cycles).crashed
    ensures Publications(LoopSpec(temp, host, room, cycles).events) == []
  {
    var n := |cycles| - 1;
    var init := cycles[..n];
    if LoopSpec(temp, host, room, init).crashed {
      CrashedLoopPublishesNothing(temp, host, room, init);
    } else {
      if n > 0 {
        PrefixCrashes(temp, host, room, cycles);
      }
      assert init == [];
      var last := CycleSpec(temp, host, room, cycles[n]);
      assert LoopSpec(temp, host, room, cycles).events == [] + last.events;
      assert [] + last.events == ReadEvents(cycles[n]);
      ReadEventsPublishNothing(cycles[n]);
    }
  }

  /** A crash happens in the first cycle, so every run of two or more cycles that crashes had already crashed before its last cycle. */
  lemma PrefixCrashes(temp: Option<real>, host: string, room: string, cycles: seq<seq<SensorRead>>)
    requires |cycles| > 1 && LoopSpec(temp, host, room, cycles).crashed
    ensures LoopSpec(temp, host, room, cycles[..|cycles| - 1]).crashed
  {
    CrashOnlyInFirstCycle(temp, host, room, cycles);
    CrashOnlyInFirstCycle(temp, host, room, cycles[..|cycles| - 1]);
    assert cycles[..|cycles| - 1][0] == cycles[0];
  }

  /** If the first cycle binds `temp`, every later value of `temp` is bound. */
  lemma LastGoodKeepsBoundAcross(temp: Option<real>, cycles: seq<seq<SensorRead>>)
    requires |cycles| > 0 && LastGood(temp, cycles[0]).Some?
    ensures LastGood(temp, Flatten(cycles)).Some?
  {
    FlattenSplit(cycles);
    LastGoodAppend(temp, cycles[0], Flatten(cycles[1..]));
  }

  lemma {:induction false} FlattenSplit(cycles: seq<seq<SensorRead>>)
    requires |cycles| > 0
    ensures Flatten(cycles) == cycles[0] + Flatten(cycles[1..])
  {
    if |cycles| > 1 {
      var init := cycles[..|cycles| - 1];
      FlattenSplit(init);
      assert init[1..] == cycles[1..][..|cycles[1..]| - 1];
      assert init[0] == cycles[0];
    } else {
      assert cycles[..0] == [];
      assert cycles[1..] == [];
    }
  }

  /** When the loop has not crashed, `temp` is the last successful read of all cycles so far. */
  lemma {:induction false} LoopTempIsLastGood(temp: Option<real>, host: string, room: string, cycles: seq<seq<SensorRead>>)
    requires !LoopSpec(temp, host, room, cycles).crashed
    ensures LoopSpec(temp, host, room, cycles).temp == LastGood(temp, Flatten(cycles))
  {
    if cycles != [] {
      var init := cycles[..|cycles| - 1];
      LoopTempIsLastGood(temp, host, room, init);
      LastGoodAppend(temp, Flatten(init), cycles[|cycles| - 1]);
    }
  }

  /**
    Without a crash, cycle i publishes exactly one pair: the temperature topic
    of the room and the last temperature read successfully in cycles 0..i.
   */
  lemma {:induction false} LoopPublications(temp: Option<real>, host: string, room: string, cycles: seq<seq<SensorRead>>)
    requires !LoopSpec(temp, host, room, cycles).crashed
    ensures var pubs := Publications(LoopSpec(temp, host, room, cycles).events);
      && |pubs| == |cycles|
      && forall i :: 0 <= i < |cycles| ==>
           LastGood(temp, ReadsThrough(cycles, i)).Some?
           && pubs[i] == [(TemperatureTopic(room), LastGood(temp, ReadsThrough(cycles, i)).value)]
  {
    if cycles != [] {
      var n := |cycles| - 1;
      var init := cycles[..n];
      var before := LoopSpec(temp, host, room, init);
      var last := CycleSpec(before.temp, host, room, cycles[n]);
      LoopPublications(temp, host, room, init);
      var pubsInit := Publications(before.events);
      var pubs := Publications(LoopSpec(temp, host, room, cycles).events);
      CyclePublishesOnce(before.temp, host, room, cycles[n]);
      assert pubs == pubsInit + [[(TemperatureTopic(room), last.temp.value)]] by {
        PublicationsAppend(before.events, last.events);
      }
      LastCycleTemp(temp, host, room, cycles);
      forall i | 0 <= i < |cycles|
        ensures LastGood(temp, ReadsThrough(cycles, i)).Some?
        ensures pubs[i] == [(TemperatureTopic(room), LastGood(temp, ReadsThrough(cycles, i)).value)]
      {
        if i < n {
          ReadsThroughPrefix(cycles, i);
          assert pubs[i] == pubsInit[i];
        }
      }
    }
  }

  /** The last cycle leaves `temp` at the last good read over all cycles. */
  lemma LastCycleTemp(temp: Option<real>, host: string, room: string, cycles: seq<seq<SensorRead>>)
    requires cycles != []
    requires !LoopSpec(temp, host, room, cycles[..|cycles| - 1]).crashed
    ensures var n := |cycles| - 1;
      CycleSpec(LoopSpec(temp, host, room, cycles[..n]).temp, host, room, cycles[n]).temp
        == LastGood(temp, ReadsThrough(cycles, n))
  {
    var n := |cycles| - 1;
    var init := cycles[..n];
    LoopTempIsLastGood(temp, host, room, init);
    LastGoodAppend(temp, Flatten(init), cycles[n]);
    assert cycles[..n + 1] == cycles;
  }

  /** The reads through cycle i do not depend on later cycles. */
  lemma ReadsThroughPrefix(cycles: seq<seq<SensorRead>>, i: nat)
    requires i < |cycles| - 1
    ensures ReadsThrough(cycles, i) == ReadsThrough(cycles[..|cycles| - 1], i)
  {
    assert cycles[..i + 1] == cycles[..|cycles| - 1][..i + 1];
  }

  /**
    The 1-Wire daemon's loop state: the variable `temp` of `main` (None
    while unbound) and the events performed so far.
   */
  class Daemon {
    var temp: Option<real>
    var events: seq<Event>

    constructor ()
      ensures temp == None && events == []
    {
      temp := None;
      events := [];
    }

    /** The inner `for` over the sensors: a read overwrites `temp`, a failed read sleeps 2 seconds. */
    method ReadSensors(results: seq<SensorRead>)
      modifies this
      ensures temp == LastGood(old(temp), results)
      ensures events == old(events) + ReadEvents(results)
    {
      for j := 0 to |results|
        invariant temp == LastGood(old(temp), results[..j])
        invariant events == old(events) + ReadEvents(results[..j])
      {
        assert results[..j + 1][..j] == results[..j];
        match results[j]
        case Temperature(v) =>
          temp := Some(v);
        case SensorError =>
          events := events + [Sleep(ReadRetrySleep)];
          continue;
      }
      assert results[..|results|] == results;
    }

    /** One cycle of the `while True` loop; `crashed` when `temp` is still unbound at the publication. */
    method Cycle(host: string, room: string, results: seq<SensorRead>) returns (crashed: bool)
      modifies this
      ensures |old(events)| <= |events| && events[..|old(events)|] == old(events)
      ensures LoopResult(temp, events[|old(events)|..], crashed) == CycleSpec(old(temp), host, room, results)
    {
      ReadSensors(results);
      if temp.None? {
        crashed := true;
        return;
      }
      var msgs := [(TemperatureTopic(room), temp.value)];
      events := events + [Publish(host, msgs)];
      events := events + [Sleep(TimeSleep - 1)];
      crashed := false;
    }

    /** Runs the loop over `|cycles|` cycles, stopping at a crash. */
    method RunCycles(host: string, room: string, cycles: seq<seq<SensorRead>>) returns (crashed: bool)
      modifies this
      ensures |old(events)| <= |events| && events[..|old(events)|] == old(events)
      ensures LoopResult(temp, events[|old(events)|..], crashed) == LoopSpec(old(temp), host, room, cycles)
    {
      crashed := false;
      var i := 0;
      while i < |cycles| && !crashed
        invariant 0 <= i <= |cycles|
        invariant |old(events)| <= |events| && events[..|old(events)|] == old(events)
        invariant LoopResult(temp, events[|old(events)|..], crashed) == LoopSpec(old(temp), host, room, cycles[..i])
        invariant crashed ==> LoopSpec(old(temp), host, room, cycles[..i]) == LoopSpec(old(temp), host, room, cycles)
      {
        ghost var mid := events;
        crashed := Cycle(host, room, cycles[i]);
        assert cycles[..i + 1][..i] == cycles[..i];
        assert events[|old(events)|..] == mid[|old(events)|..] + events[|mid|..];
        if crashed {
          LoopSpecStopsAfterCrash(old(temp), host, room, cycles, i + 1);
        }
        i := i + 1;
      }
      if !crashed {
        assert cycles[..i] == cycles;
      }
    }
  }

  /** After a crash, the remaining cycles add nothing. */
  lemma {:induction false} LoopSpecStopsAfterCrash(temp: Option<real>, host: string, room: string, cycles: seq<seq<SensorRead>>, n: nat)
    requires n <= |cycles|
    requires LoopSpec(temp, host, room, cycles[..n]).crashed
    ensures LoopSpec(temp, host, room, cycles) == LoopSpec(temp, host, room, cycles[..n])
  {
    if n < |cycles| {
      var init := cycles[..|cycles| - 1];
      assert init[..n] == cycles[..n];
      LoopSpecStopsAfterCrash(temp, host, room, init, n);
    } else {
      assert cycles[..n] == cycles;
    }
  }

  /** How a run of the daemon ends. */
  datatype Status =
    | Exited(code: int)   // sys.exit at start-up
    | Crashed             // the loop raised (unbound `temp`)
    | Running             // still looping after the supplied cycles

  /**
    `main` from process start: start-up checks and discovery announcements,
    then the loop over the supplied cycles.
   */
  method Run(env: W1ThermConfig.Env, cycles: seq<seq<SensorRead>>) returns (events: seq<Event>, status: Status)
    ensures W1ThermConfig.ResolveStartup(env).Exit? ==> events == [] && status == Exited(W1ThermConfig.ExitMissingConfig)
    ensures W1ThermConfig.ResolveStartup(env).Ok? ==>
      var s := W1ThermConfig.ResolveStartup(env).value;
      var loop := LoopSpec(None, s.host, s.room, cycles);
      && events == Announcements(s.discovery) + loop.events
      && status == (if loop.crashed then Crashed else Running)
  {
    match W1ThermConfig.ResolveStartup(env)
    case Exit(code) =>
      events, status := [], Exited(code);
    case Ok(s) =>
      var d := new Daemon();
      d.events := Announcements(s.discovery);
      var crashed := d.RunCycles(s.host, s.room, cycles);
      events := d.events;
      status := if crashed then Crashed else Running;
  }

  function Announcements(ds: seq<W1ThermConfig.Discovery>): (es: seq<Event>)
    ensures |es| == |ds|
    ensures forall i :: 0 <= i < |ds| ==> es[i] == Announce(ds[i])
  {
    if ds == [] then [] else [Announce(ds[0])] + Announcements(ds[1..])
  }

  /**
    Every discovery document announced at start-up names as its state topic
    the topic the loop publishes to.
   */
  lemma DiscoveryMatchesLoopTopic(env: W1ThermConfig.Env, i: nat)
    requires W1ThermConfig.ResolveStartup(env).Ok?
    requires i < |W1ThermConfig.ResolveStartup(env).value.discovery|
    ensures var s := W1ThermConfig.ResolveStartup(env).value;
      s.discovery[i].doc.stateTopic == TemperatureTopic(s.room)
  {
    var s := W1ThermConfig.ResolveStartup(env).value;
    W1ThermConfig.AutoconfigureTemperature(env, s.host, s.room);
  }
}

/**
  Start-up of the 1-Wire thermometer daemon: resolution of the environment
  variables, derivation of the MQTT room from the Home-Assistant sensor name,
  and the Home-Assistant discovery messages. Strings are ASCII only; the
  discovery document is a record, not its JSON text.
 */
module W1ThermConfig {
  import opened Wrappers

  /** The process environment. */
  type Env = map<string, string>

  /** The exit code of every missing-configuration exit. */
  const ExitMissingConfig: int := 1

  /** A value, or the code the process exits with. */
  datatype Result<T> = Ok(value: T) | Exit(code: int)

  /** `os.environ.get(key)`. */
  function Get(env: Env, key: string): Option<string>
  {
    if key in env then Some(env[key]) else None
  }

  /** Python truthiness of `os.environ.get(...)`: present and not empty. */
  predicate IsSet(v: Option<string>)
  {
    v.Some? && v.value != ""
  }

  // ---------------------------------------------------------------------------
  // Room derived from the sensor name

  /** `s.replace(' ', '_')`. */
  function ReplaceSpaces(s: string): (r: string)
    ensures |r| == |s|
    ensures forall i :: 0 <= i < |s| ==> r[i] == (if s[i] == ' ' then '_' else s[i])
  {
    if s == [] then [] else [if s[0] == ' ' then '_' else s[0]] + ReplaceSpaces(s[1..])
  }

  predicate IsUpperAscii(c: char)
  {
    'A' <= c <= 'Z'
  }

  function LowerChar(c: char): char
  {
    if IsUpperAscii(c) then (c as int + 32) as char else c
  }

  /** `s.lower()` on ASCII text. */
  function Lower(s: string): (r: string)
    ensures |r| == |s|
    ensures forall i :: 0 <= i < |s| ==> r[i] == LowerChar(s[i])
  {
    if s == [] then [] else [LowerChar(s[0])] + Lower(s[1..])
  }

  /** The MQTT room derived from `HA_SENSOR_NAME`: spaces become underscores, then lower-case. */
  function DeriveRoom(name: string): (room: string)
    ensures |room| == |name|
    ensures forall i :: 0 <= i < |room| ==> room[i] != ' ' && !IsUpperAscii(room[i])
  {
    Lower(ReplaceSpaces(name))
  }

  /** Each character of a derived room comes from the same position of the name. */
  lemma DeriveRoomAt(name: string, i: nat)
    requires i < |name|
    ensures DeriveRoom(name)[i] == LowerChar(if name[i] == ' ' then '_' else name[i])
  {
  }

  /** Deriving a room from a derived room returns it unchanged. */
  lemma DeriveRoomIdempotent(name: string)
    ensures DeriveRoom(DeriveRoom(name)) == DeriveRoom(name)
  {
    var room := DeriveRoom(name);
    var again := DeriveRoom(room);
    forall i | 0 <= i < |room|
      ensures again[i] == room[i]
    {
      DeriveRoomAt(room, i);
    }
  }

  /** A name without spaces or upper-case letters is its own room. */
  lemma DeriveRoomFixedPoint(name: string)
    requires forall i :: 0 <= i < |name| ==> name[i] != ' ' && !IsUpperAscii(name[i])
    ensures DeriveRoom(name) == name
  {
    var room := DeriveRoom(name);
    forall i | 0 <= i < |name|
      ensures room[i] == name[i]
    {
      DeriveRoomAt(name, i);
    }
  }

  // ---------------------------------------------------------------------------
  // Environment resolution

  /** What `main` settles before the sensor loop: the broker host and the room. */
  datatype Config = Config(host: string, room: string)

  /**
    `main`'s checks: `MQTT_HOST` must be set; a set `MQTT_TOPIC_ROOM` is the
    room as it is, otherwise the room is derived from `HA_SENSOR_NAME`, and
    if neither is set the process exits.
   */
  function ResolveConfig(env: Env): (r: Result<Config>)
    ensures !IsSet(Get(env, "MQTT_HOST")) ==> r == Exit(ExitMissingConfig)
    ensures r.Ok? <==> IsSet(Get(env, "MQTT_HOST")) && (IsSet(Get(env, "MQTT_TOPIC_ROOM")) || IsSet(Get(env, "HA_SENSOR_NAME")))
    ensures r.Exit? ==> r.code == ExitMissingConfig
    ensures r.Ok? ==> r.value.host == env["MQTT_HOST"] && r.value.host != ""
    ensures r.Ok? && IsSet(Get(env, "MQTT_TOPIC_ROOM")) ==> r.value.room == env["MQTT_TOPIC_ROOM"]
    ensures r.Ok? && !IsSet(Get(env, "MQTT_TOPIC_ROOM")) ==> r.value.room == DeriveRoom(env["HA_SENSOR_NAME"])
  {
    var host := Get(env, "MQTT_HOST");
    var room := Get(env, "MQTT_TOPIC_ROOM");
    var sensorName := Get(env, "HA_SENSOR_NAME");
    if !IsSet(host) then Exit(ExitMissingConfig)
    else if IsSet(room) then Ok(Config(host.value, room.value))
    else if IsSet(sensorName) then Ok(Config(host.value, DeriveRoom(sensorName.value)))
    else Exit(ExitMissingConfig)
  }

  /** A room derived from the sensor name is a valid room to derive again: it has no spaces and no capitals. */
  lemma DerivedRoomIsStable(env: Env)
    requires ResolveConfig(env).Ok? && !IsSet(Get(env, "MQTT_TOPIC_ROOM"))
    ensures DeriveRoom(ResolveConfig(env).value.room) == ResolveConfig(env).value.room
  {
    DeriveRoomIdempotent(env["HA_SENSOR_NAME"]);
  }

  // ---------------------------------------------------------------------------
  // Home-Assistant discovery

  /** Device block of a discovery document. */
  datatype Device = Device(identifiers: seq<string>, name: string, model: string)

  /** The fields of one discovery document (its JSON encoding is not modelled). */
  datatype DiscoveryDoc = DiscoveryDoc(
    name: string,
    uniqueId: string,
    deviceClass: string,
    stateTopic: string,
    unitOfMeasurement: string,
    device: Device)

  /** One retained discovery publication: topic, document and broker. */
  datatype Discovery = Discovery(topic: string, doc: DiscoveryDoc, hostname: string, retain: bool)

  /** The unit string as the source spells it: the two characters U+00C2 U+00B0, then `C`. */
  const TemperatureUnit: string := "\U{00C2}\U{00B0}C"

  /** The sensors announced, each with its unit. */
  const HaSensors: seq<(string, string)> := [("temperature", TemperatureUnit)]

  predicate IsLowerAscii(c: char)
  {
    'a' <= c <= 'z'
  }

  predicate IsCasedAscii(c: char)
  {
    IsLowerAscii(c) || IsUpperAscii(c)
  }

  function UpperChar(c: char): char
  {
    if IsLowerAscii(c) then (c as int - 32) as char else c
  }

  /**
    `s.title()` on ASCII text: a letter that follows a letter is lowered,
    any other letter is raised, and other characters are kept.
   */
  function Title(s: string): (r: string)
    ensures |r| == |s|
    ensures |s| > 0 ==> r[0] == UpperChar(s[0])
    ensures forall i :: 0 <= i < |s| && !IsCasedAscii(s[i]) ==> r[i] == s[i]
  {
    seq(|s|, i requires 0 <= i < |s| =>
      if i > 0 && IsCasedAscii(s[i - 1]) then LowerChar(s[i]) else UpperChar(s[i]))
  }

  /** A word of lower-case letters is title-cased by raising its first letter alone. */
  lemma TitleOfLowerWord(w: string)
    requires |w| > 0
    requires forall i :: 0 <= i < |w| ==> IsLowerAscii(w[i])
    ensures Title(w) == [UpperChar(w[0])] + w[1..]
  {
    var r := Title(w);
    forall i | 0 <= i < |w|
      ensures r[i] == ([UpperChar(w[0])] + w[1..])[i]
    {
      if i > 0 {
        assert IsCasedAscii(w[i - 1]);
      }
    }
  }

  /** `'temperature'.title()` is `Temperature`. */
  lemma TitleTemperature()
    ensures Title("temperature") == "Temperature"
  {
    TitleOfLowerWord("temperature");
  }

  /** Topic of the retained discovery message for one sensor kind. */
  function DiscoveryTopic(device: string, sensor: string): string
  {
    "homeassistant/sensor/" + device + "_w1therm/" + sensor + "/config"
  }

  /** The discovery publication for one sensor kind and its unit. */
  function DiscoveryFor(host: string, device: string, sensorName: string, room: string, sensor: string, unit: string): (d: Discovery)
    ensures d.retain && d.hostname == host
    ensures d.doc.deviceClass == sensor && d.doc.unitOfMeasurement == unit
    ensures d.topic == "homeassistant/sensor/" + device + "_w1therm/" + sensor + "/config"
    ensures d.doc.name == sensorName + " " + Title(sensor) && |d.doc.name| == |sensorName| + 1 + |sensor|
    ensures d.doc.uniqueId == room + "_" + sensor
    ensures d.doc.stateTopic == "home/" + room + "/" + sensor
    ensures d.doc.device == Device([device, "raspberrypi"], device + " w1therm", "DS18B20")
  {
    Discovery(
      DiscoveryTopic(device, sensor),
      DiscoveryDoc(
        sensorName + " " + Title(sensor),
        room + "_" + sensor,
        sensor,
        "home/" + room + "/" + sensor,
        unit,
        Device([device, "raspberrypi"], device + " w1therm", "DS18B20")),
      host,
      true)
  }

  /** The discovery publications for a list of sensor kinds, one each, in order. */
  function DiscoveryMessages(host: string, device: string, sensorName: string, room: string, sensors: seq<(string, string)>): (ds: seq<Discovery>)
    ensures |ds| == |sensors|
    ensures forall i :: 0 <= i < |sensors| ==> ds[i] == DiscoveryFor(host, device, sensorName, room, sensors[i].0, sensors[i].1)
  {
    if sensors == [] then []
    else [DiscoveryFor(host, device, sensorName, room, sensors[0].0, sensors[0].1)]
         + DiscoveryMessages(host, device, sensorName, room, sensors[1..])
  }

  /**
    `autoconfigure_ha_sensors`: exits when `HA_DEVICE` or `HA_SENSOR_NAME`
    is missing or empty, otherwise announces every sensor kind.
   */
  function Autoconfigure(env: Env, host: string, room: string): (r: Result<seq<Discovery>>)
    ensures r.Exit? <==> !IsSet(Get(env, "HA_DEVICE")) || !IsSet(Get(env, "HA_SENSOR_NAME"))
    ensures r.Exit? ==> r.code == ExitMissingConfig
    ensures r.Ok? ==> |r.value| == |HaSensors|
  {
    var device := Get(env, "HA_DEVICE");
    var sensorName := Get(env, "HA_SENSOR_NAME");
    if !IsSet(device) then Exit(ExitMissingConfig)
    else if !IsSet(sensorName) then Exit(ExitMissingConfig)
    else Ok(DiscoveryMessages(host, device.value, sensorName.value, room, HaSensors))
  }

  /**
    The temperature announcement: topic `homeassistant/sensor/<HA_DEVICE>_w1therm/temperature/config`,
    `unique_id` `<room>_temperature`, `name` `<HA_SENSOR_NAME> Temperature`,
    `state_topic` `home/<room>/temperature`, retained, on the broker `host`.
   */
  lemma AutoconfigureTemperature(env: Env, host: string, room: string)
    requires IsSet(Get(env, "HA_DEVICE")) && IsSet(Get(env, "HA_SENSOR_NAME"))
    ensures var r := Autoconfigure(env, host, room);
      && r.Ok? && |r.value| == 1
      && r.value[0].topic == "homeassistant/sensor/" + env["HA_DEVICE"] + "_w1therm/temperature/config"
      && r.value[0].doc.uniqueId == room + "_temperature"
      && r.value[0].doc.name == env["HA_SENSOR_NAME"] + " Temperature"
      && r.value[0].doc.stateTopic == "home/" + room + "/temperature"
      && r.value[0].doc.deviceClass == "temperature"
      && r.value[0].hostname == host && r.value[0].retain
  {
    var device, name := env["HA_DEVICE"], env["HA_SENSOR_NAME"];
    assert Autoconfigure(env, host, room).value[0] == DiscoveryFor(host, device, name, room, "temperature", TemperatureUnit);
    TemperatureTopicAndName(host, device, name, room);
    TemperatureIdAndStateTopic(host, device, name, room);
  }

  lemma TemperatureTopicAndName(host: string, device: string, name: string, room: string)
    ensures var d := DiscoveryFor(host, device, name, room, "temperature", TemperatureUnit);
      && d.topic == "homeassistant/sensor/" + device + "_w1therm/temperature/config"
      && d.doc.name == name + " Temperature"
  {
    TemperatureTopic(device);
    TemperatureName(name);
  }

  lemma TemperatureTopic(device: string)
    ensures DiscoveryTopic(device, "temperature") == "homeassistant/sensor/" + device + "_w1therm/temperature/config"
  {
    var prefix := "homeassistant/sensor/" + device;
    ConcatAssoc3(prefix, "_w1therm/", "temperature", "/config");
    assert "_w1therm/" + "temperature" + "/config" == "_w1therm/temperature/config";
  }

  lemma TemperatureName(name: string)
    ensures name + " " + Title("temperature") == name + " Temperature"
  {
    TitleTemperature();
    ConcatAssoc(name, " ", "Temperature");
  }

  lemma TemperatureIdAndStateTopic(host: string, device: string, name: string, room: string)
    ensures var d := DiscoveryFor(host, device, name, room, "temperature", TemperatureUnit);
      && d.doc.uniqueId == room + "_temperature"
      && d.doc.stateTopic == "home/" + room + "/temperature"
  {
    ConcatAssoc(room, "_", "temperature");
    ConcatAssoc("home/" + room, "/", "temperature");
  }

  lemma ConcatAssoc3(a: string, b: string, c: string, d: string)
    ensures a + b + c + d == a + (b + c + d)
  {
  }

  lemma ConcatAssoc(a: string, b: string, c: string)
    ensures a + b + c == a + (b + c)
  {
  }

  // ---------------------------------------------------------------------------
  // Start-up

  /** The outcome of start-up: broker, room, and the discovery publications (none without `HA_SENSOR_NAME`). */
  datatype Startup = Startup(host: string, room: string, discovery: seq<Discovery>)

  /** Everything `main` does before its sensor loop, in the source's order. */
  function ResolveStartup(env: Env): (r: Result<Startup>)
    ensures !IsSet(Get(env, "MQTT_HOST")) ==> r == Exit(ExitMissingConfig)
    ensures r.Exit? ==> r.code == ExitMissingConfig
    ensures r.Ok? ==> ResolveConfig(env) == Ok(Config(r.value.host, r.value.room))
    ensures r.Ok? ==> (r.value.discovery != [] <==> IsSet(Get(env, "HA_SENSOR_NAME")))
    ensures !IsSet(Get(env, "HA_SENSOR_NAME")) ==> (r.Ok? <==> ResolveConfig(env).Ok?)
    ensures ResolveConfig(env).Ok? && IsSet(Get(env, "HA_SENSOR_NAME")) ==>
              var c := ResolveConfig(env).value;
              && (r.Ok? <==> Autoconfigure(env, c.host, c.room).Ok?)
              && (r.Ok? ==> r.value.discovery == Autoconfigure(env, c.host, c.room).value)
  {
    match ResolveConfig(env)
    case Exit(code) => Exit(code)
    case Ok(config) =>
      if IsSet(Get(env, "HA_SENSOR_NAME")) then
        match Autoconfigure(env, config.host, config.room)
        case Exit(code) => Exit(code)
        case Ok(discovery) => Ok(Startup(config.host, config.room, discovery))
      else Ok(Startup(config.host, config.room, []))
  }

  /** With the broker and sensor name set, start-up fails exactly when `HA_DEVICE` is missing or empty. */
  lemma StartupNeedsDevice(env: Env)
    requires IsSet(Get(env, "MQTT_HOST")) && IsSet(Get(env, "HA_SENSOR_NAME"))
    ensures ResolveStartup(env).Exit? <==> !IsSet(Get(env, "HA_DEVICE"))
  {
  }
}

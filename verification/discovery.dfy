/**
 One-wire discovery at start-up. For each configured sensor the agent checks
 that its device directory exists, power-cycling the shared supply pin after
 every absent check, at most `Tries + 1` times; then it checks once more and
 reads the sensor once. Sensors that pass both are numbered 1, 2, ... in the
 order they are visited.
 */
module Discovery {
  import opened Wrappers
  import opened Gpio
  import opened Recovery
  import opened OneWire

  /** The retry budget of the discovery loop (`tries := 3`); the loop stops once `count > Tries`. */
  const Tries: nat := 3

  /** Presence checks one sensor can cost: up to `Tries + 1` in the loop and one after it. */
  const MaxChecks: nat := Tries + 2

  /** One configured sensor: its bus address and display name. */
  datatype SensorConfig = SensorConfig(id: string, name: string)

  /**
   What the hardware answers for one sensor: the successive presence checks
   of its device directory (true unless the check reports "does not exist"),
   and the content of its `w1_slave` file at the first read.
   */
  datatype Probe = Probe(present: seq<bool>, firstRead: Option<string>)

  /** A registered sensor and its last published temperature in millidegrees. */
  datatype OneWireDevice = OneWireDevice(id: string, name: string, milli: int)

  /** The oracle answers every check the code can make, and the first read cannot panic. */
  predicate Answerable(probe: Probe) {
    |probe.present| >= MaxChecks && !Ds18b20Temp(probe.firstRead).Panic?
  }

  /** Index of the first `true`, or the length when there is none. */
  function FirstTrue(s: seq<bool>): (k: nat)
    ensures k <= |s|
    ensures forall j | 0 <= j < k :: !s[j]
    ensures k < |s| ==> s[k]
    decreases |s|
  {
    if |s| == 0 then 0 else if s[0] then 0 else 1 + FirstTrue(s[1..])
  }

  /** Recoveries the loop performs: one per absent check among the first `Tries + 1`, up to the first present one. */
  function Recoveries(present: seq<bool>): nat
    requires |present| >= MaxChecks
  {
    FirstTrue(present[..Tries + 1])
  }

  /** Presence checks the loop consumes: the recoveries plus the present check that stopped it, if any. */
  function LoopChecks(present: seq<bool>): nat
    requires |present| >= MaxChecks
  {
    if Recoveries(present) <= Tries then Recoveries(present) + 1 else Recoveries(present)
  }

  /** A sensor is registered when the check after the loop finds it and its first read succeeds. */
  predicate Registers(probe: Probe)
    requires Answerable(probe)
  {
    probe.present[LoopChecks(probe.present)] && Ds18b20Temp(probe.firstRead).Temp?
  }

  /**
   The retry loop for one sensor. It stops at the first present check, or
   after the absent check that brings the count past `Tries`; every absent
   check is followed by one recovery of the supply pin.
   */
  method RetryLoop(hw: Hw, boardToPin: int -> int, vccPin: int, present: seq<bool>)
    returns (hw': Hw, recoveries: nat, checks: nat)
    requires |present| >= MaxChecks
    ensures recoveries <= Tries + 1
    ensures forall j | 0 <= j < recoveries :: !present[j]
    ensures recoveries <= Tries ==> present[recoveries]
    ensures checks == (if recoveries <= Tries then recoveries + 1 else recoveries)
    ensures hw' == RecoverTimes(hw, boardToPin, vccPin, recoveries)
  {
    hw' := hw;
    recoveries := 0;
    var count := 0;
    while true
      invariant count <= Tries
      invariant recoveries == count
      invariant forall j | 0 <= j < count :: !present[j]
      invariant hw' == RecoverTimes(hw, boardToPin, vccPin, count)
      decreases Tries - count
    {
      count := count + 1;
      if present[count - 1] {
        break;
      }
      hw' := RecoveryPin(hw', boardToPin, vccPin);
      recoveries := recoveries + 1;
      if count > Tries {
        break;
      }
    }
    checks := count;
  }

  /**
   Discovery of one sensor: the retry loop, the check after it, then the
   first read. A sensor present at the first check costs no recovery; one
   absent at every check costs `Tries + 1` recoveries and is not registered.
   */
  method ProbeSensor(hw: Hw, boardToPin: int -> int, vccPin: int, probe: Probe)
    returns (hw': Hw, registered: bool)
    requires Answerable(probe)
    ensures hw' == RecoverTimes(hw, boardToPin, vccPin, Recoveries(probe.present))
    ensures registered <==> Registers(probe)
    ensures probe.present[0] ==> hw' == hw
    ensures (forall j | 0 <= j < |probe.present| :: !probe.present[j]) ==>
              Recoveries(probe.present) == Tries + 1 && !registered
  {
    var recoveries, checks;
    hw', recoveries, checks := RetryLoop(hw, boardToPin, vccPin, probe.present);
    assert recoveries == Recoveries(probe.present) by {
      var k := Recoveries(probe.present);
      var window := probe.present[..Tries + 1];
      assert forall j | 0 <= j < Tries + 1 :: window[j] == probe.present[j];
    }
    if !probe.present[checks] {
      registered := false;
    } else {
      registered := Ds18b20Temp(probe.firstRead).Temp?;
    }
  }

  /** `ProbeSensor` run after `done` earlier recoveries: the recoveries add up. */
  method ProbeAfter(ghost hw0: Hw, boardToPin: int -> int, vccPin: int, ghost done: nat, hw: Hw, probe: Probe)
    returns (hw': Hw, registered: bool)
    requires Answerable(probe)
    requires hw == RecoverTimes(hw0, boardToPin, vccPin, done)
    ensures hw' == RecoverTimes(hw0, boardToPin, vccPin, done + Recoveries(probe.present))
    ensures registered <==> Registers(probe)
  {
    hw', registered := ProbeSensor(hw, boardToPin, vccPin, probe);
    RecoverTimesAdd(hw0, boardToPin, vccPin, done, Recoveries(probe.present));
  }

  /** All the sensors' oracles are well formed. */
  predicate AllAnswerable(sensors: seq<SensorConfig>, probes: seq<Probe>) {
    |sensors| == |probes| && forall i | 0 <= i < |probes| :: Answerable(probes[i])
  }

  /** The sensors that get registered, in visiting order. */
  function RegisteredSensors(sensors: seq<SensorConfig>, probes: seq<Probe>): seq<SensorConfig>
    requires AllAnswerable(sensors, probes)
    decreases |sensors|
  {
    if |sensors| == 0 then []
    else
      var n := |sensors| - 1;
      RegisteredSensors(sensors[..n], probes[..n]) + (if Registers(probes[n]) then [sensors[n]] else [])
  }

  /** The recoveries of the whole discovery. */
  function TotalRecoveries(probes: seq<Probe>): nat
    requires forall i | 0 <= i < |probes| :: Answerable(probes[i])
    decreases |probes|
  {
    if |probes| == 0 then 0
    else
      var last := probes[|probes| - 1];
      assert Answerable(last);
      TotalRecoveries(probes[..|probes| - 1]) + Recoveries(last.present)
  }

  /** The device table after discovery: keys 1..count, key `k` holding the k-th registered sensor. */
  ghost predicate Numbered(devices: map<int, OneWireDevice>, count: nat, registered: seq<SensorConfig>) {
    && count == |registered|
    && (forall k :: k in devices <==> 1 <= k <= count)
    && forall k | 1 <= k <= count ::
         devices[k] == OneWireDevice(registered[k - 1].id, registered[k - 1].name, 0)
  }

  /** Visiting one more sensor extends the registered list by that sensor, when it registers. */
  lemma RegisteredStep(sensors: seq<SensorConfig>, probes: seq<Probe>, i: nat)
    requires AllAnswerable(sensors, probes) && i < |sensors|
    ensures AllAnswerable(sensors[..i], probes[..i])
    ensures RegisteredSensors(sensors[..i + 1], probes[..i + 1])
         == RegisteredSensors(sensors[..i], probes[..i]) + (if Registers(probes[i]) then [sensors[i]] else [])
    ensures TotalRecoveries(probes[..i + 1]) == TotalRecoveries(probes[..i]) + Recoveries(probes[i].present)
  {
    assert sensors[..i + 1][..i] == sensors[..i];
    assert probes[..i + 1][..i] == probes[..i];
  }

  /** The device table the discovery loop builds: the k-th registered sensor under key k, at 0 degrees. */
  function Table(registered: seq<SensorConfig>): map<int, OneWireDevice>
    decreases |registered|
  {
    if |registered| == 0 then map[]
    else
      var n := |registered| - 1;
      Table(registered[..n])[n + 1 := OneWireDevice(registered[n].id, registered[n].name, 0)]
  }

  /** Registering one more sensor adds it under the next key. */
  lemma TableAppend(registered: seq<SensorConfig>, s: SensorConfig)
    ensures Table(registered + [s]) == Table(registered)[|registered| + 1 := OneWireDevice(s.id, s.name, 0)]
  {
    assert (registered + [s])[..|registered|] == registered;
  }

  /** The table is numbered contiguously from 1, in registration order. */
  lemma {:induction false} TableNumbered(registered: seq<SensorConfig>)
    ensures Numbered(Table(registered), |registered|, registered)
    decreases |registered|
  {
    if |registered| > 0 {
      var n := |registered| - 1;
      var prefix := registered[..n];
      TableNumbered(prefix);
      forall k | 1 <= k <= n
        ensures Table(registered)[k] == OneWireDevice(registered[k - 1].id, registered[k - 1].name, 0)
      {
        assert registered[k - 1] == prefix[k - 1];
      }
    }
  }

  /**
   What discovery has done after visiting the first `i` sensors: the
   registered ones are in the table, and the supply pin went through all
   their recoveries.
   */
  ghost predicate Visited(hw0: Hw, boardToPin: int -> int, vccPin: int, sensors: seq<SensorConfig>, probes: seq<Probe>,
                          i: nat, hw: Hw, devices: map<int, OneWireDevice>, devCount: nat)
    requires AllAnswerable(sensors, probes) && i <= |sensors|
  {
    PrefixAnswerable(sensors, probes, i);
    && devCount == |RegisteredSensors(sensors[..i], probes[..i])|
    && devices == Table(RegisteredSensors(sensors[..i], probes[..i]))
    && hw == RecoverTimes(hw0, boardToPin, vccPin, TotalRecoveries(probes[..i]))
  }

  lemma PrefixAnswerable(sensors: seq<SensorConfig>, probes: seq<Probe>, i: nat)
    requires AllAnswerable(sensors, probes) && i <= |sensors|
    ensures AllAnswerable(sensors[..i], probes[..i])
  {
  }

  /** The facts about the first `i + 1` sensors make up `Visited` for `i + 1`. */
  lemma VisitedNext(hw0: Hw, boardToPin: int -> int, vccPin: int, sensors: seq<SensorConfig>, probes: seq<Probe>,
                    i: nat, hw: Hw, devices: map<int, OneWireDevice>, devCount: nat)
    requires AllAnswerable(sensors, probes) && i < |sensors|
    requires devCount == |RegisteredSensors(sensors[..i + 1], probes[..i + 1])|
    requires devices == Table(RegisteredSensors(sensors[..i + 1], probes[..i + 1]))
    requires hw == RecoverTimes(hw0, boardToPin, vccPin, TotalRecoveries(probes[..i + 1]))
    ensures Visited(hw0, boardToPin, vccPin, sensors, probes, i + 1, hw, devices, devCount)
  {
  }

  /** One iteration of the discovery loop: probe sensor `i` and number it if it registers. */
  method Visit(ghost hw0: Hw, boardToPin: int -> int, vccPin: int, sensors: seq<SensorConfig>, probes: seq<Probe>,
               i: nat, hw: Hw, devices: map<int, OneWireDevice>, devCount: nat)
    returns (hw': Hw, devices': map<int, OneWireDevice>, devCount': nat)
    requires AllAnswerable(sensors, probes) && i < |sensors|
    requires Visited(hw0, boardToPin, vccPin, sensors, probes, i, hw, devices, devCount)
    ensures Visited(hw0, boardToPin, vccPin, sensors, probes, i + 1, hw', devices', devCount')
  {
    RegisteredStep(sensors, probes, i);
    ghost var found := RegisteredSensors(sensors[..i], probes[..i]);
    var registered;
    hw', registered := ProbeAfter(hw0, boardToPin, vccPin, TotalRecoveries(probes[..i]), hw, probes[i]);
    ghost var next := found + (if registered then [sensors[i]] else []);
    assert RegisteredSensors(sensors[..i + 1], probes[..i + 1]) == next;
    if registered {
      TableAppend(found, sensors[i]);
      devCount' := devCount + 1;
      devices' := devices[devCount' := OneWireDevice(sensors[i].id, sensors[i].name, 0)];
    } else {
      assert next == found;
      devices', devCount' := devices, devCount;
    }
    VisitedNext(hw0, boardToPin, vccPin, sensors, probes, i, hw', devices', devCount');
  }

  /**
   Discovery over the configured sensors, in the given order. Registered
   sensors are numbered contiguously from 1, start at 0 degrees (the first
   read's value is only logged), and the supply pin is power-cycled once per
   absent check of every sensor.
   */
  method Discover(hw: Hw, boardToPin: int -> int, vccPin: int, sensors: seq<SensorConfig>, probes: seq<Probe>)
    returns (hw': Hw, devices: map<int, OneWireDevice>, devCount: nat)
    requires AllAnswerable(sensors, probes)
    ensures devices == Table(RegisteredSensors(sensors, probes))
    ensures Numbered(devices, devCount, RegisteredSensors(sensors, probes))
    ensures hw' == RecoverTimes(hw, boardToPin, vccPin, TotalRecoveries(probes))
  {
    hw' := hw;
    devices := map[];
    devCount := 0;
    var i := 0;
    while i < |sensors|
      invariant i <= |sensors|
      invariant Visited(hw, boardToPin, vccPin, sensors, probes, i, hw', devices, devCount)
    {
      hw', devices, devCount := Visit(hw, boardToPin, vccPin, sensors, probes, i, hw', devices, devCount);
      i := i + 1;
    }
    assert sensors[..i] == sensors;
    assert probes[..i] == probes;
    TableNumbered(RegisteredSensors(sensors, probes));
  }
}

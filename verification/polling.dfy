/**
 The periodic sensor updates: one tick of the one-wire timer over the
 registered sensors, and the DHT22 read published on every tick of its own
 timer. The timers and goroutines are left out: a run of ticks is a loop over
 the successive hardware answers.
 */
module Polling {
  import opened Wrappers
  import opened Gpio
  import opened Recovery
  import opened OneWire
  import opened Discovery

  // ---------------------------------------------------------------------
  // One-wire tick

  /** Whether the read of this file fails (and so costs a recovery). */
  predicate ReadFails(file: Option<string>) {
    Ds18b20Temp(file).Failed?
  }

  /** Failed temperature reads among the files, each one costing a recovery. */
  function FailedReads(files: seq<Option<string>>): nat
    decreases |files|
  {
    if |files| == 0 then 0
    else FailedReads(files[..|files| - 1]) + (if ReadFails(files[|files| - 1]) then 1 else 0)
  }

  /** No file in the list makes the temperature parse panic. */
  predicate NoPanics(files: seq<Option<string>>) {
    forall k | 0 <= k < |files| :: !Ds18b20Temp(files[k]).Panic?
  }

  /** Sensor `k` after a tick that read `file` for it. */
  function Refreshed(device: OneWireDevice, file: Option<string>): OneWireDevice {
    match Ds18b20Temp(file)
    case Temp(v) => device.(milli := v)
    case _ => device
  }

  /** What a tick has done once the first `i` sensors are visited. */
  ghost predicate Ticked(hw0: Hw, boardToPin: int -> int, vccPin: int, devices0: map<int, OneWireDevice>,
                         files: seq<Option<string>>, i: nat, hw: Hw, devices: map<int, OneWireDevice>)
    requires i <= |files|
  {
    && devices.Keys == devices0.Keys
    && (forall k | k in devices0 && !(1 <= k <= i) :: devices[k] == devices0[k])
    && (forall k | 1 <= k <= i && k in devices0 :: devices[k] == Refreshed(devices0[k], files[k - 1]))
    && hw == RecoverTimes(hw0, boardToPin, vccPin, FailedReads(files[..i]))
  }

  /** Visiting sensor `i + 1`: publish its temperature, or power-cycle the bus on a failed read. */
  method TickOne(ghost hw0: Hw, boardToPin: int -> int, vccPin: int, ghost devices0: map<int, OneWireDevice>,
                 files: seq<Option<string>>, i: nat, hw: Hw, devices: map<int, OneWireDevice>)
    returns (hw': Hw, devices': map<int, OneWireDevice>)
    requires i < |files| && i + 1 in devices0 && !Ds18b20Temp(files[i]).Panic?
    requires Ticked(hw0, boardToPin, vccPin, devices0, files, i, hw, devices)
    ensures Ticked(hw0, boardToPin, vccPin, devices0, files, i + 1, hw', devices')
  {
    assert files[..i + 1][..i] == files[..i];
    ghost var failed := FailedReads(files[..i]);
    var k := i + 1;
    var outcome := Ds18b20Temp(files[i]);
    if outcome.Temp? {
      hw' := hw;
      devices' := devices[k := devices[k].(milli := outcome.milli)];
      assert FailedReads(files[..i + 1]) == failed;
    } else {
      hw' := RecoveryPin(hw, boardToPin, vccPin);
      devices' := devices;
      assert FailedReads(files[..i + 1]) == failed + 1;
    }
    assert devices'[k] == Refreshed(devices0[k], files[i]);
  }

  /**
   One tick of the one-wire timer over sensors `1..devCount`: each sensor
   whose file reads as a temperature gets that temperature and keeps its id
   and name; a sensor whose read fails keeps its last temperature and costs
   one power cycle of the supply pin. Nothing else in the table changes.
   */
  method OneWireTick(hw: Hw, boardToPin: int -> int, vccPin: int,
                     devices: map<int, OneWireDevice>, devCount: nat, files: seq<Option<string>>)
    returns (hw': Hw, devices': map<int, OneWireDevice>)
    requires |files| == devCount
    requires forall k | 1 <= k <= devCount :: k in devices
    requires NoPanics(files)
    ensures devices'.Keys == devices.Keys
    ensures forall k | k in devices && !(1 <= k <= devCount) :: devices'[k] == devices[k]
    ensures forall k | 1 <= k <= devCount ::
              match Ds18b20Temp(files[k - 1])
              case Temp(v) => devices'[k] == OneWireDevice(devices[k].id, devices[k].name, v)
              case _ => devices'[k] == devices[k]
    ensures hw' == RecoverTimes(hw, boardToPin, vccPin, FailedReads(files))
  {
    hw' := hw;
    devices' := devices;
    var i := 0;
    while i < devCount
      invariant i <= devCount
      invariant Ticked(hw, boardToPin, vccPin, devices, files, i, hw', devices')
    {
      hw', devices' := TickOne(hw, boardToPin, vccPin, devices, files, i, hw', devices');
      i := i + 1;
    }
    assert files[..i] == files;
  }

  /** A tick adds one power cycle, six events, to the trace per failed read, and touches no other pin. */
  lemma TickTrace(hw: Hw, boardToPin: int -> int, vccPin: int, files: seq<Option<string>>)
    ensures var r := RecoverTimes(hw, boardToPin, vccPin, FailedReads(files));
            && |r.trace| == |hw.trace| + 6 * FailedReads(files)
            && forall q | q != boardToPin(vccPin) :: Read(r, q) == Read(hw, q)
  {
    RecoverTimesEffect(hw, boardToPin, vccPin, FailedReads(files));
    CyclesLength(boardToPin, vccPin, FailedReads(files));
  }

  /** One more file adds one to the count exactly when its read fails. */
  lemma FailedReadsLast(files: seq<Option<string>>)
    requires |files| > 0
    ensures FailedReads(files) == FailedReads(files[..|files| - 1]) + (if ReadFails(files[|files| - 1]) then 1 else 0)
  {
  }

  /** No recovery happens exactly when no read failed; the count never exceeds the sensors. */
  lemma {:induction false} FailedReadsNone(files: seq<Option<string>>)
    ensures FailedReads(files) <= |files|
    ensures FailedReads(files) == 0 <==> forall k | 0 <= k < |files| :: !ReadFails(files[k])
    decreases |files|
  {
    if |files| > 0 {
      var n := |files| - 1;
      FailedReadsNone(files[..n]);
      FailedReadsLast(files);
      assert forall k | 0 <= k < n :: files[..n][k] == files[k];
    }
  }

  /** Every sensor costs a recovery exactly when every read failed. */
  lemma {:induction false} FailedReadsAll(files: seq<Option<string>>)
    ensures FailedReads(files) == |files| <==> forall k | 0 <= k < |files| :: ReadFails(files[k])
    decreases |files|
  {
    if |files| > 0 {
      var n := |files| - 1;
      FailedReadsAll(files[..n]);
      FailedReadsNone(files[..n]);
      FailedReadsLast(files);
      assert forall k | 0 <= k < n :: files[..n][k] == files[k];
    }
  }

  // ---------------------------------------------------------------------
  // DHT22

  /**
   What the DHT driver returns on one read (`ReadDHTxxWithRetry`): the
   values it has and whether it reported an error. Values are whole units;
   the driver's floating point is left out.
   */
  datatype DriverRead = DriverRead(temperature: int, humidity: int, failed: bool)

  /** The DHT22 part of the settings. */
  datatype DhtSettings = DhtSettings(vccPin: int, autorecovery: bool)

  /** A published pair of temperature and humidity. */
  datatype Sample = Sample(temperature: int, humidity: int)

  /** The hardware after one `ReadTemp`, and the pair it returns. */
  datatype DhtOutcome = DhtOutcome(hw: Hw, sample: Sample)

  /** Whether a read recovers the DHT supply pin: a failure with debug logging and autorecovery on. */
  predicate Recovers(debug: bool, dht: DhtSettings, read: DriverRead) {
    read.failed && debug && dht.autorecovery
  }

  /**
   `ReadTemp`. With debug logging on, a failed read returns `(0, 0)` and,
   with autorecovery on, power-cycles the sensor's supply. Without debug
   logging a failed read falls through and returns what the driver had,
   like a successful one.
   */
  function ReadTemp(hw: Hw, boardToPin: int -> int, debug: bool, dht: DhtSettings, read: DriverRead): (r: DhtOutcome)
    ensures !read.failed ==> r == DhtOutcome(hw, Sample(read.temperature, read.humidity))
    ensures read.failed && debug ==> r.sample == Sample(0, 0)
    ensures read.failed && !debug ==> r.sample == Sample(read.temperature, read.humidity) && r.hw == hw
    ensures Recovers(debug, dht, read) ==> r.hw == RecoveryPin(hw, boardToPin, dht.vccPin)
    ensures !Recovers(debug, dht, read) ==> r.hw == hw
  {
    if read.failed && debug then
      var hw' := if dht.autorecovery then RecoveryPin(hw, boardToPin, dht.vccPin) else hw;
      DhtOutcome(hw', Sample(0, 0))
    else
      DhtOutcome(hw, Sample(read.temperature, read.humidity))
  }

  /** Reads that power-cycle the supply, over a run of ticks. */
  function DhtRecoveries(debug: bool, dht: DhtSettings, answers: seq<DriverRead>): nat
    decreases |answers|
  {
    if |answers| == 0 then 0
    else DhtRecoveries(debug, dht, answers[..|answers| - 1]) + (if Recovers(debug, dht, answers[|answers| - 1]) then 1 else 0)
  }

  /**
   A run of DHT timer ticks: each tick publishes the pair `ReadTemp`
   returns. The published pairs line up with the driver answers, and the supply pin
   is power-cycled once per recovering read.
   */
  method DhtTicks(hw: Hw, boardToPin: int -> int, debug: bool, dht: DhtSettings, answers: seq<DriverRead>)
    returns (hw': Hw, published: seq<Sample>)
    ensures |published| == |answers|
    ensures forall t | 0 <= t < |answers| && !answers[t].failed ::
              published[t] == Sample(answers[t].temperature, answers[t].humidity)
    ensures forall t | 0 <= t < |answers| && answers[t].failed ::
              published[t] == (if debug then Sample(0, 0) else Sample(answers[t].temperature, answers[t].humidity))
    ensures hw' == RecoverTimes(hw, boardToPin, dht.vccPin, DhtRecoveries(debug, dht, answers))
  {
    hw' := hw;
    published := [];
    var t := 0;
    while t < |answers|
      invariant t <= |answers|
      invariant |published| == t
      invariant forall u | 0 <= u < t :: published[u] == ReadTemp(hw, boardToPin, debug, dht, answers[u]).sample
      invariant hw' == RecoverTimes(hw, boardToPin, dht.vccPin, DhtRecoveries(debug, dht, answers[..t]))
    {
      assert answers[..t + 1][..t] == answers[..t];
      var outcome := ReadTemp(hw', boardToPin, debug, dht, answers[t]);
      assert outcome.sample == ReadTemp(hw, boardToPin, debug, dht, answers[t]).sample;
      hw' := outcome.hw;
      published := published + [outcome.sample];
      t := t + 1;
    }
    assert answers[..t] == answers;
  }

  /** Without debug logging the DHT supply is never power-cycled, whatever the driver reports. */
  lemma {:induction false} QuietNeverRecovers(dht: DhtSettings, answers: seq<DriverRead>)
    ensures DhtRecoveries(false, dht, answers) == 0
    decreases |answers|
  {
    if |answers| > 0 {
      QuietNeverRecovers(dht, answers[..|answers| - 1]);
    }
  }
}

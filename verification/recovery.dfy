/**
 Pin recovery: power-cycling a sensor's supply pin (`RecoveryPin`). The
 board-to-wiringPi pin translation is a parameter, since its table lives in
 the GPIO library.
 */
module Recovery {
  import opened Gpio

  /** Seconds the supply stays off, and then on, during one power cycle. */
  const DwellSeconds: nat := 10

  /** Events of one power cycle. The second mode call uses the raw board pin, unlike the writes. */
  function CycleEvents(boardToPin: int -> int, pin: int): seq<Event> {
    [ SetOutput(boardToPin(pin)), Write(boardToPin(pin), LOW), Sleep(DwellSeconds),
      SetOutput(pin), Write(boardToPin(pin), HIGH), Sleep(DwellSeconds) ]
  }

  /**
   One power cycle of the supply behind board pin `pin`, by its net effect:
   the six events are appended to the trace and the translated pin is left
   driven HIGH.
   */
  function RecoveryPin(hw: Hw, boardToPin: int -> int, pin: int): (r: Hw)
    ensures r.trace == hw.trace + CycleEvents(boardToPin, pin)
    ensures Read(r, boardToPin(pin)) == HIGH
    ensures r.undriven == hw.undriven
  {
    hw.(levels := hw.levels[boardToPin(pin) := HIGH], trace := hw.trace + CycleEvents(boardToPin, pin))
  }

  /** After a power cycle the supply pin reads HIGH (powered) and every other pin keeps its level. */
  lemma RecoveryPinEffect(hw: Hw, boardToPin: int -> int, pin: int)
    ensures RecoveryPin(hw, boardToPin, pin).trace == hw.trace + CycleEvents(boardToPin, pin)
    ensures Read(RecoveryPin(hw, boardToPin, pin), boardToPin(pin)) == HIGH
    ensures forall q | q != boardToPin(pin) :: Read(RecoveryPin(hw, boardToPin, pin), q) == Read(hw, q)
    ensures RecoveryPin(hw, boardToPin, pin).undriven == hw.undriven
  {
  }

  /** The net effect is exactly what issuing the six events one after another does. */
  lemma RecoveryPinReplays(hw: Hw, boardToPin: int -> int, pin: int)
    ensures RecoveryPin(hw, boardToPin, pin) == PerformAll(hw, CycleEvents(boardToPin, pin))
  {
    var b := boardToPin(pin);
    var es := CycleEvents(boardToPin, pin);
    var h1 := Perform(hw, es[0]);
    var h2 := Perform(h1, es[1]);
    var h3 := Perform(h2, es[2]);
    var h4 := Perform(h3, es[3]);
    var h5 := Perform(h4, es[4]);
    var h6 := Perform(h5, es[5]);
    assert PerformAll(h6, es[6..]) == h6;
    assert PerformAll(h5, es[5..]) == PerformAll(h6, es[6..]);
    assert PerformAll(h4, es[4..]) == PerformAll(h5, es[5..]);
    assert PerformAll(h3, es[3..]) == PerformAll(h4, es[4..]);
    assert PerformAll(h2, es[2..]) == PerformAll(h3, es[3..]);
    assert PerformAll(h1, es[1..]) == PerformAll(h2, es[2..]);
    assert PerformAll(hw, es) == PerformAll(h1, es[1..]);
    assert h6.levels == hw.levels[b := HIGH];
    assert h6.trace == hw.trace + es;
  }

  /** `k` copies of the power-cycle events. */
  function Cycles(boardToPin: int -> int, pin: int, k: nat): seq<Event>
    decreases k
  {
    if k == 0 then [] else Cycles(boardToPin, pin, k - 1) + CycleEvents(boardToPin, pin)
  }

  /** `k` successive recoveries of the same pin. */
  function RecoverTimes(hw: Hw, boardToPin: int -> int, pin: int, k: nat): Hw
    decreases k
  {
    if k == 0 then hw else RecoveryPin(RecoverTimes(hw, boardToPin, pin, k - 1), boardToPin, pin)
  }

  /**
   What `k` recoveries do to the hardware: the trace grows by `k` power
   cycles, the supply pin ends powered if there was at least one, and every
   other pin keeps its level.
   */
  lemma {:induction false} RecoverTimesEffect(hw: Hw, boardToPin: int -> int, pin: int, k: nat)
    ensures RecoverTimes(hw, boardToPin, pin, k).trace == hw.trace + Cycles(boardToPin, pin, k)
    ensures k > 0 ==> Read(RecoverTimes(hw, boardToPin, pin, k), boardToPin(pin)) == HIGH
    ensures forall q | q != boardToPin(pin) :: Read(RecoverTimes(hw, boardToPin, pin, k), q) == Read(hw, q)
    ensures RecoverTimes(hw, boardToPin, pin, k).undriven == hw.undriven
    decreases k
  {
    if k > 0 {
      RecoverTimesEffect(hw, boardToPin, pin, k - 1);
      var prev := RecoverTimes(hw, boardToPin, pin, k - 1);
      RecoveryPinEffect(prev, boardToPin, pin);
      assert hw.trace + Cycles(boardToPin, pin, k)
          == (hw.trace + Cycles(boardToPin, pin, k - 1)) + CycleEvents(boardToPin, pin);
    }
  }

  /** Every recovery adds six events, so the trace tells how many recoveries happened. */
  lemma {:induction false} CyclesLength(boardToPin: int -> int, pin: int, k: nat)
    ensures |Cycles(boardToPin, pin, k)| == 6 * k
    decreases k
  {
    if k > 0 {
      CyclesLength(boardToPin, pin, k - 1);
    }
  }

  /** Recoveries compose: `m` of them followed by `n` more are `m + n` of them. */
  lemma {:induction false} RecoverTimesAdd(hw: Hw, boardToPin: int -> int, pin: int, m: nat, n: nat)
    ensures RecoverTimes(RecoverTimes(hw, boardToPin, pin, m), boardToPin, pin, n)
         == RecoverTimes(hw, boardToPin, pin, m + n)
    decreases n
  {
    if n > 0 {
      RecoverTimesAdd(hw, boardToPin, pin, m, n - 1);
    }
  }
}

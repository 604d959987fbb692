/**
 The GPIO hardware seen by the agent, as an explicit value: the level last
 driven on each pin, the level an undriven pin reads, and the trace of
 pin-mode, write and sleep events issued so far.
 */
module Gpio {

  /** Logic levels of the wiringPi write and read primitives. */
  const LOW: int := 0
  const HIGH: int := 1

  datatype Event =
    | SetOutput(pin: int)          // PinMode(pin, OUTPUT)
    | Write(pin: int, level: int)  // DigitalWrite(pin, level)
    | Sleep(seconds: nat)          // time.Sleep, kept only as a trace entry

  datatype Hw = Hw(levels: map<int, int>, undriven: int, trace: seq<Event>)

  /** `DigitalRead(pin)`. */
  function Read(hw: Hw, pin: int): int {
    if pin in hw.levels then hw.levels[pin] else hw.undriven
  }

  /** Issue one event: it is appended to the trace, and a write changes its pin's level only. */
  function Perform(hw: Hw, e: Event): (r: Hw)
    ensures r.trace == hw.trace + [e]
    ensures r.undriven == hw.undriven
    ensures e.Write? ==> Read(r, e.pin) == e.level
    ensures forall q | !(e.Write? && q == e.pin) :: Read(r, q) == Read(hw, q)
  {
    match e
    case Write(p, level) => hw.(levels := hw.levels[p := level], trace := hw.trace + [e])
    case _ => hw.(trace := hw.trace + [e])
  }

  /** Issue a sequence of events in order. */
  function PerformAll(hw: Hw, es: seq<Event>): Hw
    decreases |es|
  {
    if |es| == 0 then hw else PerformAll(Perform(hw, es[0]), es[1..])
  }
}

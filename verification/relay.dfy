/**
 The relay controller. A relay is addressed by the text of its pin number
 (the accessory's serial number) and is active-low: "on" drives the pin LOW
 and a pin reading 0 counts as on. A pin text that `Atoi` rejects makes
 every operation a no-op and every read "off".
 */
module Relay {
  import opened Wrappers
  import opened Decimal
  import opened Gpio

  /** `SwitchState`: is the relay on this pin currently on? */
  function SwitchState(hw: Hw, rawpin: string): (on: bool)
    ensures Atoi(rawpin).None? ==> !on
  {
    match Atoi(rawpin)
    case Some(pin) => Read(hw, pin) == LOW
    case None => false
  }

  /** Set the pin to output and drive it to `level`; the shared body of `OnSwitch` and `OffSwitch`. */
  function Drive(hw: Hw, rawpin: string, level: int): (r: Hw)
    ensures Atoi(rawpin).None? ==> r == hw
    ensures Atoi(rawpin).Some? ==>
              && r.trace == hw.trace + [SetOutput(Atoi(rawpin).value), Write(Atoi(rawpin).value, level)]
              && Read(r, Atoi(rawpin).value) == level
              && (forall q | q != Atoi(rawpin).value :: Read(r, q) == Read(hw, q))
              && r.undriven == hw.undriven
  {
    match Atoi(rawpin)
    case Some(pin) => Perform(Perform(hw, SetOutput(pin)), Write(pin, level))
    case None => hw
  }

  /** `OnSwitch`: afterwards the relay reads as on, and no other pin changes. */
  function OnSwitch(hw: Hw, rawpin: string): (r: Hw)
    ensures Atoi(rawpin).None? ==> r == hw
    ensures Atoi(rawpin).Some? ==> SwitchState(r, rawpin)
    ensures Atoi(rawpin).Some? ==>
              r.trace == hw.trace + [SetOutput(Atoi(rawpin).value), Write(Atoi(rawpin).value, LOW)]
    ensures forall q | Atoi(rawpin) != Some(q) :: Read(r, q) == Read(hw, q)
  {
    Drive(hw, rawpin, LOW)
  }

  /** `OffSwitch`: afterwards the relay reads as off, and no other pin changes. */
  function OffSwitch(hw: Hw, rawpin: string): (r: Hw)
    ensures Atoi(rawpin).None? ==> r == hw
    ensures !SwitchState(r, rawpin)
    ensures Atoi(rawpin).Some? ==>
              r.trace == hw.trace + [SetOutput(Atoi(rawpin).value), Write(Atoi(rawpin).value, HIGH)]
    ensures forall q | Atoi(rawpin) != Some(q) :: Read(r, q) == Read(hw, q)
  {
    Drive(hw, rawpin, HIGH)
  }

  /** Switching one relay does not change what any relay on another pin reads. */
  lemma SwitchFrame(hw: Hw, rawpin: string, other: string, on: bool)
    requires Atoi(other) != Atoi(rawpin)
    ensures SwitchState(if on then OnSwitch(hw, rawpin) else OffSwitch(hw, rawpin), other)
         == SwitchState(hw, other)
  {
  }
}

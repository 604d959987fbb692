/**
 The relay registry: the configured relay list, its lookup by id, and the
 start-up dispatch that turns each relay into an accessory with its
 remote-command handler.
 */
module Registry {
  import opened Wrappers
  import opened Decimal
  import opened Gpio
  import opened Relay

  /** One configured relay. `kind` is 0 for a lamp, 1 for a switch, 2 for a cooler (fan). */
  datatype RelayDevice = RelayDevice(id: Int64, kind: Int64, name: string, pin: Int64, invert: Int64)

  const LampKind: int := 0
  const SwitchKind: int := 1
  const CoolerKind: int := 2

  /** The zero value of the record. */
  const NoRelay: RelayDevice := RelayDevice(0, 0, "", 0, 0)

  /** `GetRelayById`: the first relay in list order with this id, else the zero record. */
  function GetRelayById(relays: seq<RelayDevice>, id: int): (r: RelayDevice)
    ensures (forall i | 0 <= i < |relays| :: relays[i].id != id) ==> r == NoRelay
    ensures forall i | 0 <= i < |relays| && relays[i].id == id ::
              (forall j | 0 <= j < i :: relays[j].id != id) ==> r == relays[i]
    decreases |relays|
  {
    if |relays| == 0 then NoRelay
    else if relays[0].id == id then relays[0]
    else
      var r := GetRelayById(relays[1..], id);
      assert forall i | 1 <= i < |relays| :: relays[1..][i - 1] == relays[i];
      r
  }

  // ---------------------------------------------------------------------
  // Stable sort by id (`sort.SliceStable` with `Id <`)

  predicate SortedById(s: seq<RelayDevice>) {
    forall i, j | 0 <= i < j < |s| :: s[i].id <= s[j].id
  }

  /** The relays with this id, in list order. */
  function WithId(s: seq<RelayDevice>, id: int): seq<RelayDevice>
    decreases |s|
  {
    if |s| == 0 then [] else (if s[0].id == id then [s[0]] else []) + WithId(s[1..], id)
  }

  /** Insert `x` in front of the first element whose id is not smaller. */
  function InsertById(x: RelayDevice, s: seq<RelayDevice>): seq<RelayDevice>
    decreases |s|
  {
    if |s| == 0 || x.id <= s[0].id then [x] + s else [s[0]] + InsertById(x, s[1..])
  }

  /** Insertion keeps a lower bound that both `x` and the list respect. */
  lemma {:induction false} InsertBound(x: RelayDevice, s: seq<RelayDevice>, lo: int)
    requires lo <= x.id
    requires forall k | 0 <= k < |s| :: lo <= s[k].id
    ensures forall k | 0 <= k < |InsertById(x, s)| :: lo <= InsertById(x, s)[k].id
    decreases |s|
  {
    if |s| > 0 && x.id > s[0].id {
      InsertBound(x, s[1..], lo);
    }
  }

  /** Insertion keeps a sorted list sorted. */
  lemma {:induction false} InsertSorted(x: RelayDevice, s: seq<RelayDevice>)
    requires SortedById(s)
    ensures SortedById(InsertById(x, s))
    decreases |s|
  {
    if |s| > 0 && x.id > s[0].id {
      InsertSorted(x, s[1..]);
      InsertBound(x, s[1..], s[0].id);
    }
  }

  /** Insertion adds exactly `x`. */
  lemma {:induction false} InsertPermutes(x: RelayDevice, s: seq<RelayDevice>)
    ensures multiset(InsertById(x, s)) == multiset(s) + multiset{x}
    decreases |s|
  {
    if |s| > 0 && x.id > s[0].id {
      InsertPermutes(x, s[1..]);
      assert s == [s[0]] + s[1..];
    }
  }

  /** Filtering a list with a head: the head if it carries the id, then the filtered tail. */
  lemma WithIdCons(a: RelayDevice, s: seq<RelayDevice>, id: int)
    ensures WithId([a] + s, id) == (if a.id == id then [a] else []) + WithId(s, id)
  {
    assert ([a] + s)[1..] == s;
  }

  /**
   Inserting `x` puts it in front of the relays that already carry its id,
   and leaves the relays of every other id as they were.
   */
  lemma {:induction false} InsertWithId(x: RelayDevice, s: seq<RelayDevice>, id: int)
    ensures WithId(InsertById(x, s), id) == (if x.id == id then [x] else []) + WithId(s, id)
    decreases |s|
  {
    if |s| == 0 || x.id <= s[0].id {
      WithIdCons(x, s, id);
    } else {
      var rest := InsertById(x, s[1..]);
      InsertWithId(x, s[1..], id);
      WithIdCons(s[0], rest, id);
      if x.id == id {
        assert s[0].id != id;
        assert WithId(s, id) == WithId(s[1..], id);
      } else {
        assert WithId(InsertById(x, s), id) == (if s[0].id == id then [s[0]] else []) + WithId(s[1..], id);
      }
    }
  }

  /** Inserting the head into the sorted tail gives a sorted permutation of the whole list. */
  lemma InsertHead(relays: seq<RelayDevice>, rest: seq<RelayDevice>)
    requires |relays| > 0
    requires SortedById(rest) && multiset(rest) == multiset(relays[1..])
    ensures SortedById(InsertById(relays[0], rest))
    ensures multiset(InsertById(relays[0], rest)) == multiset(relays)
  {
    InsertSorted(relays[0], rest);
    InsertPermutes(relays[0], rest);
    assert relays == [relays[0]] + relays[1..];
  }

  /**
   The relays sorted by ascending id: ids never decrease and the relays are
   a permutation of the input.
   */
  function SortById(relays: seq<RelayDevice>): (r: seq<RelayDevice>)
    ensures SortedById(r)
    ensures multiset(r) == multiset(relays)
    decreases |relays|
  {
    if |relays| == 0 then []
    else
      var rest := SortById(relays[1..]);
      InsertHead(relays, rest);
      InsertById(relays[0], rest)
  }

  /** The sort is stable: the relays sharing an id keep their input order. */
  lemma {:induction false} SortStable(relays: seq<RelayDevice>, id: int)
    ensures WithId(SortById(relays), id) == WithId(relays, id)
    decreases |relays|
  {
    if |relays| > 0 {
      SortStable(relays[1..], id);
      InsertWithId(relays[0], SortById(relays[1..]), id);
    }
  }

  /** The lookup returns the first relay carrying the id, when there is one. */
  lemma {:induction false} LookupIsFirstWithId(relays: seq<RelayDevice>, id: int)
    ensures GetRelayById(relays, id)
         == (if |WithId(relays, id)| > 0 then WithId(relays, id)[0] else NoRelay)
    decreases |relays|
  {
    if |relays| > 0 && relays[0].id != id {
      LookupIsFirstWithId(relays[1..], id);
    }
  }

  /**
   The start-up sort reorders the relay list in place, and the lookup reads
   that list afterwards; because the sort is stable, every lookup still
   finds the relay it would have found in the configured order.
   */
  lemma SortKeepsLookup(relays: seq<RelayDevice>, id: int)
    ensures GetRelayById(SortById(relays), id) == GetRelayById(relays, id)
  {
    LookupIsFirstWithId(SortById(relays), id);
    LookupIsFirstWithId(relays, id);
    SortStable(relays, id);
  }

  // ---------------------------------------------------------------------
  // Accessories

  datatype AccessoryKind = Lightbulb | SwitchAccessory | FanAccessory

  /** What a remote on/off update does: nothing, the same relay action, or the opposite one. */
  datatype Handler = NoHandler | Direct | Inverted

  /** An accessory as registered: its serial number is the relay's pin as decimal text. */
  datatype Accessory = Accessory(kind: AccessoryKind, name: string, serial: string, on: bool, handler: Handler)

  predicate IsSupported(relay: RelayDevice) {
    relay.kind == LampKind || relay.kind == SwitchKind || relay.kind == CoolerKind
  }

  /** Whether a remote "on" is wired to the relay's physical off. */
  predicate Inverts(relay: RelayDevice) {
    relay.kind == CoolerKind && relay.invert > 0
  }

  /** The accessory built for one relay, or none for an unknown kind. */
  function Register(hw: Hw, relay: RelayDevice): (a: Option<Accessory>)
    ensures a.Some? <==> IsSupported(relay)
    ensures a.Some? ==> a.value.kind == (if relay.kind == LampKind then Lightbulb
                                         else if relay.kind == SwitchKind then SwitchAccessory
                                         else FanAccessory)
    ensures a.Some? ==> a.value.name == relay.name && Atoi(a.value.serial) == Some(relay.pin)
    ensures a.Some? ==> (a.value.handler == NoHandler <==> relay.kind == SwitchKind)
    ensures a.Some? ==> (a.value.handler == Inverted <==> Inverts(relay))
  {
    var serial := Format(relay.pin);
    if relay.kind == LampKind then
      Some(Accessory(Lightbulb, relay.name, serial, SwitchState(hw, serial), Direct))
    else if relay.kind == SwitchKind then
      Some(Accessory(SwitchAccessory, relay.name, serial, false, NoHandler))
    else if relay.kind == CoolerKind then
      Some(Accessory(FanAccessory, relay.name, serial,
                     relay.invert == 1 && !SwitchState(hw, serial),
                     if relay.invert > 0 then Inverted else Direct))
    else None
  }

  /** The relays of a supported kind, in list order. */
  function Supported(relays: seq<RelayDevice>): seq<RelayDevice>
    decreases |relays|
  {
    if |relays| == 0 then []
    else (if IsSupported(relays[0]) then [relays[0]] else []) + Supported(relays[1..])
  }

  /** One accessory per supported relay, in list order; unknown kinds are skipped. */
  function RegisterAll(hw: Hw, relays: seq<RelayDevice>): (accs: seq<Accessory>)
    ensures |accs| == |Supported(relays)|
    ensures forall i | 0 <= i < |accs| :: Register(hw, Supported(relays)[i]) == Some(accs[i])
    decreases |relays|
  {
    if |relays| == 0 then []
    else
      var rest := RegisterAll(hw, relays[1..]);
      match Register(hw, relays[0])
      case Some(a) =>
        assert Supported(relays) == [relays[0]] + Supported(relays[1..]);
        [a] + rest
      case None =>
        assert Supported(relays) == Supported(relays[1..]);
        rest
  }

  /** The relay part of start-up: sort by id, then register each relay in that order. */
  function LoadRelays(hw: Hw, relays: seq<RelayDevice>): (accs: seq<Accessory>)
    ensures |accs| == |Supported(SortById(relays))| == |Supported(relays)|
    ensures forall i | 0 <= i < |accs| :: Register(hw, Supported(SortById(relays))[i]) == Some(accs[i])
  {
    SupportedSort(relays);
    RegisterAll(hw, SortById(relays))
  }

  /** Inserting a relay adds one supported relay exactly when it is supported itself. */
  lemma {:induction false} SupportedInsert(x: RelayDevice, s: seq<RelayDevice>)
    ensures |Supported(InsertById(x, s))| == |Supported(s)| + (if IsSupported(x) then 1 else 0)
    decreases |s|
  {
    if |s| == 0 || x.id <= s[0].id {
      assert ([x] + s)[1..] == s;
    } else {
      var rest := InsertById(x, s[1..]);
      assert ([s[0]] + rest)[1..] == rest;
      SupportedInsert(x, s[1..]);
    }
  }

  /** Sorting keeps the number of supported relays. */
  lemma {:induction false} SupportedSort(relays: seq<RelayDevice>)
    ensures |Supported(SortById(relays))| == |Supported(relays)|
    decreases |relays|
  {
    if |relays| > 0 {
      SupportedSort(relays[1..]);
      SupportedInsert(relays[0], SortById(relays[1..]));
      assert relays == [relays[0]] + relays[1..];
    }
  }

  /**
   Start-up registers exactly one accessory per relay of kind 0, 1 or 2, and
   the i-th accessory is the one built for the i-th such relay in stable
   ascending-id order.
   */
  lemma LoadRelaysShape(hw: Hw, relays: seq<RelayDevice>)
    ensures |LoadRelays(hw, relays)| == |Supported(relays)|
    ensures forall i | 0 <= i < |LoadRelays(hw, relays)| ::
              Register(hw, Supported(SortById(relays))[i]) == Some(LoadRelays(hw, relays)[i])
  {
    SupportedSort(relays);
  }

  // ---------------------------------------------------------------------
  // Remote commands

  /** The hardware effect of a remote on/off update delivered to an accessory. */
  function HandleCommand(hw: Hw, acc: Accessory, on: bool): (r: Hw)
    ensures acc.handler == NoHandler ==> r == hw
  {
    match acc.handler
    case NoHandler => hw
    case Direct => if on then OnSwitch(hw, acc.serial) else OffSwitch(hw, acc.serial)
    case Inverted => if on then OffSwitch(hw, acc.serial) else OnSwitch(hw, acc.serial)
  }

  /**
   A remote update to a lamp or cooler drives the relay's own pin: LOW for
   "on" and HIGH for "off", swapped for an inverted cooler; no other pin
   changes.
   */
  lemma CommandDrivesPin(hw0: Hw, hw: Hw, relay: RelayDevice, on: bool)
    requires relay.kind == LampKind || relay.kind == CoolerKind
    ensures var level := if on != Inverts(relay) then LOW else HIGH;
            var r := HandleCommand(hw, Register(hw0, relay).value, on);
            && r.trace == hw.trace + [SetOutput(relay.pin), Write(relay.pin, level)]
            && Read(r, relay.pin) == level
            && (forall q | q != relay.pin :: Read(r, q) == Read(hw, q))
  {
  }

  /** A switch accessory has no handler, so remote updates never touch the hardware. */
  lemma SwitchIgnoresCommands(hw0: Hw, hw: Hw, relay: RelayDevice, on: bool)
    requires relay.kind == SwitchKind
    ensures HandleCommand(hw, Register(hw0, relay).value, on) == hw
  {
  }

  /**
   The initial on-state shown for each kind: a lamp shows its relay's state,
   a switch shows off, and a cooler shows on only when inverted with
   `invert == 1` and its pin does not read active.
   */
  lemma InitialState(hw: Hw, relay: RelayDevice)
    requires IsSupported(relay)
    ensures relay.kind == LampKind ==> (Register(hw, relay).value.on <==> Read(hw, relay.pin) == LOW)
    ensures relay.kind == SwitchKind ==> !Register(hw, relay).value.on
    ensures relay.kind == CoolerKind ==>
              (Register(hw, relay).value.on <==> relay.invert == 1 && Read(hw, relay.pin) != LOW)
  {
  }

  /**
   A lamp on pin 5 and an inverted cooler on pin 6: two accessories; "on"
   for the lamp writes LOW to pin 5 and "on" for the cooler writes HIGH to
   pin 6.
   */
  lemma LampAndInvertedCooler(hw: Hw)
    ensures var relays := [RelayDevice(1, LampKind, "Lamp", 5, 0), RelayDevice(2, CoolerKind, "Fan", 6, 1)];
            var accs := LoadRelays(hw, relays);
            && |accs| == 2
            && HandleCommand(hw, accs[0], true).trace == hw.trace + [SetOutput(5), Write(5, LOW)]
            && HandleCommand(hw, accs[1], true).trace == hw.trace + [SetOutput(6), Write(6, HIGH)]
  {
    var lamp := RelayDevice(1, LampKind, "Lamp", 5, 0);
    var fan := RelayDevice(2, CoolerKind, "Fan", 6, 1);
    var relays := [lamp, fan];
    assert SortById(relays) == [lamp, fan] by {
      assert relays[1..] == [fan];
      assert SortById([fan]) == [fan];
    }
    assert Supported([fan]) == [fan] by {
      assert [fan][1..] == [];
    }
    assert Supported([lamp, fan]) == [lamp] + Supported([fan]) by {
      assert [lamp, fan][1..] == [fan];
    }
    LoadRelaysShape(hw, relays);
    CommandDrivesPin(hw, hw, lamp, true);
    CommandDrivesPin(hw, hw, fan, true);
  }
}

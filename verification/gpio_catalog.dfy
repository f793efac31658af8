/**
 The static description of the Raspberry Pi's 40-pin header used by the GPIO
 page: one entry per physical pin (power, ground or a GPIO line with its BCM
 number), the BCM-keyed map built from it, and the three pin modes.
 */
module GpioCatalog {
  import opened Wrappers

  datatype PinKind = Power | Ground | Gpio

  datatype PinInfo = PinInfo(physical: int, name: string, kind: PinKind, bcm: Option<int>, supportsPwm: bool)

  /** The entry of physical pin `n` (1..40), one field from each column of
      the header table. */
  function Entry(n: int): PinInfo
    requires 1 <= n <= 40
  {
    PinInfo(n, PinName(n), PinKindOf(n), PinBcm(n), n in PwmPhysical)
  }

  /** The label of each physical pin. */
  function PinName(n: int): string
    requires 1 <= n <= 40
  {
    match n
    case 1 => "3.3v"
    case 2 => "5v"
    case 3 => "SDA"
    case 4 => "5v"
    case 5 => "SCL"
    case 6 => "GND"
    case 7 => "GPIO4"
    case 8 => "TXD"
    case 9 => "GND"
    case 10 => "RXD"
    case 11 => "GPIO17"
    case 12 => "GPIO18"
    case 13 => "GPIO27"
    case 14 => "GND"
    case 15 => "GPIO22"
    case 16 => "GPIO23"
    case 17 => "3.3v"
    case 18 => "GPIO24"
    case 19 => "MOSI"
    case 20 => "GND"
    case 21 => "MISO"
    case 22 => "GPIO25"
    case 23 => "SCLK"
    case 24 => "CE0"
    case 25 => "GND"
    case 26 => "CE1"
    case 27 => "ID_SD"
    case 28 => "ID_SC"
    case 29 => "GPIO5"
    case 30 => "GND"
    case 31 => "GPIO6"
    case 32 => "GPIO12"
    case 33 => "GPIO13"
    case 34 => "GND"
    case 35 => "GPIO19"
    case 36 => "GPIO16"
    case 37 => "GPIO26"
    case 38 => "GPIO20"
    case 39 => "GND"
    case _ => "GPIO21"
  }

  /** What each physical pin is: a supply pin, a ground pin or a GPIO line. */
  function PinKindOf(n: int): PinKind
    requires 1 <= n <= 40
  {
    if n in {1, 2, 4, 17} then Power
    else if n in {6, 9, 14, 20, 25, 30, 34, 39} then Ground
    else PinKind.Gpio
  }

  /** The BCM number of each physical pin; supply and ground pins have none. */
  function PinBcm(n: int): Option<int>
    requires 1 <= n <= 40
  {
    match n
    case 3 => Some(2)
    case 5 => Some(3)
    case 7 => Some(4)
    case 8 => Some(14)
    case 10 => Some(15)
    case 11 => Some(17)
    case 12 => Some(18)
    case 13 => Some(27)
    case 15 => Some(22)
    case 16 => Some(23)
    case 18 => Some(24)
    case 19 => Some(10)
    case 21 => Some(9)
    case 22 => Some(25)
    case 23 => Some(11)
    case 24 => Some(8)
    case 26 => Some(7)
    case 27 => Some(0)
    case 28 => Some(1)
    case 29 => Some(5)
    case 31 => Some(6)
    case 32 => Some(12)
    case 33 => Some(13)
    case 35 => Some(19)
    case 36 => Some(16)
    case 37 => Some(26)
    case 38 => Some(20)
    case 40 => Some(21)
    case _ => None
  }

  /** The physical pins whose line supports hardware PWM. */
  const PwmPhysical: set<int> := {12, 32, 33, 35}

  /** `PIN_CONFIG`: the header, in physical-pin order. */
  function Catalog(): (pins: seq<PinInfo>)
    ensures |pins| == 40
  {
    seq(40, i requires 0 <= i < 40 => Entry(i + 1))
  }

  /** `{info.bcm: info for info in pins if info.bcm is not None}`: a later entry
      with the same BCM number replaces an earlier one. */
  function BuildMap(pins: seq<PinInfo>): map<int, PinInfo> {
    if |pins| == 0 then map[]
    else
      var m := BuildMap(pins[..|pins| - 1]);
      var last := pins[|pins| - 1];
      if last.bcm.Some? then m[last.bcm.value := last] else m
  }

  /** The BCM-keyed map of the header. */
  function BcmPinMap(): map<int, PinInfo> {
    BuildMap(Catalog())
  }

  /** For each BCM number 0..27, the index of its header entry. */
  function HeaderIndex(b: int): (i: int)
    requires 0 <= b < 28
    ensures 0 <= i < 40
  {
    match b
    case 0 => 26
    case 1 => 27
    case 2 => 2
    case 3 => 4
    case 4 => 6
    case 5 => 28
    case 6 => 30
    case 7 => 25
    case 8 => 23
    case 9 => 20
    case 10 => 18
    case 11 => 22
    case 12 => 31
    case 13 => 32
    case 14 => 7
    case 15 => 9
    case 16 => 35
    case 17 => 10
    case 18 => 11
    case 19 => 34
    case 20 => 37
    case 21 => 39
    case 22 => 14
    case 23 => 15
    case 24 => 17
    case 25 => 21
    case 26 => 36
    case _ => 12
  }

  /** The map holds a key exactly for each BCM number some entry carries, and
      each key maps to an entry carrying that number. */
  lemma {:induction false} BuildMapSpec(pins: seq<PinInfo>, b: int)
    ensures b in BuildMap(pins) <==> exists i :: 0 <= i < |pins| && pins[i].bcm == Some(b)
    ensures b in BuildMap(pins) ==> BuildMap(pins)[b].bcm == Some(b) && BuildMap(pins)[b] in pins
  {
    if |pins| > 0 {
      var init := pins[..|pins| - 1];
      BuildMapSpec(init, b);
      if exists i :: 0 <= i < |init| && init[i].bcm == Some(b) {
        var i :| 0 <= i < |init| && init[i].bcm == Some(b);
        assert pins[i] == init[i];
      }
      if exists i :: 0 <= i < |pins| && pins[i].bcm == Some(b) {
        var i :| 0 <= i < |pins| && pins[i].bcm == Some(b);
        if i < |pins| - 1 {
          assert init[i] == pins[i];
        }
      }
      if b in BuildMap(init) {
        assert BuildMap(init)[b] in init;
      }
    }
  }

  /** The header has 40 pins, numbered 1..40 in order. */
  lemma CatalogNumbering()
    ensures |Catalog()| == 40
    ensures forall i :: 0 <= i < |Catalog()| ==> Catalog()[i].physical == i + 1
  {
    forall i | 0 <= i < 40 ensures Catalog()[i].physical == i + 1 {
      EntryNumber(i + 1);
    }
  }

  /** Exactly the GPIO pins have a BCM number, and only GPIO pins can do PWM. */
  lemma CatalogKinds()
    ensures forall i :: 0 <= i < |Catalog()| ==>
              (Catalog()[i].kind == PinKind.Gpio <==> Catalog()[i].bcm.Some?)
    ensures forall i :: 0 <= i < |Catalog()| && Catalog()[i].supportsPwm ==> Catalog()[i].kind == PinKind.Gpio
  {
    forall i | 0 <= i < 40
      ensures (Catalog()[i].kind == PinKind.Gpio <==> Catalog()[i].bcm.Some?)
      ensures Catalog()[i].supportsPwm ==> Catalog()[i].kind == PinKind.Gpio
    {
      EntryKind(i + 1);
    }
  }

  /** BCM numbers are in 0..27, and `HeaderIndex` finds the entry of each. */
  lemma CatalogBcmIndex()
    ensures forall i :: 0 <= i < |Catalog()| && Catalog()[i].bcm.Some? ==>
              0 <= Catalog()[i].bcm.value < 28 && HeaderIndex(Catalog()[i].bcm.value) == i
  {
    forall i | 0 <= i < 40 && Catalog()[i].bcm.Some?
      ensures 0 <= Catalog()[i].bcm.value < 28 && HeaderIndex(Catalog()[i].bcm.value) == i
    {
      EntryBcm(i + 1);
    }
  }

  /** Each header entry carries its own physical number. */
  lemma EntryNumber(n: int)
    requires 1 <= n <= 40
    ensures Entry(n).physical == n
  {
  }

  /** A header entry has a BCM number exactly when it is a GPIO line, and
      only a GPIO line can do PWM. */
  lemma EntryKind(n: int)
    requires 1 <= n <= 40
    ensures Entry(n).kind == PinKind.Gpio <==> Entry(n).bcm.Some?
    ensures Entry(n).supportsPwm ==> Entry(n).kind == PinKind.Gpio
  {
  }

  /** A header entry's BCM number is in 0..27 and `HeaderIndex` leads back to it. */
  lemma EntryBcm(n: int)
    requires 1 <= n <= 40
    ensures Entry(n).bcm.Some? ==> 0 <= Entry(n).bcm.value < 28 && HeaderIndex(Entry(n).bcm.value) == n - 1
  {
  }

  /** No two header entries share a BCM number. */
  lemma BcmDistinct(i: int, j: int)
    requires 0 <= i < |Catalog()| && 0 <= j < |Catalog()|
    requires Catalog()[i].bcm.Some? && Catalog()[i].bcm == Catalog()[j].bcm
    ensures i == j
  {
    EntryBcm(i + 1);
    EntryBcm(j + 1);
  }

  /** The BCM map's keys are exactly the BCM numbers of the GPIO entries,
      which are 0..27, and the entry stored under `b` is the one carrying `b`. */
  lemma BcmPinMapKeys()
    ensures BcmPinMap().Keys == set i | 0 <= i < |Catalog()| && Catalog()[i].bcm.Some? :: Catalog()[i].bcm.value
    ensures forall b :: b in BcmPinMap() <==> 0 <= b < 28
    ensures forall b :: 0 <= b < 28 ==> BcmPinMap()[b] == Catalog()[HeaderIndex(b)]
  {
    forall b | 0 <= b < 28 ensures b in BcmPinMap() && BcmPinMap()[b] == Catalog()[HeaderIndex(b)] {
      BcmEntry(b);
    }
    forall b | b in BcmPinMap() ensures 0 <= b < 28 {
      BcmKeyInRange(b);
    }
    var gpioBcms := set i | 0 <= i < |Catalog()| && Catalog()[i].bcm.Some? :: Catalog()[i].bcm.value;
    forall b ensures b in gpioBcms <==> 0 <= b < 28 {
      GpioBcmInRange(b);
    }
    assert BcmPinMap().Keys == gpioBcms;
  }

  /** Each BCM number 0..27 is a key, stored with the entry `HeaderIndex` names. */
  lemma BcmEntry(b: int)
    requires 0 <= b < 28
    ensures b in BcmPinMap() && BcmPinMap()[b] == Catalog()[HeaderIndex(b)]
  {
    var i := HeaderIndex(b);
    IndexBcm(b);
    BuildMapSpec(Catalog(), b);
    var e := BcmPinMap()[b];
    var j :| 0 <= j < |Catalog()| && Catalog()[j] == e;
    BcmDistinct(i, j);
  }

  /** `HeaderIndex` names, for each BCM number 0..27, an entry carrying it. */
  lemma IndexBcm(b: int)
    requires 0 <= b < 28
    ensures Catalog()[HeaderIndex(b)].bcm == Some(b)
  {
    assert Catalog()[HeaderIndex(b)] == Entry(HeaderIndex(b) + 1);
  }

  /** Every key of the map is a BCM number 0..27. */
  lemma BcmKeyInRange(b: int)
    requires b in BcmPinMap()
    ensures 0 <= b < 28
  {
    BuildMapSpec(Catalog(), b);
    var e := BcmPinMap()[b];
    var i :| 0 <= i < |Catalog()| && Catalog()[i] == e;
    EntryBcm(i + 1);
  }

  /** The BCM numbers of the GPIO entries are exactly 0..27. */
  lemma GpioBcmInRange(b: int)
    ensures b in (set i | 0 <= i < |Catalog()| && Catalog()[i].bcm.Some? :: Catalog()[i].bcm.value) <==> 0 <= b < 28
  {
    var gpioBcms := set i | 0 <= i < |Catalog()| && Catalog()[i].bcm.Some? :: Catalog()[i].bcm.value;
    if 0 <= b < 28 {
      IndexBcm(b);
      var i := HeaderIndex(b);
      assert Catalog()[i].bcm.value in gpioBcms;
    }
    if b in gpioBcms {
      var i :| 0 <= i < |Catalog()| && Catalog()[i].bcm.Some? && Catalog()[i].bcm.value == b;
      EntryBcm(i + 1);
    }
  }

  /** Only BCM 12, 13, 18 and 19 support PWM. */
  lemma PwmPins()
    ensures forall b :: b in BcmPinMap() ==> (BcmPinMap()[b].supportsPwm <==> b in {12, 13, 18, 19})
  {
    forall b | b in BcmPinMap() ensures BcmPinMap()[b].supportsPwm <==> b in {12, 13, 18, 19} {
      BcmKeyInRange(b);
      BcmEntry(b);
      PwmAt(b);
    }
  }

  /** The entry `HeaderIndex` names for `b` supports PWM exactly for BCM 12, 13,
      18 and 19. */
  lemma PwmAt(b: int)
    requires 0 <= b < 28
    ensures Catalog()[HeaderIndex(b)].supportsPwm <==> b in {12, 13, 18, 19}
  {
    assert Catalog()[HeaderIndex(b)] == Entry(HeaderIndex(b) + 1);
  }

  /** The three modes of `PinMode`. */
  datatype PinMode = OUTPUT | INPUT | PWM

  /** `mode.name`, the text stored in the state file. */
  function ModeName(m: PinMode): string {
    match m
    case OUTPUT => "OUTPUT"
    case INPUT => "INPUT"
    case PWM => "PWM"
  }

  /** `PinMode[name]`; `None` stands for the `KeyError` of an unknown name. */
  function ModeFromName(name: string): (r: Option<PinMode>)
    ensures r.Some? ==> ModeName(r.value) == name
  {
    if name == "OUTPUT" then Some(OUTPUT)
    else if name == "INPUT" then Some(INPUT)
    else if name == "PWM" then Some(PWM)
    else None
  }

  /** A stored mode name reads back as the same mode. */
  lemma ModeNameRoundTrip(m: PinMode)
    ensures ModeFromName(ModeName(m)) == Some(m)
  {
  }
}

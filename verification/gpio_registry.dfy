/**
 The GPIO page's pin registry: which BCM pins hold an open device, which are
 pulsing, which are marked persistent, and what the state file last received.
 Each page method is a pure transition on `Page`.

 The hardware library is abstracted: a `Device` records its kind, whether an
 LED is lit, a PWM duty cycle in ten-thousandths (`round(value, 4)`), and
 whether `close()` would succeed. A `Factory` says whether creating a device
 succeeds and whether the new device can later be closed.
 */
module GpioRegistry {
  import opened Wrappers
  import opened PyText
  import opened GpioCatalog

  /** The gpiozero classes the page creates: `LED`, `PWMLED`, `Button`. */
  datatype DeviceKind = Led | PwmLed | Button

  datatype Device = Device(kind: DeviceKind, lit: bool, duty: int, releasable: bool)

  /** The JSON value stored under "state": "HIGH"/"LOW" or a number. */
  datatype Saved = Text(text: string) | Number(value: int)

  /** One entry of `persistent_pins`: the optional "mode" and "state" keys. */
  datatype Record = Record(mode: Option<string>, state: Option<Saved>)

  /** The page's registry. `pulses` maps a pin to its pulse interval in ms;
      `file` is the content of the state file as last written. */
  datatype Page = Page(
    gpio: bool,
    widgets: set<int>,
    active: map<int, Device>,
    pulses: map<int, int>,
    persistent: map<int, Record>,
    file: map<int, Record>)

  /** The outcome of the device constructor for one setup. */
  datatype Factory = Factory(creates: bool, releasable: bool)

  /** The `(bool, str)` pair the automation methods return. */
  datatype Reply = Reply(ok: bool, message: string)

  /** Two maps agree at key `x`: both lack it, or both hold the same value. */
  predicate SameAt<K, V(==)>(m1: map<K, V>, m2: map<K, V>, x: K) {
    (x in m1 <==> x in m2) && (x in m1 ==> m1[x] == m2[x])
  }

  /** The page right after construction: one display widget per BCM pin of the
      header, nothing configured, and the state file as found on disk. */
  function InitialPage(gpio: bool, file: map<int, Record>): (p: Page)
    ensures p.widgets == BcmPinMap().Keys
    ensures p.active == map[] && p.pulses == map[] && p.persistent == map[]
  {
    Page(gpio, BcmPinMap().Keys, map[], map[], map[], file)
  }

  /** The class the page creates for a mode. */
  function KindOf(mode: PinMode): DeviceKind {
    match mode
    case OUTPUT => Led
    case INPUT => Button
    case PWM => PwmLed
  }

  /** `type(device).__name__`. */
  function TypeName(k: DeviceKind): string {
    match k
    case Led => "LED"
    case PwmLed => "PWMLED"
    case Button => "Button"
  }

  /** A freshly created device: an LED starts off and a PWM LED at duty 0. */
  function NewDevice(mode: PinMode, releasable: bool): (d: Device)
    ensures d.kind == KindOf(mode) && !d.lit && d.duty == 0 && d.releasable == releasable
  {
    Device(KindOf(mode), false, 0, releasable)
  }

  /** `is_pin_persistent`. */
  predicate IsPersistent(p: Page, b: int) {
    b in p.persistent
  }

  /** `is_pin_pulsing`. */
  predicate IsPulsing(p: Page, b: int) {
    b in p.pulses
  }

  // ---------------------------------------------------------------------------
  // Saving
  // ---------------------------------------------------------------------------

  /** What `save_persistent_states` writes for one pin: a copy of its record
      with "state" set from an LED or PWM device; an input's record as is. */
  function SavedRecord(r: Record, d: Device): Record {
    match d.kind
    case PwmLed => r.(state := Some(Number(d.duty)))
    case Led => r.(state := Some(Text(if d.lit then "HIGH" else "LOW")))
    case Button => r
  }

  /** The dictionary `save_persistent_states` writes: one entry per pin that is
      both persistent and active. */
  function Snapshot(p: Page): (s: map<int, Record>)
    ensures s.Keys == p.persistent.Keys * p.active.Keys
  {
    map b | b in p.persistent.Keys * p.active.Keys :: SavedRecord(p.persistent[b], p.active[b])
  }

  /** `save_persistent_states`: nothing happens without the GPIO library. */
  function Save(p: Page): (r: Page)
    ensures r.file == (if p.gpio then Snapshot(p) else p.file)
    ensures r.(file := p.file) == p
  {
    if p.gpio then p.(file := Snapshot(p)) else p
  }

  /** The saved dictionary depends only on the persistent records and the
      devices of persistent pins. */
  lemma SnapshotLocal(p: Page, q: Page)
    requires p.persistent == q.persistent
    requires forall x :: x in p.persistent ==> SameAt(p.active, q.active, x)
    ensures Snapshot(p) == Snapshot(q)
  {
    assert p.persistent.Keys * p.active.Keys == q.persistent.Keys * q.active.Keys by {
      forall x | x in p.persistent ensures (x in p.active <==> x in q.active) {
        assert SameAt(p.active, q.active, x);
      }
    }
    forall x | x in Snapshot(p) ensures Snapshot(p)[x] == Snapshot(q)[x] {
      assert SameAt(p.active, q.active, x);
    }
  }

  /** An output pin is saved as "HIGH" exactly when it is lit, a PWM pin with
      its duty cycle, and an input pin's record is copied unchanged. */
  lemma SnapshotByKind(p: Page, b: int)
    requires b in p.persistent && b in p.active
    ensures p.active[b].kind == Led ==>
              Snapshot(p)[b].state == Some(Text(if p.active[b].lit then "HIGH" else "LOW"))
    ensures p.active[b].kind == PwmLed ==> Snapshot(p)[b].state == Some(Number(p.active[b].duty))
    ensures p.active[b].kind == Button ==> Snapshot(p)[b] == p.persistent[b]
    ensures Snapshot(p)[b].mode == p.persistent[b].mode
  {
  }

  // ---------------------------------------------------------------------------
  // Pulses
  // ---------------------------------------------------------------------------

  /** The device after its pulse is stopped: an LED is switched off. */
  function AfterPulse(d: Device): Device {
    if d.kind == Led then d.(lit := false) else d
  }

  /** `stop_pulse`: the entry is removed (even if the thread outlives its join)
      and an active LED on the pin is switched off; a pin that is not pulsing is
      left alone. */
  function StopPulse(p: Page, b: int): (r: Page)
    ensures b !in r.pulses
    ensures r.pulses == p.pulses - {b}
    ensures r.active.Keys == p.active.Keys
    ensures forall x :: x != b ==> SameAt(r.active, p.active, x)
    ensures b in p.active ==> r.active[b] == (if b in p.pulses then AfterPulse(p.active[b]) else p.active[b])
    ensures r.(active := p.active, pulses := p.pulses) == p
  {
    if b !in p.pulses then p
    else
      var active := if b in p.active then p.active[b := AfterPulse(p.active[b])] else p.active;
      p.(pulses := p.pulses - {b}, active := active)
  }

  /** `start_pulse`: stops any running pulse on the pin first, then registers
      the new one, so a pin never has two. */
  function StartPulse(p: Page, b: int, intervalMs: int): (r: Page)
    ensures IsPulsing(r, b) && r.pulses[b] == intervalMs
    ensures r.pulses == p.pulses[b := intervalMs]
    ensures r.active.Keys == p.active.Keys
    ensures forall x :: x != b ==> SameAt(r.active, p.active, x)
    ensures b in p.active ==> r.active[b] == (if b in p.pulses then AfterPulse(p.active[b]) else p.active[b])
    ensures r.(active := p.active, pulses := p.pulses) == p
  {
    var q := StopPulse(p, b);
    q.(pulses := q.pulses[b := intervalMs])
  }

  /** Stopping twice is stopping once, and stopping a pin that is not pulsing
      changes nothing. */
  lemma StopPulseIdempotent(p: Page, b: int)
    ensures StopPulse(StopPulse(p, b), b) == StopPulse(p, b)
    ensures !IsPulsing(p, b) ==> StopPulse(p, b) == p
  {
  }

  /** A started pulse is stopped by `stop_pulse`, which leaves the other pulses
      as they were. */
  lemma StartThenStop(p: Page, b: int, intervalMs: int)
    ensures !IsPulsing(StopPulse(StartPulse(p, b, intervalMs), b), b)
    ensures StopPulse(StartPulse(p, b, intervalMs), b).pulses == p.pulses - {b}
  {
  }

  // ---------------------------------------------------------------------------
  // Cleanup and persistence
  // ---------------------------------------------------------------------------

  /** `cleanup_pin`: stop the pulse, close and drop the device (it stays
      registered when `close()` raises), always drop the persistence record,
      then save. */
  function CleanupPin(p: Page, b: int): (r: Page)
    ensures !IsPulsing(r, b) && !IsPersistent(r, b)
    ensures r.pulses == p.pulses - {b} && r.persistent == p.persistent - {b}
    ensures b in r.active <==> b in p.active && !p.active[b].releasable
    ensures b in r.active ==> r.active[b] == (if b in p.pulses then AfterPulse(p.active[b]) else p.active[b])
    ensures forall x :: x != b ==> SameAt(r.active, p.active, x)
    ensures r.gpio == p.gpio && r.widgets == p.widgets
    ensures r.file == (if p.gpio then Snapshot(r) else p.file)
  {
    var q := StopPulse(p, b);
    var q2 := if b in q.active && q.active[b].releasable then q.(active := q.active - {b}) else q;
    Save(q2.(persistent := q2.persistent - {b}))
  }

  /** A second `cleanup_pin` changes nothing. */
  lemma CleanupIdempotent(p: Page, b: int)
    ensures CleanupPin(CleanupPin(p, b), b) == CleanupPin(p, b)
  {
    var r := CleanupPin(p, b);
    var r2 := CleanupPin(r, b);
    assert r2.active == r.active by {
      assert r2.active.Keys == r.active.Keys;
    }
  }

  /** `set_pin_persistence`: on stores a fresh record, discarding any saved mode
      and state; off removes it; either way the page saves. */
  function SetPersistence(p: Page, b: int, on: bool): (r: Page)
    ensures IsPersistent(r, b) == on
    ensures on ==> r.persistent[b] == Record(None, None)
    ensures forall x :: x != b ==> SameAt(r.persistent, p.persistent, x)
    ensures r.active == p.active && r.pulses == p.pulses && r.gpio == p.gpio && r.widgets == p.widgets
    ensures r.file == (if p.gpio then Snapshot(r) else p.file)
  {
    var q := if on then p.(persistent := p.persistent[b := Record(None, None)])
             else p.(persistent := p.persistent - {b});
    Save(q)
  }

  // ---------------------------------------------------------------------------
  // Setup
  // ---------------------------------------------------------------------------

  /** Setup reaches the end of its `try`: the library is there, the
      constructor succeeds and the pin has a display widget. */
  predicate SetupSucceeds(p: Page, b: int, f: Factory) {
    p.gpio && f.creates && b in p.widgets
  }

  /** The start of `setup_pin`: a pin without a device is cleaned up (which
      also drops its persistence record); a pin that has one is left as is. */
  function PrepareSetup(p: Page, b: int): (q: Page)
    ensures q.gpio == p.gpio && q.widgets == p.widgets
    ensures b in p.active ==> q == p
    ensures b !in p.active ==> q == CleanupPin(p, b)
  {
    if b in p.active then p else CleanupPin(p, b)
  }

  /** The body of the `try` once the device exists: register it, record the
      mode of a persistent pin and save unless restoring. */
  function Register(q: Page, b: int, mode: PinMode, fromLoad: bool, f: Factory): (r: Page)
    ensures b in r.active && r.active[b] == NewDevice(mode, f.releasable)
    ensures r.pulses == q.pulses && r.gpio == q.gpio && r.widgets == q.widgets
    ensures forall x :: x != b ==> SameAt(r.active, q.active, x)
    ensures r.persistent.Keys == q.persistent.Keys
    ensures forall x :: x != b ==> SameAt(r.persistent, q.persistent, x)
    ensures b in q.persistent ==> r.persistent[b] == q.persistent[b].(mode := Some(ModeName(mode)))
    ensures r.file == q.file || r.file == Snapshot(r)
  {
    var q1 := q.(active := q.active[b := NewDevice(mode, f.releasable)]);
    var q2 := if IsPersistent(q1, b)
              then q1.(persistent := q1.persistent[b := q1.persistent[b].(mode := Some(ModeName(mode)))])
              else q1;
    if IsPersistent(q1, b) && !fromLoad then Save(q2) else q2
  }

  /** The rest of `setup_pin` after the preliminary cleanup. An LED or PWM LED
      is created and then its widget is looked up; a button is registered first
      and its widget looked up afterwards. Any failure ends in `cleanup_pin`. */
  function FinishSetup(q: Page, b: int, mode: PinMode, fromLoad: bool, f: Factory): (r: Page)
    ensures r.gpio == q.gpio && r.widgets == q.widgets
  {
    if !q.gpio then q
    else if !f.creates then CleanupPin(q, b)
    else if mode != INPUT && b !in q.widgets then CleanupPin(q, b)
    else
      var q3 := Register(q, b, mode, fromLoad, f);
      if b !in q3.widgets then CleanupPin(q3, b) else q3
  }

  /** `setup_pin(bcm, mode, from_load)`. A pin that already has a device is set
      up again without closing the old handle. */
  function SetupPin(p: Page, b: int, mode: PinMode, fromLoad: bool, f: Factory): (r: Page)
    ensures r.gpio == p.gpio && r.widgets == p.widgets
  {
    FinishSetup(PrepareSetup(p, b), b, mode, fromLoad, f)
  }

  /** Cleanup touches no other pin. */
  lemma CleanupFrame(p: Page, b: int, x: int)
    requires x != b
    ensures var r := CleanupPin(p, b);
      SameAt(r.active, p.active, x) && SameAt(r.pulses, p.pulses, x) && SameAt(r.persistent, p.persistent, x)
  {
  }

  lemma FinishFrame(q: Page, b: int, mode: PinMode, fromLoad: bool, f: Factory, x: int)
    requires x != b
    ensures var r := FinishSetup(q, b, mode, fromLoad, f);
      SameAt(r.active, q.active, x) && SameAt(r.pulses, q.pulses, x) && SameAt(r.persistent, q.persistent, x)
  {
    if q.gpio && (!f.creates || (mode != INPUT && b !in q.widgets)) {
      CleanupFrame(q, b, x);
    } else if q.gpio {
      var q3 := Register(q, b, mode, fromLoad, f);
      if b !in q3.widgets {
        CleanupFrame(q3, b, x);
      }
    }
  }

  /** Setup touches no other pin. */
  lemma SetupFrame(p: Page, b: int, mode: PinMode, fromLoad: bool, f: Factory, x: int)
    requires x != b
    ensures var r := SetupPin(p, b, mode, fromLoad, f);
      SameAt(r.active, p.active, x) && SameAt(r.pulses, p.pulses, x) && SameAt(r.persistent, p.persistent, x)
  {
    if b !in p.active {
      CleanupFrame(p, b, x);
    }
    FinishFrame(PrepareSetup(p, b), b, mode, fromLoad, f, x);
  }

  /** A successful setup leaves a fresh device of the requested kind; the pin
      keeps its pulse and persistence only if it already had a device, and a
      persistent pin has the mode name recorded. */
  lemma SetupSuccess(p: Page, b: int, mode: PinMode, fromLoad: bool, f: Factory)
    requires SetupSucceeds(p, b, f)
    ensures var r := SetupPin(p, b, mode, fromLoad, f);
      && b in r.active && r.active[b] == NewDevice(mode, f.releasable)
      && (IsPulsing(r, b) <==> b in p.active && IsPulsing(p, b))
      && (IsPersistent(r, b) <==> b in p.active && IsPersistent(p, b))
      && (IsPersistent(r, b) ==> r.persistent[b] == p.persistent[b].(mode := Some(ModeName(mode))))
  {
  }

  /** A failed setup (no device created, or no widget for the pin) ends with the
      pin cleaned up: no pulse, no persistence, and no device as long as the
      handles involved can be closed. */
  lemma SetupFailure(p: Page, b: int, mode: PinMode, fromLoad: bool, f: Factory)
    requires p.gpio && !SetupSucceeds(p, b, f)
    ensures var r := SetupPin(p, b, mode, fromLoad, f);
      && !IsPulsing(r, b) && !IsPersistent(r, b)
      && ((b in p.active ==> p.active[b].releasable) && (mode == INPUT && f.creates ==> f.releasable)
          ==> b !in r.active)
  {
  }

  /** Without the library, setup only performs the initial cleanup of an idle
      pin, and the state file is untouched. */
  lemma SetupWithoutLibrary(p: Page, b: int, mode: PinMode, fromLoad: bool, f: Factory)
    requires !p.gpio
    ensures SetupPin(p, b, mode, fromLoad, f) == PrepareSetup(p, b)
    ensures SetupPin(p, b, mode, fromLoad, f).file == p.file
  {
  }

  /** Setting up a pin that has no device loses any persistence mark it had:
      the preliminary `cleanup_pin` drops the record. */
  lemma SetupDropsPersistence(p: Page, b: int, mode: PinMode, fromLoad: bool, f: Factory)
    requires b !in p.active
    ensures !IsPersistent(SetupPin(p, b, mode, fromLoad, f), b)
  {
  }

  // ---------------------------------------------------------------------------
  // Automation request
  // ---------------------------------------------------------------------------

  /** The result of `handle_ai_gpio_request`: the reply and the page after it. */
  datatype Handled = Handled(reply: Reply, page: Page)

  /** Drives the LED on `b` and saves the state: only that device's level
      changes, and the state file then holds the page's snapshot. */
  function SetLed(p: Page, b: int, lit: bool): (r: Page)
    requires p.gpio && b in p.active
    ensures r.active == p.active[b := p.active[b].(lit := lit)]
    ensures r.file == Snapshot(r)
    ensures r.pulses == p.pulses && r.persistent == p.persistent && r.gpio == p.gpio
  {
    Save(p.(active := p.active[b := p.active[b].(lit := lit)]))
  }

  /** The reply when the device call raises `error`. */
  function DeviceFailed(b: int, error: string): Reply {
    Reply(false, "Failed to set state for BCM Pin " + IntToString(b) + ": " + error)
  }

  /** `handle_ai_gpio_request(bcm, state)`: drives an LED high or low. `fault`
      is what `device.on()` or `device.off()` raises, if anything. */
  function HandleAiGpioRequest(p: Page, b: int, state: string, fault: Option<string>): (h: Handled)
    ensures h.reply.ok <==>
              && p.gpio && b in p.active && p.active[b].kind == Led && (Lower(state) == "high" || Lower(state) == "low")
              && fault.None?
    ensures !h.reply.ok ==> h.page == p
    ensures h.reply.ok ==> h.page == SetLed(p, b, Lower(state) == "high")
    ensures p.gpio && b in p.active && p.active[b].kind == Led && (Lower(state) == "high" || Lower(state) == "low") && fault.Some? ==>
              h.reply == DeviceFailed(b, fault.value)
  {
    if !p.gpio then Handled(Reply(false, "GPIO libraries are not available."), p)
    else if b !in p.active then
      Handled(Reply(false, "Pin " + IntToString(b) + " is not currently configured. Please set it to OUTPUT mode first."), p)
    else if p.active[b].kind != Led then
      Handled(Reply(false, "Pin " + IntToString(b) + " is not configured as an OUTPUT. Current mode is "
                           + TypeName(p.active[b].kind) + "."), p)
    else DriveLed(p, b, state, fault)
  }

  /** The last part of `handle_ai_gpio_request`, reached with an LED on the
      pin: the state word decides the level, or the request is refused; a
      device that raises leaves the page as it was and the error in the reply. */
  function DriveLed(p: Page, b: int, state: string, fault: Option<string>): (h: Handled)
    requires p.gpio && b in p.active
    ensures h.reply.ok <==> (Lower(state) == "high" || Lower(state) == "low") && fault.None?
    ensures !h.reply.ok ==> h.page == p
    ensures h.reply.ok ==> h.page == SetLed(p, b, Lower(state) == "high")
    ensures (Lower(state) == "high" || Lower(state) == "low") && fault.Some? ==> h.reply == DeviceFailed(b, fault.value)
    ensures Lower(state) != "high" && Lower(state) != "low" ==>
              h.reply == Reply(false, "Invalid state '" + state + "'. Use 'high' or 'low'.")
  {
    var n := IntToString(b);
    if Lower(state) != "high" && Lower(state) != "low" then
      Handled(Reply(false, "Invalid state '" + state + "'. Use 'high' or 'low'."), p)
    else if fault.Some? then
      Handled(DeviceFailed(b, fault.value), p)
    else if Lower(state) == "high" then
      Handled(Reply(true, "Successfully set BCM Pin " + n + " to HIGH."), SetLed(p, b, true))
    else
      Handled(Reply(true, "Successfully set BCM Pin " + n + " to LOW."), SetLed(p, b, false))
  }

  /** The state word is case-insensitive: any capitalisation of "high" or "low"
      is accepted on a configured LED. */
  lemma AiRequestCaseInsensitive(p: Page, b: int, s1: string, s2: string, fault: Option<string>)
    requires Lower(s1) == Lower(s2)
    ensures HandleAiGpioRequest(p, b, s1, fault).reply.ok == HandleAiGpioRequest(p, b, s2, fault).reply.ok
    ensures HandleAiGpioRequest(p, b, s1, fault).page == HandleAiGpioRequest(p, b, s2, fault).page
  {
  }

  // ---------------------------------------------------------------------------
  // Leaving the page
  // ---------------------------------------------------------------------------

  /** The first loop of `on_hide`: stop the pulse of every listed pin that is
      not persistent. */
  function StopTransientPulses(p: Page, order: seq<int>): (r: Page)
    ensures r.persistent == p.persistent && r.file == p.file && r.gpio == p.gpio && r.widgets == p.widgets
    ensures r.active.Keys == p.active.Keys
    ensures forall x :: x in r.pulses <==> x in p.pulses && (x in p.persistent || x !in order)
    ensures forall x :: x in r.pulses ==> r.pulses[x] == p.pulses[x]
    ensures forall x :: x in p.persistent || x !in order ==> SameAt(r.active, p.active, x)
    ensures forall x :: x in p.active && x !in p.persistent && x in order ==>
              r.active[x] == (if x in p.pulses then AfterPulse(p.active[x]) else p.active[x])
    decreases |order|
  {
    if |order| == 0 then p
    else
      var x := order[0];
      var q := if x in p.persistent then p else StopPulse(p, x);
      StopTransientPulses(q, order[1..])
  }

  /** The second loop of `on_hide`: clean up every listed pin that is not
      persistent. */
  function ReleaseTransientPins(p: Page, order: seq<int>): (r: Page)
    ensures r.persistent == p.persistent && r.gpio == p.gpio && r.widgets == p.widgets
    decreases |order|
  {
    if |order| == 0 then p
    else
      var x := order[0];
      var q := if x in p.persistent then p else CleanupPin(p, x);
      ReleaseTransientPins(q, order[1..])
  }

  /** What the second loop does to one pin: a persistent or unlisted pin is
      untouched; a listed transient pin loses its pulse and, if it can be
      closed, its device. */
  lemma {:induction false} ReleaseTransientAt(p: Page, order: seq<int>, x: int)
    ensures var r := ReleaseTransientPins(p, order);
      && (x in p.persistent || x !in order ==> SameAt(r.active, p.active, x) && SameAt(r.pulses, p.pulses, x))
      && (x !in p.persistent && x in order ==>
            x !in r.pulses && (x in r.active <==> x in p.active && !p.active[x].releasable))
      && (x !in p.persistent && x in order && x in r.active ==>
            r.active[x] == (if x in p.pulses then AfterPulse(p.active[x]) else p.active[x]))
    decreases |order|
  {
    if |order| > 0 {
      var y := order[0];
      var q := if y in p.persistent then p else CleanupPin(p, y);
      ReleaseTransientAt(q, order[1..], x);
      if x != y && y !in p.persistent {
        CleanupFrame(p, y, x);
      }
    }
  }

  /** The state file after the second loop: untouched, or the snapshot of the
      final state. */
  lemma {:induction false} ReleaseTransientFile(p: Page, order: seq<int>)
    ensures var r := ReleaseTransientPins(p, order);
      r.file == p.file || (p.gpio && r.file == Snapshot(r))
    decreases |order|
  {
    if |order| > 0 {
      var x := order[0];
      var q := if x in p.persistent then p else CleanupPin(p, x);
      var r := ReleaseTransientPins(q, order[1..]);
      ReleaseTransientFile(q, order[1..]);
      if x !in p.persistent && r.file == q.file {
        forall y | y in r.persistent ensures SameAt(r.active, q.active, y) {
          ReleaseTransientAt(q, order[1..], y);
        }
        SnapshotLocal(r, q);
      }
    }
  }

  /** `on_hide`: save, stop the pulses of non-persistent pins, then release the
      non-persistent pins. The orders are the key lists Python takes of the
      pulse and device dictionaries. */
  function OnHide(p: Page, pulseOrder: seq<int>, activeOrder: seq<int>): (r: Page)
    requires forall x :: x in pulseOrder <==> x in p.pulses
    requires forall x :: x in activeOrder <==> x in p.active
  {
    var q := StopTransientPulses(Save(p), pulseOrder);
    ReleaseTransientPins(q, activeOrder)
  }

  /** After `on_hide`, persistent pins keep their device and pulse; every other
      pin has no pulse and no device (unless closing it raised); the state file
      holds the same snapshot it would have held before. */
  lemma OnHideEffect(p: Page, pulseOrder: seq<int>, activeOrder: seq<int>)
    requires forall x :: x in pulseOrder <==> x in p.pulses
    requires forall x :: x in activeOrder <==> x in p.active
    ensures var r := OnHide(p, pulseOrder, activeOrder);
      && r.persistent == p.persistent
      && (forall x :: x in p.persistent ==> SameAt(r.active, p.active, x) && SameAt(r.pulses, p.pulses, x))
      && (forall x :: x !in p.persistent ==> x !in r.pulses)
      && (forall x :: x !in p.persistent ==> (x in r.active <==> x in p.active && !p.active[x].releasable))
      && (p.gpio ==> r.file == Snapshot(p) && r.file == Snapshot(r))
      && (!p.gpio ==> r.file == p.file)
  {
    var p0 := Save(p);
    var q := StopTransientPulses(p0, pulseOrder);
    var r := ReleaseTransientPins(q, activeOrder);
    forall x ensures
      && (x in p.persistent ==> SameAt(r.active, p.active, x) && SameAt(r.pulses, p.pulses, x))
      && (x !in p.persistent ==> x !in r.pulses)
      && (x !in p.persistent ==> (x in r.active <==> x in p.active && !p.active[x].releasable))
    {
      ReleaseTransientAt(q, activeOrder, x);
      if x in p.persistent {
        assert SameAt(q.active, p0.active, x);
      } else if x in p.active {
        assert x in activeOrder && x in q.active;
        assert q.active[x].releasable == p.active[x].releasable;
      } else {
        assert x !in q.active;
      }
    }
    ReleaseTransientFile(q, activeOrder);
    SnapshotLocal(r, p);
    if p.gpio {
      SnapshotLocal(q, p);
    }
  }

  // ---------------------------------------------------------------------------
  // Registry invariant
  // ---------------------------------------------------------------------------

  /** Without the library no device is ever open, and only pins with a device
      are pulsing. */
  predicate Valid(p: Page) {
    (!p.gpio ==> p.active == map[]) && p.pulses.Keys <= p.active.Keys
  }

  /** `stop_pulse`, `cleanup_pin` and `set_pin_persistence` keep the registry
      valid; so does `start_pulse` on a pin that has a device, which both of
      its callers check first. */
  lemma ValidPreservedPulseAndCleanup(p: Page, b: int, on: bool, ms: int)
    requires Valid(p)
    ensures Valid(StopPulse(p, b))
    ensures b in p.active ==> Valid(StartPulse(p, b, ms))
    ensures Valid(CleanupPin(p, b))
    ensures Valid(SetPersistence(p, b, on))
  {
  }

  /** `setup_pin` keeps the registry valid. */
  lemma ValidPreservedSetup(p: Page, b: int, mode: PinMode, fromLoad: bool, f: Factory)
    requires Valid(p)
    ensures Valid(SetupPin(p, b, mode, fromLoad, f))
  {
    var q := PrepareSetup(p, b);
    ValidPreservedPrepare(p, b);
    if q.gpio && f.creates && (mode == INPUT || b in q.widgets) {
      ValidPreservedRegister(q, b, mode, fromLoad, f);
    }
  }

  lemma ValidPreservedPrepare(p: Page, b: int)
    requires Valid(p)
    ensures Valid(PrepareSetup(p, b))
  {
  }

  lemma ValidPreservedRegister(q: Page, b: int, mode: PinMode, fromLoad: bool, f: Factory)
    requires Valid(q) && q.gpio
    ensures Valid(Register(q, b, mode, fromLoad, f))
  {
  }

  /** `handle_ai_gpio_request` keeps the registry valid. */
  lemma ValidPreservedAiRequest(p: Page, b: int, state: string, fault: Option<string>)
    requires Valid(p)
    ensures Valid(HandleAiGpioRequest(p, b, state, fault).page)
  {
  }
}

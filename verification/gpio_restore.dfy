/**
 Restoring persistent pins when the GPIO page is built (`_load_pin_states`).

 The source iterates over `persistent_pins` while `setup_pin` runs
 `cleanup_pin`, which pops the very entry being visited and rewrites the state
 file. Python then raises `RuntimeError` ("dictionary changed size during
 iteration") at the next step of the loop, outside the `except` that guards
 the file read, so the page constructor fails. `LoadPinStates` models this as
 written; `LoadPinStatesFixed` is the restore the code evidently intends:
 every saved pin is set up in its saved mode, keeps its persistence record and
 gets its saved state back.
 */
module GpioRestore {
  import opened Wrappers
  import opened GpioCatalog
  import opened GpioRegistry

  /** The decoded state file: its `(pin, record)` items in file order. */
  type Entries = seq<(int, Record)>

  /** A dictionary's items: no pin appears twice. */
  predicate DistinctKeys(es: Entries) {
    forall i, j :: 0 <= i < j < |es| ==> es[i].0 != es[j].0
  }

  /** The pins of the entries. */
  function Pins(es: Entries): set<int> {
    set i | 0 <= i < |es| :: es[i].0
  }

  /** `{pin: record for pin, record in items}`. */
  function ToMap(es: Entries): (m: map<int, Record>)
    ensures m.Keys == Pins(es)
  {
    if |es| == 0 then map[]
    else
      var m := ToMap(es[..|es| - 1]);
      assert Pins(es) == Pins(es[..|es| - 1]) + {es[|es| - 1].0} by {
        forall x | x in Pins(es) ensures x in Pins(es[..|es| - 1]) + {es[|es| - 1].0} {
          var i :| 0 <= i < |es| && es[i].0 == x;
          if i < |es| - 1 {
            assert es[..|es| - 1][i] == es[i];
          }
        }
      }
      m[es[|es| - 1].0 := es[|es| - 1].1]
  }

  /** With distinct pins, each entry's record is the one the map holds. */
  lemma {:induction false} ToMapAt(es: Entries, k: int)
    requires DistinctKeys(es) && 0 <= k < |es|
    ensures ToMap(es)[es[k].0] == es[k].1
  {
    if k < |es| - 1 {
      var init := es[..|es| - 1];
      assert init[k] == es[k];
      ToMapAt(init, k);
    }
  }

  /** The mode a record asks for: `PinMode[mode]` when "mode" is present and
      non-empty; `None` when it is skipped or the name is unknown. */
  function SavedMode(info: Record): (m: Option<PinMode>)
    ensures m.Some? <==> info.mode.Some? && info.mode.value in {"OUTPUT", "INPUT", "PWM"}
    ensures m.Some? ==> info.mode == Some(ModeName(m.value))
  {
    match info.mode
    case None => None
    case Some(name) => if name == "" then None else ModeFromName(name)
  }

  /** The saved state applied to the freshly set-up device: an LED is lit
      exactly when the state is "HIGH"; a PWM LED takes a numeric state in
      range (an out-of-range or non-numeric one raises inside the loop's
      `try` and leaves the device as it was). */
  function ApplySaved(d: Device, mode: PinMode, saved: Option<Saved>): (r: Device)
    ensures r.kind == d.kind && r.releasable == d.releasable
  {
    if mode == OUTPUT && d.kind == Led then d.(lit := saved == Some(Text("HIGH")))
    else if mode == PWM && d.kind == PwmLed then
      match saved
      case Some(Number(v)) => if 0 <= v <= 10000 then d.(duty := v) else d
      case _ => d
    else d
  }

  /** What happens when the page is built: it comes up, or the constructor
      raises and the page is dropped (leaving its effects on the state file). */
  datatype Restored = Completed(page: Page) | Raised(page: Page)

  // ---------------------------------------------------------------------------
  // As written
  // ---------------------------------------------------------------------------

  /** The loop body of `_load_pin_states` for one item. */
  function RestoreOne(p: Page, b: int, info: Record, f: Factory): Page {
    match SavedMode(info)
    case None => p
    case Some(mode) =>
      var q := SetupPin(p, b, mode, true, f);
      if b in q.active then q.(active := q.active[b := ApplySaved(q.active[b], mode, info.state)]) else q
  }

  /** The `for` loop over `persistent_pins.items()` from item `i` on. Python's
      dictionary iterator raises as soon as it is advanced after the
      dictionary changed size. */
  function LoadLoop(p: Page, es: Entries, i: nat, factory: int -> Factory): Restored
    requires i <= |es|
    decreases |es| - i
  {
    if i == |es| then Completed(p)
    else
      var q := RestoreOne(p, es[i].0, es[i].1, factory(es[i].0));
      if |q.persistent| != |p.persistent| then Raised(q)
      else LoadLoop(q, es, i + 1, factory)
  }

  /** `_load_pin_states`: `None` stands for a missing or undecodable file. */
  function LoadPinStates(p: Page, loaded: Option<Entries>, factory: int -> Factory): Restored {
    if !p.gpio then Completed(p)
    else
      match loaded
      case None => Completed(p)
      case Some(es) => LoadLoop(p.(persistent := ToMap(es)), es, 0, factory)
  }

  /** A loading setup of a pin with no record, on a page with no devices and an
      empty state file: the records stay as they are, the file stays empty and
      at most the pin itself gets a device. */
  lemma LoadingSetupOnBlank(q: Page, b: int, mode: PinMode, f: Factory)
    requires q.active == map[] && q.file == map[] && b !in q.persistent
    ensures var r := FinishSetup(q, b, mode, true, f);
      r.persistent == q.persistent && r.file == map[] && r.active.Keys <= {b}
  {
    var r := FinishSetup(q, b, mode, true, f);
    forall x | x != b ensures x !in r.active {
      FinishFrame(q, b, mode, true, f, x);
    }
    if q.gpio && f.creates && (mode == INPUT || b in q.widgets) {
      var q3 := Register(q, b, mode, true, f);
      assert q3.file == q.file;
      assert q3.persistent == q.persistent;
    }
  }

  /** The first item with a usable mode, on a page with no devices yet: its
      setup pops its record, so the dictionary shrinks, and the cleanup's save
      leaves an empty state file. */
  lemma FirstRestoreShrinks(p: Page, b: int, info: Record, f: Factory)
    requires p.gpio && p.active == map[] && b in p.persistent && SavedMode(info).Some?
    ensures var q := RestoreOne(p, b, info, f);
      |q.persistent| < |p.persistent| && q.file == map[]
  {
    var mode := SavedMode(info).value;
    SetupPopsRecord(p, b, mode, f);
    var r := SetupPin(p, b, mode, true, f);
    var q := RestoreOne(p, b, info, f);
    assert q.persistent == r.persistent && q.file == r.file;
    assert p.persistent.Keys == r.persistent.Keys + {b};
  }

  /** Loading setup of a pin with a record, on a page with no devices: the
      cleanup pops the record and saves an empty state file, and the rest of
      the setup leaves both alone. */
  lemma SetupPopsRecord(p: Page, b: int, mode: PinMode, f: Factory)
    requires p.gpio && p.active == map[] && b in p.persistent
    ensures var r := SetupPin(p, b, mode, true, f);
      r.persistent == p.persistent - {b} && r.file == map[]
  {
    var q0 := CleanupPin(p, b);
    assert q0.active.Keys == {} by {
      forall x | x in q0.active ensures false {
        if x != b {
          CleanupFrame(p, b, x);
        }
      }
    }
    assert q0.active == map[];
    assert q0.file == map[];
    LoadingSetupOnBlank(q0, b, mode, f);
  }

  /** From item `i` on: items without a usable mode pass through untouched, and
      the first one with a usable mode makes the loop raise, after its cleanup
      has written an empty state file. */
  lemma {:induction false} LoadLoopRaises(p: Page, es: Entries, i: nat, factory: int -> Factory)
    requires p.gpio && p.active == map[] && i <= |es|
    requires forall j :: i <= j < |es| ==> es[j].0 in p.persistent
    requires exists k :: i <= k < |es| && SavedMode(es[k].1).Some?
    ensures LoadLoop(p, es, i, factory).Raised?
    ensures LoadLoop(p, es, i, factory).page.file == map[]
    decreases |es| - i
  {
    if SavedMode(es[i].1).Some? {
      FirstRestoreShrinks(p, es[i].0, es[i].1, factory(es[i].0));
    } else {
      assert RestoreOne(p, es[i].0, es[i].1, factory(es[i].0)) == p;
      LoadLoopRaises(p, es, i + 1, factory);
    }
  }

  /** FINDING (as written): as soon as the state file holds one pin with a
      usable mode, building the page raises, and the state file has been
      overwritten with an empty dictionary: every saved pin is forgotten. */
  lemma LoadRaisesAndEmptiesFile(p: Page, es: Entries, factory: int -> Factory)
    requires p.gpio && p.active == map[]
    requires exists k :: 0 <= k < |es| && SavedMode(es[k].1).Some?
    ensures LoadPinStates(p, Some(es), factory).Raised?
    ensures LoadPinStates(p, Some(es), factory).page.file == map[]
  {
    var p0 := p.(persistent := ToMap(es));
    forall j | 0 <= j < |es| ensures es[j].0 in p0.persistent {
      assert es[j].0 in Pins(es);
    }
    LoadLoopRaises(p0, es, 0, factory);
  }

  /** The smallest case: one output pin saved as "HIGH". */
  lemma LoadOneSavedPin(file: map<int, Record>)
    ensures var es := [(17, Record(Some("OUTPUT"), Some(Text("HIGH"))))];
      var r := LoadPinStates(InitialPage(true, file), Some(es), _ => Factory(true, true));
      r.Raised? && r.page.file == map[]
  {
    var es := [(17, Record(Some("OUTPUT"), Some(Text("HIGH"))))];
    assert SavedMode(es[0].1).Some?;
    LoadRaisesAndEmptiesFile(InitialPage(true, file), es, _ => Factory(true, true));
  }

  // ---------------------------------------------------------------------------
  // Corrected
  // ---------------------------------------------------------------------------

  /** The intended loop body: set the pin up without the preliminary cleanup
      (which is what drops the record), then apply the saved state. */
  function RestoreOneFixed(p: Page, b: int, info: Record, f: Factory): Page {
    match SavedMode(info)
    case None => p
    case Some(mode) =>
      var q := FinishSetup(p, b, mode, true, f);
      if b in q.active then q.(active := q.active[b := ApplySaved(q.active[b], mode, info.state)]) else q
  }

  /** The intended loop, over a snapshot of the items. */
  function RestoreEntries(p: Page, es: Entries, factory: int -> Factory): Page
    decreases |es|
  {
    if |es| == 0 then p
    else RestoreEntries(RestoreOneFixed(p, es[0].0, es[0].1, factory(es[0].0)), es[1..], factory)
  }

  /** The intended `_load_pin_states`: it always completes. */
  function LoadPinStatesFixed(p: Page, loaded: Option<Entries>, factory: int -> Factory): Page {
    if !p.gpio then p
    else
      match loaded
      case None => p
      case Some(es) => RestoreEntries(p.(persistent := ToMap(es)), es, factory)
  }

  /** An item that can be restored on `p`: a usable mode, a device the factory
      creates, a widget for the pin, a persistence record, no device yet. */
  predicate Restorable(p: Page, e: (int, Record), f: Factory) {
    SavedMode(e.1).Some? && SetupSucceeds(p, e.0, f) && e.0 in p.persistent && e.0 !in p.active
  }

  /** The device a restored item ends with. */
  function RestoredDevice(e: (int, Record), f: Factory): Device
    requires SavedMode(e.1).Some?
  {
    var mode := SavedMode(e.1).value;
    ApplySaved(NewDevice(mode, f.releasable), mode, e.1.state)
  }

  /** One restorable item: the pin gets its device with the saved state and
      keeps its record, with the mode name written into it; nothing else
      changes and nothing is saved. */
  lemma RestoreOneFixedEffect(p: Page, e: (int, Record), f: Factory)
    requires Restorable(p, e, f)
    ensures var r := RestoreOneFixed(p, e.0, e.1, f);
      && r.active == p.active[e.0 := RestoredDevice(e, f)]
      && r.persistent == p.persistent[e.0 := p.persistent[e.0].(mode := Some(ModeName(SavedMode(e.1).value)))]
      && r.pulses == p.pulses && r.file == p.file && r.gpio == p.gpio && r.widgets == p.widgets
  {
  }

  /** What the corrected loop does to one pin `x`: a listed pin is restored as
      `RestoreOneFixedEffect` says, any other pin is untouched. */
  lemma {:induction false} RestoreEntriesAt(p: Page, es: Entries, factory: int -> Factory, x: int)
    requires DistinctKeys(es)
    requires forall k :: 0 <= k < |es| ==>
               && SavedMode(es[k].1).Some? && SetupSucceeds(p, es[k].0, factory(es[k].0))
               && es[k].0 in p.persistent && es[k].0 !in p.active
    ensures var r := RestoreEntries(p, es, factory);
      && r.pulses == p.pulses && r.file == p.file && r.gpio == p.gpio && r.widgets == p.widgets
      && (x !in Pins(es) ==> SameAt(r.active, p.active, x) && SameAt(r.persistent, p.persistent, x))
      && (forall k :: 0 <= k < |es| && es[k].0 == x ==>
            && x in r.active && r.active[x] == RestoredDevice(es[k], factory(x))
            && x in r.persistent
            && r.persistent[x] == p.persistent[x].(mode := Some(ModeName(SavedMode(es[k].1).value))))
    decreases |es|
  {
    if |es| > 0 {
      var e := es[0];
      var q := RestoreOneFixed(p, e.0, e.1, factory(e.0));
      RestoreOneFixedEffect(p, e, factory(e.0));
      var rest := es[1..];
      PinsCons(es);
      forall k | 0 <= k < |rest|
        ensures && SavedMode(rest[k].1).Some? && SetupSucceeds(q, rest[k].0, factory(rest[k].0))
                && rest[k].0 in q.persistent && rest[k].0 !in q.active
      {
        assert rest[k] == es[k + 1];
      }
      RestoreEntriesAt(q, rest, factory, x);
      var r := RestoreEntries(q, rest, factory);
      forall k | 0 <= k < |es| && es[k].0 == x
        ensures x in r.active && r.active[x] == RestoredDevice(es[k], factory(x))
        ensures x in r.persistent
        ensures r.persistent[x] == p.persistent[x].(mode := Some(ModeName(SavedMode(es[k].1).value)))
      {
        if k > 0 {
          assert rest[k - 1] == es[k];
        }
      }
    }
  }

  /** The pins of a non-empty item list: the first one and those of the rest,
      where the first one does not reappear. */
  lemma PinsCons(es: Entries)
    requires DistinctKeys(es) && |es| > 0
    ensures Pins(es) == {es[0].0} + Pins(es[1..])
    ensures es[0].0 !in Pins(es[1..])
    ensures DistinctKeys(es[1..])
  {
    var rest := es[1..];
    forall x | x in Pins(es) ensures x in {es[0].0} + Pins(rest) {
      var k :| 0 <= k < |es| && es[k].0 == x;
      if k > 0 {
        assert rest[k - 1] == es[k];
      }
    }
    forall x | x in Pins(rest) ensures x in Pins(es) && x != es[0].0 {
      var k :| 0 <= k < |rest| && rest[k].0 == x;
      assert es[k + 1] == rest[k];
    }
  }

  /** A record the page itself would have written for a pin in its mode: the
      mode name, and a "HIGH"/"LOW" state for an output or a duty cycle in
      range for a PWM pin. */
  predicate WellFormed(info: Record) {
    match SavedMode(info)
    case None => false
    case Some(OUTPUT) => info.state in {Some(Text("HIGH")), Some(Text("LOW"))}
    case Some(PWM) => info.state.Some? && info.state.value.Number? && 0 <= info.state.value.value <= 10000
    case Some(INPUT) => true
  }

  /** A well-formed record comes back unchanged: restoring it and saving the
      restored device writes the same record. */
  lemma RestoredRecordSaved(e: (int, Record), f: Factory)
    requires WellFormed(e.1)
    ensures SavedRecord(e.1.(mode := Some(ModeName(SavedMode(e.1).value))), RestoredDevice(e, f)) == e.1
  {
  }

  /** The restore preconditions of `RestoreEntriesAt`, established for a page
      whose records are the loaded file. */
  predicate RoundTripReady(p: Page, es: Entries, factory: int -> Factory) {
    && p.gpio && p.active == map[] && DistinctKeys(es)
    && (forall k :: 0 <= k < |es| ==> WellFormed(es[k].1))
    && (forall k :: 0 <= k < |es| ==> SetupSucceeds(p, es[k].0, factory(es[k].0)))
  }

  /** One pin after the corrected restore: a loaded pin has a device and a
      record, and saving it writes back the record that was loaded; any other
      pin has neither. */
  lemma RoundTripAt(p: Page, es: Entries, factory: int -> Factory, x: int)
    requires RoundTripReady(p, es, factory)
    ensures var r := RestoreEntries(p.(persistent := ToMap(es)), es, factory);
      && (x in r.active <==> x in Pins(es))
      && (x in r.persistent <==> x in Pins(es))
      && (x in Pins(es) ==> SavedRecord(r.persistent[x], r.active[x]) == ToMap(es)[x])
      && r.file == p.file
  {
    var p0 := p.(persistent := ToMap(es));
    forall k | 0 <= k < |es|
      ensures && SavedMode(es[k].1).Some? && SetupSucceeds(p0, es[k].0, factory(es[k].0))
              && es[k].0 in p0.persistent && es[k].0 !in p0.active
    {
      assert WellFormed(es[k].1);
      assert es[k].0 in Pins(es);
    }
    RestoreEntriesAt(p0, es, factory, x);
    if x in Pins(es) {
      var k :| 0 <= k < |es| && es[k].0 == x;
      ToMapAt(es, k);
      RestoredRecordSaved(es[k], factory(x));
    }
  }

  /** The saved dictionary of a page is `m` when the page has devices and
      records for exactly the pins of `m` and saving each of them writes its
      entry of `m`. */
  lemma SnapshotIs(r: Page, m: map<int, Record>)
    requires r.active.Keys == m.Keys && r.persistent.Keys == m.Keys
    requires forall x :: x in m ==> SavedRecord(r.persistent[x], r.active[x]) == m[x]
    ensures Snapshot(r) == m
  {
    var s := Snapshot(r);
    assert s.Keys == m.Keys;
    forall x | x in m ensures s[x] == m[x] {
      assert x in r.persistent.Keys * r.active.Keys;
    }
  }

  /** Save after restore gives back the file: when every saved record is one the
      page writes and every device can be created, the corrected restore sets up
      exactly the saved pins, nothing is written while loading, and saving
      immediately afterwards writes the same dictionary that was loaded. */
  lemma RestoreSaveRoundTrip(p: Page, es: Entries, factory: int -> Factory)
    requires p.gpio && p.active == map[]
    requires DistinctKeys(es)
    requires forall k :: 0 <= k < |es| ==> WellFormed(es[k].1)
    requires forall k :: 0 <= k < |es| ==> SetupSucceeds(p, es[k].0, factory(es[k].0))
    ensures var r := LoadPinStatesFixed(p, Some(es), factory);
      && r.active.Keys == Pins(es)
      && r.persistent.Keys == Pins(es)
      && Snapshot(r) == ToMap(es)
      && r.file == p.file
  {
    assert RoundTripReady(p, es, factory);
    var r := RestoreEntries(p.(persistent := ToMap(es)), es, factory);
    var m := ToMap(es);
    RoundTripAt(p, es, factory, 0);
    forall x
      ensures (x in r.active <==> x in m) && (x in r.persistent <==> x in m)
      ensures x in m ==> SavedRecord(r.persistent[x], r.active[x]) == m[x]
    {
      RoundTripAt(p, es, factory, x);
    }
    SnapshotIs(r, m);
  }
}

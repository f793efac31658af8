/**
 The OBD-II vehicle page: its connection and diagnostics flags, the gauges it
 creates for the commands the car supports, their grid positions, unit labels,
 the `HH:MM:SS` display of the engine run time, and which controls are enabled.

 The connection itself runs on a thread; it is modelled by its two outcomes
 (`ConnectionEstablished`, `Disconnect`), and a diagnostics thread by the reset
 of its flag in `finally`.
 */
module Vehicle {
  import opened Wrappers
  import opened PyText

  /** The page's flags. `libraries` is `OBD_AVAILABLE and SERIAL_AVAILABLE`,
      `link` whether a connection object exists, `gauges` the created gauges. */
  datatype Obd = Obd(
    libraries: bool,
    ports: seq<string>,
    link: bool,
    connected: bool,
    connecting: bool,
    reading: bool,
    clearing: bool,
    gauges: seq<Gauge>)

  /** One entry of `SUPPORTED_COMMANDS`; `present` is false when the library's
      command object is missing (`None`). */
  datatype Command = Command(present: bool, name: string, caption: string, unit: string, convertTo: Option<string>)

  /** A created gauge with its label, unit label and grid cell. */
  datatype Gauge = Gauge(name: string, caption: string, unit: string, row: int, col: int)

  /** A fresh page: nothing connected, nothing running, no gauges. */
  function InitialObd(libraries: bool): (v: Obd)
    ensures !v.connected && !v.connecting && !v.reading && !v.clearing && v.gauges == []
  {
    Obd(libraries, [], false, false, false, false, false, [])
  }

  /** The six commands the page knows, in display order. */
  function SupportedCommands(present: bool): (cs: seq<Command>)
    ensures |cs| == 6
  {
    [ Command(present, "RPM", "Engine", "RPM", None),
      Command(present, "SPEED", "Speed", "KPH", Some("mph")),
      Command(present, "BOOST_PRESSURE", "Intake", "kPa", Some("psi")),
      Command(present, "COOLANT_TEMP", "Coolant", "Â°C", Some("fahrenheit")),
      Command(present, "RUN_TIME", "Run Time", "seconds", None),
      Command(present, "THROTTLE_POS", "Throttle", "%", None) ]
  }

  // ---------------------------------------------------------------------------
  // Connection
  // ---------------------------------------------------------------------------

  /** `connect_to_obd(selected)`: an empty selection or one containing "No ports"
      is refused, and nothing happens while connecting or connected; otherwise
      the page is marked as connecting and the connection thread starts. */
  function Connect(v: Obd, selected: string): (r: Obd)
    ensures r.connecting <==> v.connecting || (selected != "" && !Contains(selected, "No ports") && !v.connected)
    ensures r.connecting != v.connecting ==> r == v.(connecting := true)
    ensures r.connecting == v.connecting ==> r == v
  {
    if selected == "" || Contains(selected, "No ports") then v
    else if v.connecting || v.connected then v
    else v.(connecting := true)
  }

  /** The end of `disconnect_from_obd`: no connection, no flags, no gauges. */
  function Disconnect(v: Obd): (r: Obd)
    ensures !r.link && !r.connected && !r.connecting && r.gauges == []
    ensures r.reading == v.reading && r.clearing == v.clearing && r.ports == v.ports && r.libraries == v.libraries
  {
    v.(link := false, connected := false, connecting := false, gauges := [])
  }

  /** The connection thread's success: connected, no longer connecting, and
      the gauges for the supported commands created. */
  function ConnectionEstablished(v: Obd, supports: string -> bool): (r: Obd)
    ensures r.link && r.connected && !r.connecting
    ensures r.gauges == CreateGauges(SupportedCommands(true), supports)
  {
    var w := v.(link := true, connected := true, connecting := false);
    w.(gauges := CreateGauges(SupportedCommands(true), supports))
  }

  /** The connection thread's failure: the page disconnects. */
  function ConnectionFailed(v: Obd): (r: Obd)
    ensures !r.connected && !r.connecting && r.gauges == []
  {
    Disconnect(v)
  }

  /** Disconnecting twice is the same as once. */
  lemma DisconnectIdempotent(v: Obd)
    ensures Disconnect(Disconnect(v)) == Disconnect(v)
  {
  }

  /** A connect request from a disconnected page with a real port starts
      connecting; a disconnect afterwards undoes it, leaving only the
      connection object dropped. */
  lemma ConnectThenDisconnect(v: Obd, selected: string)
    requires !v.connected && !v.connecting && !v.link && v.gauges == []
    requires selected != "" && !Contains(selected, "No ports")
    ensures Connect(v, selected).connecting
    ensures Disconnect(Connect(v, selected)) == v
  {
  }

  // ---------------------------------------------------------------------------
  // Serial ports
  // ---------------------------------------------------------------------------

  /** A port `list_ports.comports()` reports: its device path and its name. */
  datatype SerialPort = SerialPort(device: string, name: string)

  /** The names `scan_for_ports` keeps: USB-to-serial adapters. */
  predicate AdapterName(name: string) {
    Contains(name, "ttyUSB") || Contains(name, "ttyACM")
  }

  /** The device paths of the adapters among the ports found, in the order
      they were reported. */
  function AdapterPorts(found: seq<SerialPort>): (ports: seq<string>)
    ensures |ports| <= |found|
    decreases |found|
  {
    if found == [] then []
    else (if AdapterName(found[0].name) then [found[0].device] else []) + AdapterPorts(found[1..])
  }

  /** A device path is kept exactly when some adapter reported it. */
  lemma {:induction false} AdapterPortsSpec(found: seq<SerialPort>, d: string)
    ensures d in AdapterPorts(found) <==> exists k :: 0 <= k < |found| && AdapterName(found[k].name) && found[k].device == d
    decreases |found|
  {
    if found != [] {
      AdapterPortsSpec(found[1..], d);
      if exists k :: 0 <= k < |found| - 1 && AdapterName(found[1..][k].name) && found[1..][k].device == d {
        var k :| 0 <= k < |found| - 1 && AdapterName(found[1..][k].name) && found[1..][k].device == d;
        assert found[k + 1] == found[1..][k];
      }
      if exists k :: 0 <= k < |found| && AdapterName(found[k].name) && found[k].device == d {
        var k :| 0 <= k < |found| && AdapterName(found[k].name) && found[k].device == d;
        if k > 0 {
          assert found[1..][k - 1] == found[k];
        }
      }
    }
  }

  const NoPortsFound := "No ports found..."

  /** The dropdown's value after a scan: the first port, or the placeholder. */
  function PortChoice(ports: seq<string>): (s: string)
    ensures ports != [] ==> s == ports[0]
    ensures ports == [] ==> Contains(s, "No ports")
  {
    if ports != [] then ports[0]
    else
      assert StartsWith(NoPortsFound, "No ports");
      NoPortsFound
  }

  /** `on_show`: with both libraries present the serial ports are scanned
      again; nothing else changes. */
  function OnShow(v: Obd, found: seq<SerialPort>): (r: Obd)
    ensures r.(ports := v.ports) == v
    ensures v.libraries ==> r.ports == AdapterPorts(found)
    ensures !v.libraries ==> r == v
  {
    if v.libraries then v.(ports := AdapterPorts(found)) else v
  }

  /** After a scan that found no adapter the dropdown shows the placeholder,
      and Connect with it does nothing; after one that found some, Connect
      with the first of them starts connecting from an idle page. */
  lemma ScanThenConnect(v: Obd, found: seq<SerialPort>)
    requires v.libraries
    ensures var w := OnShow(v, found);
            w.ports == [] ==> Connect(w, PortChoice(w.ports)) == w
    ensures var w := OnShow(v, found);
            w.ports != [] && w.ports[0] != "" && !Contains(w.ports[0], "No ports") && !v.connected && !v.connecting ==>
              Connect(w, PortChoice(w.ports)).connecting
  {
  }

  // ---------------------------------------------------------------------------
  // Diagnostics
  // ---------------------------------------------------------------------------

  /** `read_dtcs`: refused unless connected, ignored while a read runs. */
  function ReadDtcs(v: Obd): (r: Obd)
    ensures r.reading <==> v.reading || v.connected
    ensures r == v.(reading := r.reading)
  {
    if !v.connected then v
    else if v.reading then v
    else v.(reading := true)
  }

  /** `clear_dtcs`: refused unless connected, ignored while a clear runs, and
      asks for confirmation first. */
  function ClearDtcs(v: Obd, confirmed: bool): (r: Obd)
    ensures r.clearing <==> v.clearing || (v.connected && confirmed)
    ensures r == v.(clearing := r.clearing)
  {
    if !v.connected then v
    else if v.clearing then v
    else if !confirmed then v
    else v.(clearing := true)
  }

  /** The `finally` of the read thread, whatever the thread found. */
  function ReadFinished(v: Obd): (r: Obd)
    ensures !r.reading && r == v.(reading := false)
  {
    v.(reading := false)
  }

  /** The `finally` of the clear thread. */
  function ClearFinished(v: Obd): (r: Obd)
    ensures !r.clearing && r == v.(clearing := false)
  {
    v.(clearing := false)
  }

  /** A second read request while one is running changes nothing, and after
      the thread ends a new read can start again. */
  lemma ReadReentry(v: Obd)
    requires v.connected
    ensures ReadDtcs(ReadDtcs(v)) == ReadDtcs(v)
    ensures ReadDtcs(ReadFinished(ReadDtcs(v))) == ReadDtcs(v)
  {
  }

  // ---------------------------------------------------------------------------
  // Gauges
  // ---------------------------------------------------------------------------

  /** The commands that get a gauge: present and supported by the car. */
  function Wanted(cmds: seq<Command>, supports: string -> bool): (ws: seq<Command>)
    ensures |ws| <= |cmds|
  {
    if |cmds| == 0 then []
    else
      var rest := Wanted(cmds[1..], supports);
      if cmds[0].present && supports(cmds[0].name) then [cmds[0]] + rest else rest
  }

  /** The unit shown under a gauge: the conversion target upper-cased when
      there is one, otherwise the command's own unit. */
  function UnitLabel(c: Command): (u: string)
    ensures c.convertTo.Some? && c.convertTo.value != "" ==> u == Upper(c.convertTo.value)
    ensures c.convertTo.None? || c.convertTo.value == "" ==> u == c.unit
  {
    match c.convertTo
    case Some(t) => if t != "" then Upper(t) else c.unit
    case None => c.unit
  }

  /** `_create_dynamic_gauges`: one gauge per wanted command, in order, placed
      row by row three to a row. */
  method CreateGaugesLoop(cmds: seq<Command>, supports: string -> bool) returns (gauges: seq<Gauge>)
    ensures |gauges| == |Wanted(cmds, supports)|
    ensures forall k :: 0 <= k < |gauges| ==>
              && gauges[k].name == Wanted(cmds, supports)[k].name
              && gauges[k].caption == Wanted(cmds, supports)[k].caption
              && gauges[k].unit == UnitLabel(Wanted(cmds, supports)[k])
              && gauges[k].row == k / 3 && gauges[k].col == k % 3
  {
    var maxCols, row, col := 3, 0, 0;
    gauges := [];
    var i := 0;
    while i < |cmds|
      invariant 0 <= i <= |cmds|
      invariant gauges == CreateGauges(cmds[..i], supports)
      invariant row == |gauges| / 3 && col == |gauges| % 3
    {
      var c := cmds[i];
      CreateGaugesSnoc(cmds[..i], c, supports);
      assert cmds[..i + 1] == cmds[..i] + [c];
      if c.present && supports(c.name) {
        gauges := gauges + [Gauge(c.name, c.caption, UnitLabel(c), row, col)];
        col := col + 1;
        if col >= maxCols {
          col, row := 0, row + 1;
        }
      }
      i := i + 1;
    }
    assert cmds[..|cmds|] == cmds;
    CreateGaugesSpec(cmds, supports);
  }

  /** The gauges of `cmds`, the reference the loop is checked against. */
  function CreateGauges(cmds: seq<Command>, supports: string -> bool): seq<Gauge>
    decreases |cmds|
  {
    if |cmds| == 0 then []
    else
      var before := CreateGauges(cmds[..|cmds| - 1], supports);
      var c := cmds[|cmds| - 1];
      if c.present && supports(c.name)
      then before + [Gauge(c.name, c.caption, UnitLabel(c), |before| / 3, |before| % 3)]
      else before
  }

  lemma CreateGaugesSnoc(cmds: seq<Command>, c: Command, supports: string -> bool)
    ensures CreateGauges(cmds + [c], supports) ==
      var before := CreateGauges(cmds, supports);
      if c.present && supports(c.name)
      then before + [Gauge(c.name, c.caption, UnitLabel(c), |before| / 3, |before| % 3)]
      else before
  {
    assert (cmds + [c])[..|cmds + [c]| - 1] == cmds;
  }

  lemma {:induction false} WantedSnoc(cmds: seq<Command>, c: Command, supports: string -> bool)
    ensures Wanted(cmds + [c], supports) == Wanted(cmds, supports) + (if c.present && supports(c.name) then [c] else [])
  {
    if |cmds| == 0 {
      assert cmds + [c] == [c];
    } else {
      assert (cmds + [c])[1..] == cmds[1..] + [c];
      WantedSnoc(cmds[1..], c, supports);
    }
  }

  /** The reference gauges: one per wanted command with its name, caption and
      unit label, the k-th at row k/3, column k%3. */
  lemma {:induction false} CreateGaugesSpec(cmds: seq<Command>, supports: string -> bool)
    ensures |CreateGauges(cmds, supports)| == |Wanted(cmds, supports)|
    ensures forall k :: 0 <= k < |CreateGauges(cmds, supports)| ==>
              && CreateGauges(cmds, supports)[k].name == Wanted(cmds, supports)[k].name
              && CreateGauges(cmds, supports)[k].caption == Wanted(cmds, supports)[k].caption
              && CreateGauges(cmds, supports)[k].unit == UnitLabel(Wanted(cmds, supports)[k])
              && CreateGauges(cmds, supports)[k].row == k / 3
              && CreateGauges(cmds, supports)[k].col == k % 3
    decreases |cmds|
  {
    if |cmds| > 0 {
      var init := cmds[..|cmds| - 1];
      var c := cmds[|cmds| - 1];
      assert cmds == init + [c];
      CreateGaugesSpec(init, supports);
      WantedSnoc(init, c, supports);
    }
  }

  /** Without the library's command objects no gauge is created. */
  lemma NoGaugesWithoutCommands(supports: string -> bool)
    ensures CreateGauges(SupportedCommands(false), supports) == []
  {
    var cs := SupportedCommands(false);
    assert Wanted(cs, supports) == [];
    CreateGaugesSpec(cs, supports);
  }

  // ---------------------------------------------------------------------------
  // Run time
  // ---------------------------------------------------------------------------

  /** `m, s = divmod(seconds, 60); h, m = divmod(m, 60)`: Python's floor
      division, which is Dafny's for a positive divisor. */
  function RunTimeParts(seconds: int): (hms: (int, int, int))
    ensures 0 <= hms.1 < 60 && 0 <= hms.2 < 60
    ensures hms.0 * 3600 + hms.1 * 60 + hms.2 == seconds
  {
    var m, s := seconds / 60, seconds % 60;
    var h, m' := m / 60, m % 60;
    (h, m', s)
  }

  /** The text shown on the run-time gauge. */
  function RunTimeText(seconds: int): string {
    var hms := RunTimeParts(seconds);
    Pad2(hms.0) + ":" + Pad2(hms.1) + ":" + Pad2(hms.2)
  }

  /** Reading the display back: hours, minutes and seconds fields. */
  function ReadRunTime(t: string): Option<int> {
    if |t| == 8 && t[2] == ':' && t[5] == ':'
       && (forall i :: 0 <= i < 8 && i != 2 && i != 5 ==> IsDigit(t[i]))
    then Some(DigitsValue(t[0..2]) * 3600 + DigitsValue(t[3..5]) * 60 + DigitsValue(t[6..8]))
    else None
  }

  /** Under 100 hours the display is `HH:MM:SS` and reads back as the number
      of seconds it shows. */
  lemma RunTimeRoundTrip(seconds: int)
    requires 0 <= seconds < 360000
    ensures ReadRunTime(RunTimeText(seconds)) == Some(seconds)
  {
    var hms := RunTimeParts(seconds);
    assert 0 <= hms.0 < 100;
    Pad2Digits(hms.0);
    Pad2Digits(hms.1);
    Pad2Digits(hms.2);
    var t := RunTimeText(seconds);
    assert t[0..2] == Pad2(hms.0);
    assert t[3..5] == Pad2(hms.1);
    assert t[6..8] == Pad2(hms.2);
  }

  // ---------------------------------------------------------------------------
  // Controls
  // ---------------------------------------------------------------------------

  datatype Status = LibrariesMissing | Connected | Connecting | Disconnected

  /** What `_update_ui_state` shows. */
  datatype Controls = Controls(status: Status, scan: bool, connect: bool, disconnectShown: bool, read: bool, clear: bool)

  function UpdateUiState(v: Obd): (c: Controls)
    ensures c.read == c.clear
    ensures c.read <==> v.libraries && v.connected && !v.reading && !v.clearing
    ensures c.disconnectShown <==> v.libraries && v.connected
    ensures c.connect <==> v.libraries && !v.connected && !v.connecting && |v.ports| > 0
    ensures c.scan <==> v.libraries && !v.connected && !v.connecting
  {
    if !v.libraries then Controls(LibrariesMissing, false, false, false, false, false)
    else if v.connected then
      var running := v.reading || v.clearing;
      Controls(Connected, false, false, true, !running, !running)
    else if v.connecting then Controls(Connecting, false, false, false, false, false)
    else Controls(Disconnected, true, |v.ports| > 0, false, false, false)
  }

  /** While a diagnostics thread runs neither diagnostics button can start
      another one; once both have finished they are available again. */
  lemma ButtonsFollowThreads(v: Obd)
    requires v.libraries && v.connected
    ensures !UpdateUiState(ReadDtcs(v)).read
    ensures UpdateUiState(ClearFinished(ReadFinished(ReadDtcs(v)))).read
  {
  }
}

/**
 The application's automation hub: the requests the assistant can make of
 other pages, each answered with an `(ok, message)` pair, the page switcher,
 and how a GPIO page whose construction raised is missing from the hub.
 */
module Hub {
  import opened Wrappers
  import opened PyText
  import opened GpioCatalog
  import opened GpioRegistry
  import opened GpioRestore
  import opened Vehicle

  /** The pages the application built, with the state of the two the hub
      talks to. A page whose constructor raised is absent. */
  datatype App = App(pages: set<string>, gpio: Option<Page>, vehicle: Option<Obd>, shown: Option<string>)

  /** The hub's view agrees with the page dictionary. */
  predicate Consistent(a: App) {
    && ("GPIOPage" in a.pages <==> a.gpio.Some?)
    && ("VehiclePage" in a.pages <==> a.vehicle.Some?)
  }

  /** `create_all_pages`: each page the constructor of which returns is
      registered; a GPIO page whose restore raised is left out (the failure
      is logged and swallowed). */
  function CreateAllPages(others: set<string>, gpioBuilt: Restored, vehicle: Option<Obd>): (a: App)
    requires "GPIOPage" !in others && "VehiclePage" !in others
    ensures Consistent(a)
    ensures "GPIOPage" in a.pages <==> gpioBuilt.Completed?
    ensures a.pages - {"GPIOPage", "VehiclePage"} == others
  {
    var withGpio := if gpioBuilt.Completed? then {"GPIOPage"} else {};
    var withVehicle := if vehicle.Some? then {"VehiclePage"} else {};
    App(others + withGpio + withVehicle,
        if gpioBuilt.Completed? then Some(gpioBuilt.page) else None,
        vehicle, None)
  }

  const GpioNotLoaded := "GPIO Control module is not loaded."

  /** `request_gpio_action`: forwarded to the GPIO page when there is one;
      `fault` is what the pin's device raises when driven, if anything. */
  function RequestGpioAction(a: App, b: int, state: string, fault: Option<string>): (res: (Reply, App))
    ensures a.gpio.None? ==> res == (Reply(false, GpioNotLoaded), a)
    ensures a.gpio.Some? ==>
      var h := HandleAiGpioRequest(a.gpio.value, b, state, fault);
      res.0 == h.reply && res.1 == a.(gpio := Some(h.page))
  {
    match a.gpio
    case None => (Reply(false, GpioNotLoaded), a)
    case Some(p) =>
      var h := HandleAiGpioRequest(p, b, state, fault);
      (h.reply, a.(gpio := Some(h.page)))
  }

  /** `hasattr(device, 'toggle')`: LEDs and PWM LEDs have it, buttons do not. */
  predicate HasToggle(d: Device) {
    d.kind == Led || d.kind == PwmLed
  }

  /** `request_gpio_pulse`: pulses a configured output pin at the requested
      interval; the interval itself is not checked. */
  function RequestGpioPulse(a: App, b: int, intervalMs: int): (res: (Reply, App))
    ensures res.0.ok <==> a.gpio.Some? && b in a.gpio.value.active && HasToggle(a.gpio.value.active[b])
    ensures res.0.ok ==> res.1 == a.(gpio := Some(StartPulse(a.gpio.value, b, intervalMs)))
    ensures !res.0.ok ==> res.1 == a
  {
    match a.gpio
    case None => (Reply(false, GpioNotLoaded), a)
    case Some(p) =>
      if b !in p.active then (Reply(false, "Pin " + IntToString(b) + " is not configured. Set to OUTPUT first."), a)
      else if !HasToggle(p.active[b]) then (Reply(false, "Pin " + IntToString(b) + " is not an output device."), a)
      else (Reply(true, "Pulse started on pin " + IntToString(b) + "."), a.(gpio := Some(StartPulse(p, b, intervalMs))))
  }

  /** `request_system_status`: answered by the status page's `get_specific_stat`
      (a reading of the machine, given here as `stat`) when that page exists. */
  function RequestSystemStatus(a: App, query: Option<string>, stat: Option<string> -> Reply): (r: Reply)
    ensures "StatusPage" !in a.pages ==> !r.ok
    ensures "StatusPage" in a.pages ==> r == stat(query)
  {
    if "StatusPage" in a.pages then stat(query) else Reply(false, "Status Page module not loaded.")
  }

  /** `request_vehicle_diagnostics`: only "read_dtcs" and "clear_dtcs" are
      accepted, and only while connected. `confirmed` is the answer to the
      confirmation dialog of a clear. */
  function RequestVehicleDiagnostics(a: App, action: string, confirmed: bool): (res: (Reply, App))
    ensures res.0.ok <==> a.vehicle.Some? && a.vehicle.value.connected && action in {"read_dtcs", "clear_dtcs"}
    ensures res.0.ok && action == "read_dtcs" ==> res.1 == a.(vehicle := Some(ReadDtcs(a.vehicle.value)))
    ensures res.0.ok && action == "clear_dtcs" ==> res.1 == a.(vehicle := Some(ClearDtcs(a.vehicle.value, confirmed)))
    ensures !res.0.ok ==> res.1 == a
  {
    match a.vehicle
    case None => (Reply(false, "Vehicle Interface module not loaded."), a)
    case Some(v) =>
      if !v.connected then (Reply(false, "Not connected to a vehicle."), a)
      else if action == "read_dtcs" then (Reply(true, "DTC read command initiated."), a.(vehicle := Some(ReadDtcs(v))))
      else if action == "clear_dtcs" then (Reply(true, "DTC clear command initiated."), a.(vehicle := Some(ClearDtcs(v, confirmed))))
      else (Reply(false, "Unknown vehicle action: " + action), a)
  }

  /** The iteration orders `on_hide` of the GPIO page uses: every running
      pulse and every active device, each listed. */
  ghost predicate HideOrders(a: App, pulseOrder: seq<int>, activeOrder: seq<int>) {
    a.gpio.Some? ==>
      && (forall x :: x in pulseOrder <==> x in a.gpio.value.pulses)
      && (forall x :: x in activeOrder <==> x in a.gpio.value.active)
  }

  /** `show_page`: an unknown name is only logged. Otherwise every page is
      hidden first (all pages share one grid cell, so all are mapped): the
      GPIO page releases its transient pins and the vehicle page disconnects.
      Then the target is shown; the vehicle page rescans its serial ports
      (`found` is what the system reports). */
  function ShowPage(a: App, name: string, pulseOrder: seq<int>, activeOrder: seq<int>, found: seq<SerialPort>): (r: App)
    requires HideOrders(a, pulseOrder, activeOrder)
    ensures name !in a.pages ==> r == a
    ensures name in a.pages ==> r.pages == a.pages && r.shown == Some(name)
    ensures name in a.pages ==>
              r.gpio == (if a.gpio.Some? then Some(OnHide(a.gpio.value, pulseOrder, activeOrder)) else None)
    ensures name in a.pages ==>
              r.vehicle == (if a.vehicle.Some? then Some(ShownVehicle(a.vehicle.value, name, found)) else None)
  {
    if name !in a.pages then a
    else
      var gpio := match a.gpio
        case None => None
        case Some(p) => Some(OnHide(p, pulseOrder, activeOrder));
      var vehicle := match a.vehicle
        case None => None
        case Some(v) => Some(ShownVehicle(v, name, found));
      a.(gpio := gpio, vehicle := vehicle, shown := Some(name))
  }

  /** The vehicle page after a switch to `name`: hidden (disconnected), then
      shown again when it is the target. */
  function ShownVehicle(v: Obd, name: string, found: seq<SerialPort>): Obd {
    if name == "VehiclePage" then Vehicle.OnShow(Disconnect(v), found) else Disconnect(v)
  }

  /** After any switch to an existing page the vehicle is disconnected with no
      gauges, the GPIO page has no pulse on a transient pin, and a persistent
      pin keeps its device and pulse. */
  lemma ShowPageReleases(a: App, name: string, pulseOrder: seq<int>, activeOrder: seq<int>, found: seq<SerialPort>)
    requires HideOrders(a, pulseOrder, activeOrder) && name in a.pages
    ensures var r := ShowPage(a, name, pulseOrder, activeOrder, found);
            r.vehicle.Some? ==> !r.vehicle.value.connected && !r.vehicle.value.connecting && r.vehicle.value.gauges == []
    ensures var r := ShowPage(a, name, pulseOrder, activeOrder, found);
            r.gpio.Some? ==>
              && (forall x :: x !in a.gpio.value.persistent ==> x !in r.gpio.value.pulses)
              && (forall x :: x in a.gpio.value.persistent ==>
                    SameAt(r.gpio.value.active, a.gpio.value.active, x) && SameAt(r.gpio.value.pulses, a.gpio.value.pulses, x))
  {
    if a.gpio.Some? {
      OnHideEffect(a.gpio.value, pulseOrder, activeOrder);
    }
  }

  /** The hub keeps its page dictionary and stays consistent through the GPIO
      requests. */
  lemma GpioRequestsPreserveConsistency(a: App, b: int, s: string, fault: Option<string>, ms: int)
    requires Consistent(a)
    ensures Consistent(RequestGpioAction(a, b, s, fault).1) && RequestGpioAction(a, b, s, fault).1.pages == a.pages
    ensures Consistent(RequestGpioPulse(a, b, ms).1) && RequestGpioPulse(a, b, ms).1.pages == a.pages
  {
  }

  /** The same for the vehicle request. */
  lemma VehicleRequestPreservesConsistency(a: App, action: string, confirmed: bool)
    requires Consistent(a)
    ensures Consistent(RequestVehicleDiagnostics(a, action, confirmed).1)
    ensures RequestVehicleDiagnostics(a, action, confirmed).1.pages == a.pages
  {
  }

  /** The same for the vehicle request and the page switcher, hiding and
      showing included. */
  lemma OtherRequestsPreserveConsistency(a: App, action: string, confirmed: bool, name: string,
                                         pulseOrder: seq<int>, activeOrder: seq<int>, found: seq<SerialPort>)
    requires Consistent(a) && HideOrders(a, pulseOrder, activeOrder)
    ensures Consistent(RequestVehicleDiagnostics(a, action, confirmed).1)
    ensures RequestVehicleDiagnostics(a, action, confirmed).1.pages == a.pages
    ensures Consistent(ShowPage(a, name, pulseOrder, activeOrder, found))
    ensures ShowPage(a, name, pulseOrder, activeOrder, found).pages == a.pages
  {
    VehicleRequestPreservesConsistency(a, action, confirmed);
  }

  /** A pulse started through the hub can have any interval, zero and negative
      ones included; the page's own form refuses those. */
  lemma HubPulseAcceptsAnyInterval(a: App, b: int, intervalMs: int)
    requires a.gpio.Some? && b in a.gpio.value.active && a.gpio.value.active[b].kind == Led
    ensures RequestGpioPulse(a, b, intervalMs).0.ok
    ensures RequestGpioPulse(a, b, intervalMs).1.gpio.value.pulses[b] == intervalMs
  {
  }

  /** The consequence of the restore failure: with a state file that names a
      usable mode, the application has no GPIO page, and every GPIO request
      from the assistant is answered "GPIO Control module is not loaded.". */
  lemma SavedPinsDisableGpioRequests(others: set<string>, p: Page, es: Entries, factory: int -> Factory,
                                     vehicle: Option<Obd>, b: int, state: string, fault: Option<string>)
    requires "GPIOPage" !in others && "VehiclePage" !in others
    requires p.gpio && p.active == map[]
    requires exists k :: 0 <= k < |es| && SavedMode(es[k].1).Some?
    ensures var a := CreateAllPages(others, LoadPinStates(p, Some(es), factory), vehicle);
      && "GPIOPage" !in a.pages
      && RequestGpioAction(a, b, state, fault).0 == Reply(false, GpioNotLoaded)
  {
    LoadRaisesAndEmptiesFile(p, es, factory);
  }
}

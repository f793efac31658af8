# Pip-Boy kiosk: a Dafny model of its state logic

The application is a Pip-Boy–styled kiosk for a single-board computer. It is a home menu of feature pages: GPIO control, radio, an AI assistant, a terminal, a file browser, a process viewer, a vehicle (OBD-II) interface, a web browser, a script sandbox and a settings page with a Morse broadcaster. This project models the parts of those pages that hold state or make decisions. Every page becomes an immutable record, and every handler becomes a pure transition on it. Each transition comes with the property it keeps or the partner it undoes.

- **GPIO registry** (`gpio_catalog.dfy`, `gpio_registry.dfy`, `gpio_restore.dfy`):
  - the 40-pin header and the BCM map;
  - the page's maps of active devices, running pulses and persistence records;
  - `setup_pin`, `cleanup_pin`, `set_pin_persistence`, `start_pulse`/`stop_pulse`, `on_hide` and the save snapshot;
  - restoring from the state file;
  - the automation entry point `handle_ai_gpio_request`.
  
  The device factory's behaviour is a parameter: whether it creates a device, and whether that device's `close()` succeeds. One invariant, `GpioRegistry.Valid`, is preserved by every transition.
- **Automation hub** (`hub.dfy`): the requests `main.py` forwards to the GPIO and vehicle pages, their `(bool, message)` results, and `show_page`.
- **Radio** (`radio.dfy`): the station's playlist, its shuffle, and the track index arithmetic in `main.py`, plus the radio page's `M:SS` clock, station highlight, offline state and station scan.
- **AI page** (`ai_commands.dfy`, `ai_chat.dfy`):
  - the `<|command key="value"|>` tag parser, its dispatch and its feedback lines;
  - the chat history window, the mode prompts, and the streaming exchange.
- **Morse broadcaster** (`morse.dfy`): the code table, the on/off schedule in dot units, the stop flag, and the validation in `start_broadcast`.
- **Terminal** (`terminal.dfy`): the line buffer of the output reader, the history tail, the command guard, and the log-level tags.
- **File browser** (`file_browser.dfy`): the hidden-file filter, the display order, the clipboard, pathlib's joining of a typed name, the checks before paste, rename and new folder, and the refresh after each operation.
- **Process viewer** (`process_viewer.dfy`): the sort column, the selection and Kill button, and how a refresh reconciles the rows with a fresh process list.
- **Vehicle page** (`vehicle.dfy`): the port scan, the connection and diagnostic-thread flags, the gauge grid, the run-time display and button enablement.
- **Web browser, sandbox and home menu** (`browser.dfy`, `sandbox.dfy`, `home.dfy`):
  - address normalisation and the first-show load;
  - the sandbox's file-name check, its paths and the run preconditions;
  - the order and grid placement of the menu.
- **Shared library** (`wrappers.dfy`, `pytext.dfy`, `sorting.dfy`):
  - `Option`/`Result`;
  - the Python string operations the pages use (`strip`, `split`, `join`, `lower`/`upper`, `int()`, `str()`);
  - Python's stable `sorted` with `reverse=`, proved to be an ordered, stable permutation.

Threads are atomic steps, and their outcomes are parameters: a file operation's success, a join timeout, a serial port's answer, a device that raises when driven. Dialog answers, the platform, the user's home directory and directory listings are parameters too.

Two behaviours of the code are easy to miss:
- The automation path (`main.py:160-176`) starts a pulse for any interval, including zero or negative ones. Only the interactive dialog rejects those.
- `setup_pin` on a pin that is already active neither closes nor tears down the previous device. It replaces the handle (`pages/gpio_page.py:439-455`).

## Model

| member | source | states |
|---|---|---|
| GpioCatalog.Catalog | pages/gpio_page.py:39-55 | the header description has one entry for each of the 40 physical pins |
| GpioCatalog.CatalogNumbering | pages/gpio_page.py:39-55 | entry `i` describes physical pin `i + 1`, so the pins appear in header order |
| GpioCatalog.CatalogKinds | pages/gpio_page.py:31-55 | an entry carries a BCM number exactly when it is a GPIO line, and only GPIO lines support PWM |
| GpioCatalog.CatalogBcmIndex | pages/gpio_page.py:39-55 | every BCM number on the header lies in 0..27, and each has a known position in the header |
| GpioCatalog.BcmDistinct | pages/gpio_page.py:39-55 | no two header entries share a BCM number |
| GpioCatalog.BuildMapSpec | pages/gpio_page.py:57 | the dictionary comprehension has a key exactly for each BCM number some entry carries, and stores under it an entry carrying that number |
| GpioCatalog.BcmPinMapKeys | pages/gpio_page.py:57 | `BCM_PIN_MAP` is keyed by exactly the BCM numbers 0..27 of the GPIO entries, and holds under each number the header entry carrying it |
| GpioCatalog.PwmPins | pages/gpio_page.py:39-57 | of the mapped pins, exactly BCM 12, 13, 18 and 19 support PWM |
| GpioCatalog.ModeFromName | pages/gpio_page.py:79-80 | a name `PinMode[...]` accepts is that mode's name; an unknown name gives no mode |
| GpioCatalog.ModeNameRoundTrip | pages/gpio_page.py:79-80 | the mode name stored in the state file reads back as the same mode |
| GpioRegistry.InitialPage | pages/gpio_page.py:266-289 | a new page has a display widget for every BCM pin of the header, and no device, pulse or persistence record |
| GpioRegistry.NewDevice | pages/gpio_page.py:452-454 | the device created for a mode has that mode's class and starts switched off |
| GpioRegistry.Snapshot | pages/gpio_page.py:358-373 | the saved dictionary has an entry for exactly the pins that are both persistent and active |
| GpioRegistry.Save | pages/gpio_page.py:358-381 | saving writes that dictionary to the state file when the library is present, does nothing otherwise, and changes nothing else |
| GpioRegistry.SnapshotLocal | pages/gpio_page.py:358-373 | what is saved depends only on the persistence records and on the devices of persistent pins |
| GpioRegistry.SnapshotByKind | pages/gpio_page.py:365-373 | an LED is saved as "HIGH" exactly when lit, a PWM LED with its duty cycle, an input pin's record unchanged, and the mode is always kept |
| GpioRegistry.StopPulse | pages/gpio_page.py:489-498 | after `stop_pulse` the pin is not pulsing, the other pulses are kept, and an LED on the pin is switched off; no other pin changes |
| GpioRegistry.StartPulse | pages/gpio_page.py:483-487 | after `start_pulse` the pin pulses at the new interval only; a previous pulse on it was stopped first; no other pin changes |
| GpioRegistry.StopPulseIdempotent | pages/gpio_page.py:489-498 | stopping a pulse twice is stopping it once, and stopping a pin that is not pulsing changes nothing |
| GpioRegistry.StartThenStop | pages/gpio_page.py:483-498 | stopping a pulse just started leaves the pin not pulsing and every other pulse as before |
| GpioRegistry.CleanupPin | pages/gpio_page.py:409-420 | `cleanup_pin` stops the pulse and always drops the persistence record; it removes the device unless closing it raises; it then saves; no other pin changes |
| GpioRegistry.CleanupIdempotent | pages/gpio_page.py:409-420 | a second `cleanup_pin` of the same pin changes nothing |
| GpioRegistry.SetPersistence | pages/gpio_page.py:422-429 | marking a pin persistent stores a fresh record and unmarking removes it; the other records and all devices and pulses are untouched; the page then saves |
| GpioRegistry.Register | pages/gpio_page.py:455-461 | a created device is registered on its pin; a persistent pin has the mode name written into its record; other pins are untouched |
| GpioRegistry.CleanupFrame | pages/gpio_page.py:409-420 | cleaning up one pin leaves every other pin's device, pulse and record as they were |
| GpioRegistry.SetupFrame | pages/gpio_page.py:438-467 | setting up one pin leaves every other pin's device, pulse and record as they were |
| GpioRegistry.SetupSuccess | pages/gpio_page.py:438-461 | a successful setup leaves a fresh device of the requested class. The pin keeps its pulse and persistence only if it already had a device. A persistent pin records the mode name |
| GpioRegistry.SetupFailure | pages/gpio_page.py:462-467 | a setup that cannot create the device or find the widget ends with the pin cleaned up: no pulse, no record, and no device when the handles can be closed |
| GpioRegistry.SetupWithoutLibrary | pages/gpio_page.py:438-446 | without the GPIO library, setup only does its preliminary cleanup and leaves the state file alone |
| GpioRegistry.SetupDropsPersistence | pages/gpio_page.py:438-442 | setting up a pin that has no device loses its persistence mark, because the preliminary `cleanup_pin` pops the record |
| GpioRegistry.SetLed | pages/gpio_page.py:308-316 | driving an LED changes only that pin's lit flag, keeps pulses and persistence, and leaves the state file equal to the snapshot of the new state |
| GpioRegistry.DriveLed | pages/gpio_page.py:307-324 | for a configured pin, the request succeeds exactly when the state word is "high" or "low" in any case and the device call does not raise. Success drives the LED to match. Any other word is refused with "Invalid state …". A raising device answers "Failed to set state for BCM Pin n: …" with its error. A failure changes nothing |
| GpioRegistry.HandleAiGpioRequest | pages/gpio_page.py:296-324 | the request succeeds exactly when the library is present, the pin holds an LED, the state is "high" or "low" in any case, and driving the device does not raise. On success the LED is driven accordingly and the page saves. A raising device is reported with its error. On failure nothing changes |
| GpioRegistry.AiRequestCaseInsensitive | pages/gpio_page.py:308-313 | two state words that differ only in letter case get the same reply status and the same page |
| GpioRegistry.StopTransientPulses | pages/gpio_page.py:400-401 | the first `on_hide` loop stops exactly the listed pulses of non-persistent pins and leaves everything else as it was |
| GpioRegistry.ReleaseTransientAt | pages/gpio_page.py:402-403 | the second `on_hide` loop leaves persistent and unlisted pins alone. A listed transient pin loses its pulse, and also its device when that can be closed |
| GpioRegistry.ReleaseTransientFile | pages/gpio_page.py:402-403 | after the second loop the state file is unchanged or is the snapshot of the final state |
| GpioRegistry.OnHideEffect | pages/gpio_page.py:396-404 | after `on_hide`, persistent pins keep their devices and pulses. Other pins have no pulse, and no device unless closing it raised. The state file holds the snapshot taken on entry, which is also that of the final state |
| GpioRegistry.ValidPreservedPulseAndCleanup | pages/gpio_page.py:409-429 | stopping a pulse, cleanup and persistence changes keep "no device without the library, no pulse without a device"; so does starting a pulse on a pin with a device |
| GpioRegistry.ValidPreservedSetup | pages/gpio_page.py:438-467 | `setup_pin` keeps that registry invariant |
| GpioRegistry.ValidPreservedAiRequest | pages/gpio_page.py:296-324 | an automation request keeps that registry invariant |
| GpioRestore.ToMap | pages/gpio_page.py:333 | the dictionary built from the file's items is keyed by exactly their pins |
| GpioRestore.ToMapAt | pages/gpio_page.py:333 | with distinct pins, each item's record is the one stored under its pin |
| GpioRestore.SavedMode | pages/gpio_page.py:337-341 | a record yields a mode exactly when its "mode" names one of the three modes, and that mode's name is what it stores |
| GpioRestore.ApplySaved | pages/gpio_page.py:344-352 | applying the saved state never changes a device's class or whether it can be closed |
| GpioRestore.LoadingSetupOnBlank | pages/gpio_page.py:438-467 | a setup during loading, on a page with no devices and an empty file, keeps the records, writes nothing, and opens at most the one pin |
| GpioRestore.FirstRestoreShrinks | pages/gpio_page.py:336-342 | the first restored item's setup pops its record, so the dictionary being iterated shrinks, and the cleanup's save has emptied the state file |
| GpioRestore.LoadLoopRaises | pages/gpio_page.py:336-354 | the restore loop raises at the first item with a usable mode, after the state file has been emptied |
| GpioRestore.LoadRaisesAndEmptiesFile | pages/gpio_page.py:327-356 | building the page with a state file that names at least one usable mode raises, and the file has been overwritten with an empty dictionary |
| GpioRestore.LoadOneSavedPin | pages/gpio_page.py:327-356 | the smallest such case: a single output pin 17 saved as "HIGH" |
| GpioRestore.RestoreOneFixedEffect | pages/gpio_page.py:336-352 | in the corrected restore, a restorable item gives its pin a device carrying the saved state and keeps its record with the mode written in; nothing else changes and nothing is saved |
| GpioRestore.RestoreEntriesAt | pages/gpio_page.py:336-354 | the corrected loop restores every listed pin in this way and leaves all other pins untouched |
| GpioRestore.PinsCons | pages/gpio_page.py:333 | the pins of a non-empty item list are its first pin, which does not recur, plus those of the rest |
| GpioRestore.RestoredRecordSaved | pages/gpio_page.py:344-373 | a record the page itself would write comes back unchanged when its restored device is saved again |
| GpioRestore.RoundTripAt | pages/gpio_page.py:327-373 | after the corrected restore, exactly the loaded pins have devices and records, and saving each writes back its loaded record |
| GpioRestore.SnapshotIs | pages/gpio_page.py:358-373 | a page whose devices and records cover exactly the keys of a dictionary, each saving as its entry, saves exactly that dictionary |
| GpioRestore.RestoreSaveRoundTrip | pages/gpio_page.py:327-381 | with the corrected restore, loading a well-formed file and saving straight away writes back the same dictionary, and nothing is written during the load |
| Hub.CreateAllPages | main.py:139-151 | every page whose constructor returns is registered and the others are not; the GPIO page is registered exactly when its construction completed; the hub's view agrees with the page dictionary |
| Hub.RequestGpioAction | main.py:154-158 | a GPIO request is answered by the GPIO page's handler, device faults included, when that page exists, and otherwise refused with "GPIO Control module is not loaded." |
| Hub.RequestGpioPulse | main.py:160-176 | a pulse request succeeds exactly when the pin has a device that can toggle. The pulse is then started on the GPIO page; otherwise nothing changes |
| Hub.RequestSystemStatus | main.py:178-182 | a status query is refused without a status page and otherwise answered by that page |
| Hub.RequestVehicleDiagnostics | main.py:184-199 | a diagnostics request succeeds exactly when a vehicle page exists, is connected, and the action is "read_dtcs" or "clear_dtcs". It starts the matching operation; a refused request changes nothing |
| Hub.ShowPage | main.py:208-219 | an unknown page name changes nothing. A known one becomes the page shown; the GPIO page runs its `on_hide`, and the vehicle page disconnects and, when it is the target, rescans its ports |
| Hub.ShowPageReleases | main.py:208-219 | after a switch to an existing page the vehicle is disconnected with no gauges; the GPIO page keeps no pulse on a non-persistent pin, and each persistent pin keeps its device and pulse |
| Hub.GpioRequestsPreserveConsistency | main.py:154-176 | GPIO requests keep the page dictionary and the hub's agreement with it |
| Hub.OtherRequestsPreserveConsistency | main.py:184-219 | vehicle requests and page switches, hiding and showing included, keep the page dictionary and the hub's agreement with it |
| Hub.VehicleRequestPreservesConsistency | main.py:184-199 | a vehicle diagnostics request keeps the page dictionary and the hub's agreement with it |
| Hub.HubPulseAcceptsAnyInterval | main.py:160-176 | a pulse request on an LED succeeds for any interval, zero and negative ones included, and stores that interval |
| Hub.SavedPinsDisableGpioRequests | main.py:139-158 | when the GPIO state file names a usable mode, the application ends up with no GPIO page, and every GPIO request is answered "not loaded" |
| Radio.Suffix | main.py:317 | a file's suffix is a tail of its name that starts at the last dot. It has no further dot and at least one character after the dot, and a dot that starts the name gives no suffix |
| Radio.Stem | main.py:341 | the stem followed by the suffix gives back the whole file name |
| Radio.LastDot | main.py:317 | the position found holds a dot with no dot after it, or there is no dot at all |
| Radio.PlayableFiles | main.py:317 | the station's candidates are files whose lower-cased suffix is one of `SUPPORTED_EXTENSIONS` |
| Radio.CandidatesArePlayableFiles | main.py:317 | the sorted candidate list holds exactly the station's playable files, each as often as it is listed |
| Radio.InitialPlayer | main.py:106-113 | the controller starts with no station, no track, an empty playlist and nothing playing |
| Radio.PlayTrack | main.py:334-354 | with a player and a track index inside the playlist, the track plays and its title shows the file's stem; otherwise nothing changes |
| Radio.SelectStation | main.py:307-332 | with a player, a valid station index loads a playlist that is a rearrangement of the station's playable files, or an empty one when listing raised. A non-empty playlist starts at its first track; a station without playable files shows "Station is empty". An invalid index or a missing player changes nothing |
| Radio.Shuffle | main.py:318 | the shuffle rearranges the sorted candidates and neither adds nor drops a file |
| Radio.ShuffleWithoutExchanges | main.py:318 | draws that always pick the current position leave the list in its sorted order |
| Radio.LoadPlaylist | main.py:317-318 | the loaded playlist holds the station's playable files, each as often as it is listed, and is empty when listing raised |
| Radio.SelectStationLoadsStation | main.py:317-329 | a selected station plays exactly its own playable files, and is empty exactly when it has none |
| Radio.UnshuffledStation | main.py:317-322 | with draws that exchange nothing, the playlist is the station's playable files sorted by name |
| Radio.TogglePlayPause | main.py:392-403 | with nothing loaded and nothing playing, play starts the first station if there is one; otherwise it toggles pause; without a player nothing happens |
| Radio.NextTrack | main.py:405-408 | without a player or a playlist nothing happens |
| Radio.PrevTrack | main.py:410-413 | without a player or a playlist nothing happens |
| Radio.StepInRange | main.py:405-413 | stepping either way keeps the playlist, lands inside it from any starting index, and plays the track landed on |
| Radio.NextIndex | main.py:407 | the next index wraps into the playlist's range |
| Radio.PrevIndex | main.py:412 | the previous index wraps into the playlist's range |
| Radio.IndexStepsInverse | main.py:405-413 | on indices inside the playlist, next and previous undo each other |
| Radio.PrevNextInverse | main.py:405-413 | pressing previous after next, or next after previous, returns to the same track |
| RadioPage.FormatTimeRoundTrip | pages/radio_page.py:401-412 | the displayed time reads back as the number of seconds, and a negative time shows as zero |
| RadioPage.UpdateSelection | pages/radio_page.py:262-299 | redrawing the selection never changes the number of station buttons |
| RadioPage.UpdateSelectionSpec | pages/radio_page.py:262-299 | a valid station shows its upper-cased name, becomes the remembered index and the only highlighted button. Any other index shows "NO SIGNAL" and nothing is highlighted or remembered. The display stays tidy |
| RadioPage.Offline | pages/radio_page.py:212-234 | the offline state shows "RADIO OFFLINE" with no highlighted button and nothing remembered |
| RadioPage.ScanStations | pages/radio_page.py:345-399 | the scan builds one button per station found |
| RadioPage.ScanStationsSpec | pages/radio_page.py:345-399 | the station list is the directory names in name order, and the rebuilt display highlights at most the selected station |
| Vehicle.InitialObd | pages/vehicle_page.py:174-182 | a new page is not connected or connecting, runs no diagnostics, and has no gauges |
| Vehicle.SupportedCommands | pages/vehicle_page.py:165-172 | the page knows six gauge commands |
| Vehicle.Connect | pages/vehicle_page.py:361-376 | a connection attempt starts exactly when the selection is a real port and the page is neither connecting nor connected. It then only marks the page as connecting; otherwise nothing changes |
| Vehicle.ConnectionEstablished | pages/vehicle_page.py:409-461 | a successful connection thread leaves the page connected, no longer connecting, with the gauges for the supported commands |
| Vehicle.ConnectionFailed | pages/vehicle_page.py:416-421 | a failed connection leaves the page disconnected with no gauges |
| Vehicle.Disconnect | pages/vehicle_page.py:378-392 | after a disconnect there is no connection object, no connection flag and no gauge, and the diagnostics flags and ports are as they were |
| Vehicle.AdapterPorts | pages/vehicle_page.py:350 | the scan keeps at most one device path per reported port |
| Vehicle.AdapterPortsSpec | pages/vehicle_page.py:350 | a device path is kept exactly when some reported port with that path has "ttyUSB" or "ttyACM" in its name |
| Vehicle.PortChoice | pages/vehicle_page.py:351-356 | the dropdown selects the first port found, or the "No ports found..." placeholder when there is none |
| Vehicle.OnShow | pages/vehicle_page.py:276-282 | showing the page rescans the ports when both libraries are present and changes nothing else; without them nothing changes |
| Vehicle.ScanThenConnect | pages/vehicle_page.py:339-376 | after a scan that found no adapter, Connect with the placeholder does nothing; after one that found some, Connect with the first of them starts connecting from an idle page |
| Vehicle.DisconnectIdempotent | pages/vehicle_page.py:378-392 | disconnecting twice is disconnecting once |
| Vehicle.ConnectThenDisconnect | pages/vehicle_page.py:361-392 | from a disconnected page, a real port starts a connection attempt, and a disconnect restores the page exactly |
| Vehicle.ReadDtcs | pages/vehicle_page.py:503-514 | a read is in progress afterwards exactly when one already was or the page is connected; nothing else changes |
| Vehicle.ClearDtcs | pages/vehicle_page.py:552-566 | a clear is in progress afterwards exactly when one already was or the page is connected and the user confirmed; nothing else changes |
| Vehicle.ReadFinished | pages/vehicle_page.py:547-550 | the read thread's `finally` clears only the reading flag |
| Vehicle.ClearFinished | pages/vehicle_page.py:595-598 | the clear thread's `finally` clears only the clearing flag |
| Vehicle.ReadReentry | pages/vehicle_page.py:503-550 | a second read request during a read changes nothing, and a read can start again once the thread has finished |
| Vehicle.UnitLabel | pages/vehicle_page.py:445 | a gauge shows its conversion target upper-cased when it has one, otherwise the command's own unit |
| Vehicle.CreateGaugesLoop | pages/vehicle_page.py:427-461 | the loop creates one gauge per present and supported command, in order, each with that command's name, caption and unit label; the k-th gauge sits at row k/3, column k%3 |
| Vehicle.CreateGaugesSpec | pages/vehicle_page.py:435-459 | the reference gauge list is one gauge per wanted command, laid out three to a row |
| Vehicle.WantedSnoc | pages/vehicle_page.py:436-440 | the wanted commands of a longer list are those of the shorter one plus the new command when it is present and supported |
| Vehicle.NoGaugesWithoutCommands | pages/vehicle_page.py:436-439 | when the library's command objects are missing, no gauge is created whatever the car supports |
| Vehicle.RunTimeParts | pages/vehicle_page.py:485-487 | the hours, minutes and seconds recompose the run time, with minutes and seconds below 60 |
| Vehicle.RunTimeRoundTrip | pages/vehicle_page.py:484-489 | under 100 hours the `HH:MM:SS` display reads back as the number of seconds |
| Vehicle.UpdateUiState | pages/vehicle_page.py:291-337 | the two diagnostics buttons are enabled together, exactly when the libraries are present, the page is connected and no diagnostics run. Disconnect shows exactly when connected. Connect is enabled exactly when idle with ports; scan exactly when idle |
| Vehicle.ButtonsFollowThreads | pages/vehicle_page.py:503-598 | while a read runs, the diagnostics buttons are disabled; once the threads finish they are enabled again |
| AiCommands.CloseAt | pages/ai_page.py:309 | the non-greedy body ends at the first "\|>" on the same line: the delimiter is there, and no earlier position holds a newline or a delimiter |
| AiCommands.CloseAtNone | pages/ai_page.py:309 | when no body is found, every closing delimiter comes after a newline |
| AiCommands.Tags | pages/ai_page.py:309-310 | no tag body the search reports spans a line break |
| AiCommands.RemoveAll | pages/ai_page.py:319 | the replace never makes the text longer |
| AiCommands.RemoveAllAbsent | pages/ai_page.py:319 | a replace of text that is not there changes nothing |
| AiCommands.ParseArgs | pages/ai_page.py:325 | the attribute comprehension succeeds exactly when every token splits on '=' into two parts; keys already present stay present |
| AiCommands.ParseTag | pages/ai_page.py:321-325 | a tag body fails to parse exactly when it is empty or has an attribute without exactly one '='. Otherwise the command name is its first word |
| AiCommands.IntArg | pages/ai_page.py:331-336 | `int()` of an attribute succeeds exactly when the attribute is present and is an integer literal, and then gives that integer |
| AiCommands.GpioActionWithoutState | pages/ai_page.py:330-333 | a GPIO command without a state always fails and changes nothing |
| AiCommands.Dispatch | pages/ai_page.py:327-345 | an unknown command answers "Unknown command." and changes nothing. A bad pin or interval is a parse error that changes nothing. Each known command with its arguments gives exactly the hub's answer and effect; a status query changes nothing |
| AiCommands.FeedbackLine | pages/ai_page.py:347 | each feedback line begins with "CMD: " and the command name |
| AiCommands.RunTags | pages/ai_page.py:315-349 | the run completes exactly when every tag parses, and then yields one feedback line per tag |
| AiCommands.AllParseAt | pages/ai_page.py:321-325 | when every tag parses, each single tag parses |
| AiCommands.RunTagsLines | pages/ai_page.py:315-349 | feedback line k reports the command of tag k |
| AiCommands.ProcessAiCommands | pages/ai_page.py:303-352 | the pass completes exactly when every tag parses; a reply without tags is returned stripped with no feedback and no effect |
| AiCommands.RenderedTags | pages/ai_page.py:309-319 | a reply composed of plain text and tags in the documented form holds exactly those tags in order, and the replaces leave exactly its plain text |
| AiCommands.ProcessRendered | pages/ai_page.py:303-352 | for such a reply the tags are dispatched in order, one feedback line each, and the text spoken is its plain text stripped |
| AiCommands.ProcessOneTag | pages/ai_page.py:303-352 | a reply with one parsing tag dispatches it once and reports one feedback line |
| AiCommands.ReadAttrToken | pages/ai_page.py:325 | an attribute `key="value"` splits into its key and quoted value, and the quotes strip off |
| AiCommands.ParseArgsRendered | pages/ai_page.py:325 | written attributes parse back into the dictionary they describe, a later key overriding an earlier one |
| AiCommands.ParseTagRendered | pages/ai_page.py:321-325 | a tag written as a name and attributes parses back into that name and dictionary |
| AiCommands.GpioAttrs | pages/ai_page.py:325 | `pin="n" state="s"` gives the dictionary with exactly those two entries |
| AiCommands.DispatchGpioCommand | pages/ai_page.py:330-333 | an `execute_gpio_command` with an integer pin and a state does exactly what `request_gpio_action` does |
| AiCommands.RenderCallSimple | pages/ai_page.py:309 | a tag written from pieces without '<', '\|' or newlines has a body of that kind too |
| AiCommands.SingleTagText | pages/ai_page.py:309-325 | a reply made of one written tag holds that tag, parses into its name and attributes, and leaves nothing once the tag is removed |
| AiCommands.GpioNameWord | pages/ai_page.py:330 | the GPIO command name is a single plain word |
| AiCommands.GpioTagPieces | pages/ai_page.py:325 | a pin number and a plain state word form well-written attributes |
| AiCommands.GpioTagText | pages/ai_page.py:309-325 | a lone GPIO command tag is found, parses into its pin and state, and leaves nothing once removed |
| AiCommands.GpioCommandTag | pages/ai_page.py:303-352 | a reply that is only a GPIO command tag does what `request_gpio_action` does, gives one feedback line, and leaves nothing to speak |
| AiCommands.ReformedText | pages/ai_page.py:309-319 | in "<<\|x\|>\|x\|>" one tag is found, and removing it joins the rest into that same tag |
| AiCommands.TagReformed | pages/ai_page.py:303-352 | removing a tag can form a new one, so a tag can remain in the text returned for speaking |
| AiCommands.EmptyTagCrashes | pages/ai_page.py:321-322 | an empty tag raises before any feedback, with nothing dispatched |
| AiCommands.BareWordUnparsed | pages/ai_page.py:325 | an attribute without '=' does not parse |
| AiCommands.BareWordText | pages/ai_page.py:309-325 | a tag followed by one with a bare attribute yields both tags, and the second does not parse |
| AiCommands.BareWordCrashes | pages/ai_page.py:315-345 | a bare attribute raises instead of giving a FAIL line, after the tags before it have been dispatched |
| AiCommands.DispatchKeepsConsistency | pages/ai_page.py:327-345 | every dispatch keeps the hub's page dictionary and its consistency |
| AiCommands.RunTagsInvariant | pages/ai_page.py:315-349 | a run over the tags keeps any invariant each dispatch keeps |
| AiCommands.ProcessKeepsConsistency | pages/ai_page.py:303-352 | processing a reply, completed or not, keeps the hub consistent and its pages unchanged |
| AiCommands.TagsRender | pages/ai_page.py:309-310 | the search finds exactly the tags a composed reply was built from, in order |
| AiCommands.RemoveRender | pages/ai_page.py:319 | replacing one tag's text in a composed reply removes exactly the segments of that tag |
| AiCommands.CleanedRender | pages/ai_page.py:315-319 | the replaces, applied in turn, remove exactly the segments of the tags replaced |
| AiChat.AddMessage | pages/ai_page.py:200-213 | every message adds one bubble. Only finished user and assistant messages enter the history, as "user" or "model"; a streaming bubble becomes the one that receives the answer |
| AiChat.ModePrompt | pages/ai_page.py:125-126 | "code" and "cmd" select their own prompts, and every other name selects the default prompt |
| AiChat.Capitalize | pages/ai_page.py:127 | the mode name is announced with its first letter upper-case and the rest lower-case, at the same length |
| AiChat.SetMode | pages/ai_page.py:124-128 | switching mode sets the prompt the name selects, announces it in a system bubble, and leaves the history alone |
| AiChat.ModeButtons | pages/ai_page.py:120-126 | each sidebar button selects its own prompt; any other name selects the default one |
| AiChat.ContextLines | pages/ai_page.py:235-237 | the context has one line per entry, labelled with its speaker |
| AiChat.Window | pages/ai_page.py:235 | for at least one turn the context takes the last `2 * num_turns` entries, or all of them when there are fewer; zero turns takes everything |
| AiChat.LineWithoutNewline | pages/ai_page.py:236-237 | a context line has no line break when its message has none |
| AiChat.ContextReadsBack | pages/ai_page.py:233-238 | with no newline in any message, the context splits back into exactly the lines of the last `2 * num_turns` entries |
| AiChat.ZeroTurnsIsEverything | pages/ai_page.py:235 | zero turns would send the whole history, because `[-0:]` is `[0:]` |
| AiChat.DropSlashes | pages/ai_page.py:224 | removing the slashes leaves no slash, keeps every other character as often as it occurs, and leaves a slash-free text as it was |
| AiChat.DropSlashesAppend | pages/ai_page.py:224 | removing the slashes from two texts in a row removes them from each |
| AiChat.SlashCommandNames | pages/ai_page.py:223-224 | "/code", "/chat" and "/cmd" become the mode names "code", "chat" and "cmd" |
| AiChat.SendMessage | pages/ai_page.py:215-231 | nothing is sent while thinking or for blank input. Otherwise the stripped query enters the history. "/code" and "/cmd" in any case select their own prompts and "/chat" the default one, without asking. Any other query opens a streaming bubble, starts thinking, and asks the question with the current prompt and a context that already holds the query |
| AiChat.QuestionRepeatsQuery | pages/ai_page.py:215-244 | the context sent with a question ends with that question, which the prompt then repeats |
| AiChat.ReceiveChunk | pages/ai_page.py:275-278 | a chunk extends the answer while a streaming bubble is open and is dropped otherwise; the history is untouched |
| AiChat.ReceiveAll | pages/ai_page.py:262-278 | receiving chunks never changes the history or the thinking and streaming flags |
| AiChat.ReceiveAllResponse | pages/ai_page.py:275-278 | while the bubble is open, the answer is the chunks run together |
| AiChat.FinishStream | pages/ai_page.py:265-301 | the end of the stream stops thinking. A completed answer enters the history as one "model" entry, and the buffer and bubble are cleared. When processing the tags raised, the answer is left out of the history |
| AiChat.AskOrdinary | pages/ai_page.py:215-231 | an ordinary question leaves the page streaming with an empty answer and the question in the history |
| AiChat.Exchange | pages/ai_page.py:215-301 | a question, its streamed answer and a normal end add exactly the question and the whole answer to the history, and the page is ready again |
| Morse.CommaHasNoCode | pages/settings_page.py:34-44 | the table as written keys the comma under the two characters ", ", so a comma in a message finds no code; the corrected table has the comma's code |
| Morse.EntryKeysAreCharacters | pages/settings_page.py:34-44 | every key of the corrected table is one character, and the corrected table agrees with the table as written on every character except the comma |
| Morse.Thread | pages/settings_page.py:209-252 | the thread produces a schedule exactly when the pin could be opened, and a schedule always ends by switching the LED off. A pin that cannot be opened is reported with the library's error text |
| Morse.ElapsedAppend | pages/settings_page.py:209-241 | the time two schedules take in a row is the sum of their times |
| Morse.SymbolsStopped | pages/settings_page.py:230-236 | the symbols sent under a stop are a prefix of those sent without one; when they fall short, the stop had been seen when they ended |
| Morse.CharStepsStopped | pages/settings_page.py:221-239 | a stop cuts what one character sends to a prefix of its unstopped steps, and when it cuts them short the stop has been seen by the time they end |
| Morse.StoppedIsPrefix | pages/settings_page.py:217-239 | a stopped broadcast sends a prefix of what the unstopped broadcast sends: a stop never changes a step, it only cuts the rest off |
| Morse.SymbolsEndSoonAfterStop | pages/settings_page.py:230-236 | the symbols of one letter end no later than three dot lengths after the stop request |
| Morse.CharStepsEndSoon | pages/settings_page.py:218-239 | whatever one character sends, when the check before it found no stop, ends no later than three dot lengths after the stop request |
| Morse.EndTimeElapsed | pages/settings_page.py:218-239 | the loop over the message gives up exactly when the time its steps take has passed |
| Morse.EndTimeSoon | pages/settings_page.py:218-239 | a loop started no later than three units after the stop gives up no later than three units after it |
| Morse.EndsSoonAfterStop | pages/settings_page.py:217-239 | everything a stopped broadcast sends ends no later than three dot lengths after the stop request |
| Morse.SymbolsLeaveLedOff | pages/settings_page.py:230-236 | the symbols of a letter, stopped or not, leave the LED off |
| Morse.CharStepsDark | pages/settings_page.py:221-239 | what one character sends, an unknown character, a word space or a letter, leaves the LED off |
| Morse.LeavesLedOff | pages/settings_page.py:217-239 | no stop leaves the LED lit: the stop is checked only between elements, and each element switches the LED off |
| Morse.SymbolsEndDark | pages/settings_page.py:230-236 | an unstopped letter ends with the LED switching off and one unit of element gap |
| Morse.WordSpacing | pages/settings_page.py:211-239 | between two letters separated by a space the LED is dark for seven units, and a letter alone is followed by the three units of a letter gap |
| Morse.SymbolsAnyStart | pages/settings_page.py:230-236 | without a stop, a letter's symbols do not depend on when they start |
| Morse.CommaSentAsGap | pages/settings_page.py:223-226 | with the table as written, a comma is sent as three units of darkness; with the corrected table it is sent as its six elements |
| Morse.StartBroadcast | pages/settings_page.py:173-201 | a broadcast starts exactly when the library is present, none is running, both numbers parse, the dot length is positive and the message is not blank. It then sends the stripped, upper-cased message, with a fresh stop event and only Stop enabled. The refusals are checked in that order and change nothing |
| Morse.ReadNumbers | pages/settings_page.py:182-189 | the two fields are read exactly when both are integers and the dot length is positive |
| Morse.StopBroadcast | pages/settings_page.py:203-207 | only a running broadcast is told to stop, and nothing else changes |
| Morse.Finished | pages/settings_page.py:246-258 | after the thread ends, Broadcast is enabled and Stop is disabled |
| Morse.UpperStripped | pages/settings_page.py:191 | stripping and upper-casing a non-blank text gives a non-empty message without edge whitespace or lower-case letters |
| Morse.StartedMessageShape | pages/settings_page.py:191-198 | the message a broadcast starts with is in that form |
| Morse.StepsKeepButtonsAgreeing | pages/settings_page.py:168-258 | building the page, starting, stopping and finishing all keep the buttons in agreement with the thread |
| Morse.RestartClearsStop | pages/settings_page.py:197 | a new broadcast starts with the stop event cleared, even after a stopped one |
| Terminal.TextAppend | pages/terminal_page.py:123-130 | writing a piece adds exactly its text to the end of the box |
| Terminal.StartShell | pages/terminal_page.py:74-83 | the page has a shell exactly when the library is present and the spawn succeeded. Then the box is empty; otherwise it holds one CRITICAL message |
| Terminal.TerminatedAppend | pages/terminal_page.py:111-112 | writing one more line back adds that line and its line end |
| Terminal.TerminatedIsJoin | pages/terminal_page.py:109-112 | the lines written back, followed by the unfinished rest, are the joined text |
| Terminal.ReadChunk | pages/terminal_page.py:105-112 | the lines written back plus the new buffer are exactly the old buffer plus the chunk. No line holds a line end; the rest holds none after a non-empty chunk; an empty chunk writes nothing |
| Terminal.ChunkIsSplit | pages/terminal_page.py:109-112 | the lines written back and the rest are exactly Python's `split('\n')` of the buffered text |
| Terminal.LinePieces | pages/terminal_page.py:112 | each complete line is written back once, in order, with its line end and the STDOUT tag |
| Terminal.Receive | pages/terminal_page.py:100-112 | one read keeps everything: the box plus the buffer gain exactly the data read. Earlier output is untouched, and every new piece is a STDOUT line |
| Terminal.ReceivedText | pages/terminal_page.py:109-112 | the box gains the lines, so box and buffer together still hold all the data |
| Terminal.TextConcat | pages/terminal_page.py:123-130 | the text of two runs of pieces is the two texts in a row |
| Terminal.EndOfFile | pages/terminal_page.py:115-119 | at end of file a non-empty buffer is flushed with a line end, and the termination banner is the last piece |
| Terminal.SessionKeepsEverything | pages/terminal_page.py:100-119 | over a session that ends at end of file, every character the shell sent is on the page, in order, before the banner, with one line end added to an unfinished last line |
| Terminal.EndSession | pages/terminal_page.py:102-121 | at end of file the buffer is flushed and the banner written; when the shell dies the loop stops and the buffer stays unshown; another error is shown as "--- TERMINAL ERROR: … ---" after the output |
| Terminal.SessionEnds | pages/terminal_page.py:100-121 | however the session ends, the page shows every complete line the shell sent, in order, followed by what that ending adds: the flushed rest and the banner, nothing, or the error line |
| Terminal.SendCommand | pages/terminal_page.py:93-98 | a blank entry or a missing or dead shell changes nothing. Otherwise the stripped command is echoed as "$ cmd" with the COMMAND tag, sent to the shell, and the entry is cleared |
| Terminal.Cleanup | pages/terminal_page.py:132-135 | a live shell is closed; otherwise nothing changes; the output is untouched |
| Terminal.LevelTag | pages/terminal_page.py:140-148 | each record gets one of the five level tags, and a tag other than INFO means exactly that level |
| Terminal.LevelTags | pages/terminal_page.py:140-148 | the five standard levels get their own tags back, and any other level gets INFO |
| Terminal.Log | pages/terminal_page.py:147-152 | a log record is written as its formatted text on a line of its own, with its level's tag |
| Terminal.GetHistory | pages/terminal_page.py:85-91 | the two fixed answers are given when reading the widget raises or the widget is gone |
| Terminal.HistoryTail | pages/terminal_page.py:85-89 | for a positive count the history splits back into at most that many lines, and they are the text's last lines |
| Terminal.HistoryZero | pages/terminal_page.py:88 | a count of zero gives back the whole stripped text, because `[-0:]` keeps every line |
| FileBrowser.Parent | pages/file_browser_page.py:324-326 | below the root, the parent followed by the path's name is the path; the root is its own parent |
| FileBrowser.LoadCache | pages/file_browser_page.py:246-258 | a directory that cannot be listed gives an empty cache. No cached name starts with '.'. Every listed entry that is not hidden and still exists is cached, and every cached entry was listed and still existed |
| FileBrowser.Visible | pages/file_browser_page.py:248-254 | the scan keeps exactly the listed entries that are not hidden and still exist |
| FileBrowser.DisplayOrder | pages/file_browser_page.py:270-293 | the listing shows every cached entry exactly as often as it is cached, with all directories before all files |
| FileBrowser.GroupsFollowCriterion | pages/file_browser_page.py:279-293 | within the directories, and within the files, the listing follows the criterion in the chosen direction and keeps the cached order among ties |
| FileBrowser.InitialBrowser | pages/file_browser_page.py:126-134 | the page starts with an empty clipboard, no selection, and ascending name order |
| FileBrowser.Navigate | pages/file_browser_page.py:234-265 | a path that is not a directory is refused and changes nothing. Otherwise it becomes the current directory, the selection is cleared, and its listing is cached |
| FileBrowser.GoUp | pages/file_browser_page.py:324-326 | at the root going up changes nothing; elsewhere it moves to the parent and clears the selection |
| FileBrowser.GoUpReachesRoot | pages/file_browser_page.py:324-326 | going up shortens the path by exactly one component, and at the root it stays put |
| FileBrowser.Select | pages/file_browser_page.py:328-333 | the clicked entry becomes the only selection; directory and clipboard are untouched |
| FileBrowser.CopyItem | pages/file_browser_page.py:481-483 | copy puts the path on the clipboard for copying |
| FileBrowser.CutItem | pages/file_browser_page.py:485-487 | cut puts the path on the clipboard for moving |
| FileBrowser.ClearClipboard | pages/file_browser_page.py:538-540 | clearing empties the clipboard |
| FileBrowser.Paste | pages/file_browser_page.py:489-536 | a missing source is refused with "Source item does not exist.". A paste runs exactly when the source exists and the destination is free or the user agreed to overwrite. It copies or moves the source into the current directory under its own name, as the clipboard says |
| FileBrowser.JobDone | pages/file_browser_page.py:472-479 | only a move that succeeded clears the clipboard. Success or failure, the current directory is then refreshed: when it is still a directory its listing is re-read and the selection cleared; otherwise nothing else changes |
| FileBrowser.PasteAgain | pages/file_browser_page.py:489-540 | after a paste and its refresh, Paste stays enabled exactly when the item was copied or the move failed |
| FileBrowser.Rename | pages/file_browser_page.py:551-562 | a cancelled, empty or unchanged name does nothing. A rename runs exactly when the parent joined with the answer, as pathlib joins it, does not exist; otherwise it is refused with "'name' already exists." |
| FileBrowser.CreateFolder | pages/file_browser_page.py:564-574 | a cancelled or empty name does nothing. A folder is created exactly when the current directory joined with the answer, as pathlib joins it, does not exist; otherwise it is refused with "'name' already exists." |
| FileBrowser.NeverOverwrites | pages/file_browser_page.py:551-574 | neither a rename nor a new folder is ever started onto a path that exists, and a plain name stays in the same directory |
| FileBrowser.JoinAnswerParts | pages/file_browser_page.py:557 | joining pieces with "/" and handing them to the join gives back the base extended by those pieces; with a leading "/" it gives exactly those pieces |
| FileBrowser.JoinOneName | pages/file_browser_page.py:569 | a plain name is one more component under the base |
| FileBrowser.RenameCanLeaveDirectory | pages/file_browser_page.py:557-561 | an answer with ".." or a leading "/" sends the rename outside the item's directory |
| ProcessViewer.HeaderFor | pages/process_viewer.py:67-69 | a column's configuration is the header with that attribute, and an unknown attribute has none |
| ProcessViewer.ColumnDefaults | pages/process_viewer.py:41-48 | only the CPU and memory columns start descending, and Disk R/W is a label rather than a sort button |
| ProcessViewer.OpenViewer | pages/process_viewer.py:51-72 | the window opens sorting in the column's configured direction, with no selection, no rows and Kill disabled |
| ProcessViewer.ChangeSort | pages/process_viewer.py:148-158 | clicking the current column flips its direction, and another column starts in its configured direction. Selection, rows and Kill are untouched |
| ProcessViewer.ChangeSortTwice | pages/process_viewer.py:148-158 | clicking the current column twice restores the window; a new column clicked twice ends opposite to its default |
| ProcessViewer.CaptionArrow | pages/process_viewer.py:160-167 | only the active column's caption carries an arrow, ▼ when reversed and ▲ otherwise |
| ProcessViewer.Select | pages/process_viewer.py:131-146 | clicking the selected process deselects it and disables Kill; clicking another one selects it and enables Kill |
| ProcessViewer.SelectCoherent | pages/process_viewer.py:131-146 | clicking a shown row keeps Kill enabled exactly when something is selected, and clicking a newly selected row again deselects it |
| ProcessViewer.Kill | pages/process_viewer.py:322-350 | nothing happens without a selection. The selected process is killed exactly when it still exists, the user confirms, and permission is granted |
| ProcessViewer.SortKeys | pages/process_viewer.py:212-227 | CPU and memory sort by their value, missing ones as 0. Name and user sort lower-cased, missing ones as "". Every other column sorts by pid |
| ProcessViewer.Rows | pages/process_viewer.py:280-296 | the rows are keyed by exactly the listed pids, and each pid's row shows that process |
| ProcessViewer.Refresh | pages/process_viewer.py:229-320 | a refresh lays out exactly the rows of the sorted fresh list and keeps the sort column and direction |
| ProcessViewer.RefreshReconciles | pages/process_viewer.py:229-320 | after a refresh the rows are keyed by exactly the fresh pids in sort order. A selection survives exactly when its process is still there, and Kill stays enabled exactly when something is selected |
| Browser.Normalize | pages/browser_page.py:95-100 | the address handed over always has a scheme and ends with the stripped entry. It is the stripped entry itself exactly when that already has a scheme |
| Browser.NormalizeIdempotent | pages/browser_page.py:95-100 | normalising an address the page produced changes nothing |
| Browser.LoadUrl | pages/browser_page.py:90-103 | pressing Go loads the normalised address; the entry is rewritten only when a scheme was added |
| Browser.LoadUrlTwice | pages/browser_page.py:90-103 | pressing Go twice loads the same address twice |
| Browser.OnShow | pages/browser_page.py:76-88 | the first showing puts the default address in front of the entry and loads it; later showings change nothing |
| Browser.ShowLoadsDefaultOnce | pages/browser_page.py:74-88 | showing the page again changes nothing, and a fresh page loads exactly the default address |
| Sandbox.PathJoin | pages/sandbox_page.py:164 | an absolute second part replaces the first; otherwise the result starts with the first part and ends with the second |
| Sandbox.JoinPlain | pages/sandbox_page.py:164 | a relative name joined onto a directory not ending in '/' gets exactly one separator |
| Sandbox.TrimTrailingSlashes | pages/sandbox_page.py:20 | the home used is the given one with exactly its trailing slashes removed |
| Sandbox.ExpandHome | pages/sandbox_page.py:20 | the expanded path is the home without trailing slashes, one "/", and the name |
| Sandbox.ExpandHomeJoin | pages/sandbox_page.py:20 | for a home that does not end in "/", expanding the name is the same as joining it |
| Sandbox.SandboxDirEnd | pages/sandbox_page.py:20 | the sandbox directory is never empty and ends in its own name |
| Sandbox.VenvDirLayout | pages/sandbox_page.py:24 | the environment is the `sandbox-venv` directory inside the sandbox |
| Sandbox.InterpreterLayout | pages/sandbox_page.py:25-29 | in an environment directory, Windows keeps the interpreter at `Scripts/python.exe` and other systems at `bin/python` |
| Sandbox.VenvPythonLayout | pages/sandbox_page.py:20-29 | the sandbox's interpreter is `sandbox-venv/Scripts/python.exe` on Windows and `sandbox-venv/bin/python` elsewhere |
| Sandbox.SaveScript | pages/sandbox_page.py:153-174 | a name is refused exactly when its stripped form is empty or contains '/' or '\\'. The script is saved exactly when the name is valid and the write goes through; it then holds the editor's text and no other file changes |
| Sandbox.SavedInSandbox | pages/sandbox_page.py:158-164 | a saved script lands directly inside the sandbox directory under exactly the stripped name |
| Sandbox.RunScript | pages/sandbox_page.py:176-202 | a script is launched exactly when it and the interpreter exist, with the interpreter and the script as arguments and the sandbox as working directory |
| Sandbox.SaveThenRun | pages/sandbox_page.py:153-202 | once the interpreter exists, running a script just saved launches that file |
| Sandbox.RunLeavesSandbox | pages/sandbox_page.py:183-202 | running does not repeat the name check: an absolute name that saving refuses is launched from outside the sandbox |
| Home.ArrangeOrders | pages/home_page.py:118-121 | the arranged menu holds exactly the declared entries. The last declared entry stays last, and the others are sorted by label |
| Home.MenuStrictlyOrdered | pages/home_page.py:104-120 | the labels of the shown pages other than Settings strictly increase |
| Home.MenuSameEntries | pages/home_page.py:104-116 | the shown pages other than Settings are the declared ones rearranged |
| Home.DeclaredArrangement | pages/home_page.py:104-121 | the declared pages come out in exactly the alphabetical order shown, with Settings last |
| Home.Place | pages/home_page.py:124-126 | the i-th icon's column is below four, and four times its row plus its column is i |
| Home.PlacesDistinct | pages/home_page.py:124-126 | no two icons share a cell, and a later icon is never in an earlier row |
| Home.MenuGrid | pages/home_page.py:104-126 | the eleven icons fill three rows, and Settings is in the third column of the last row |
| Sorting.SortByPerm | pages/home_page.py:119-120 | sorting rearranges its input and neither adds nor drops an entry |
| Sorting.SortBySorted | pages/file_browser_page.py:290 | the sorted list is ordered by its key, descending when reversed |
| Sorting.SortByStable | pages/file_browser_page.py:290-293 | sorting is stable: entries with equal keys keep their relative order |
| Sorting.SortedUnique | pages/home_page.py:119-120 | a list strictly ordered by a key is the only ordered rearrangement of its entries |
| PyText.StripIdempotent | pages/browser_page.py:95 | stripping twice is stripping once |
| PyText.SplitJoin | pages/terminal_page.py:88 | joining lines that hold no separator and splitting again gives the lines back |

## Left out

- Widgets, layout, colours, fonts, icons, images and `after` scheduling. Only the grid arithmetic for the home menu and the vehicle gauges is kept.
- Concurrency. The pulse, Morse, OBD/DTC, terminal reader, file-operation, text-to-speech and metadata threads are each a single atomic step. A join that times out is modelled by its observable outcome: the registry entry is removed.
- Hardware and media libraries: gpiozero/lgpio devices, python-obd, VLC, mutagen, pexpect and psutil. A device is an abstract kind with its lit state and duty cycle. The factory's success, the serial connection's outcome, the VLC player's presence and the process list are parameters.
- JSON file I/O. `save_persistent_states` is a pure snapshot that becomes the file's contents. `_load_pin_states` decodes a map with integer keys, so a malformed file is not modelled.
- Floating point:
  - PWM duty is in integer ten-thousandths, which is what `round(value, 4)` keeps;
  - pulse intervals are in integer milliseconds;
  - percentages in the process viewer are integers;
  - file times are whole seconds;
  - gauge value formatting, progress bars, `format_bytes`, volume and the track progress bar are omitted.
- Unicode: `lower()`/`upper()` change ASCII letters only. Whitespace is Python's full `str.isspace` set. `int()` reads only the ASCII digits '0' to '9', with '_' between digits.
- Paths are joined the POSIX way. The sandbox's Windows branch changes only the interpreter's location, not the separator.
- The secure comms, network scanner and system status pages wrap cryptography, sockets, scapy, nmap and psutil. They have no local logic worth a model. The status page's `get_specific_stat`, which the hub calls in `request_system_status`, is a parameter there.
- Static prompt texts. The tag grammar they document is what the AI command parser models.
- The random generator behind `random.shuffle`. Its draws are a parameter, and the exchanges follow the shuffle's loop from the last position down.
- Subprocess launches: opening or executing a file, deleting, reboot or poweroff, and creating the sandbox's virtual environment with its completion callback. Only the decision to launch and its arguments are modelled.
- The language model calls and text-to-speech of the AI page. The reply arrives as a sequence of chunks.
- The VLC metadata thread and now-playing text beyond the track title.
- Hub.ShowPage: the hub holds only the GPIO and vehicle pages, so the switcher does not apply `close_active_toplevel`, the settings page's `stop_broadcast`, the status and radio pages' `on_hide`, or the `on_show` of the other pages. Those effects are modelled by each page's own members, such as Browser.OnShow.
- FileBrowser.Navigate: the path is used as given. `resolve()` does not expand symbolic links or collapse "..", because the model has no file system to resolve against.
- GpioRegistry.HandleAiGpioRequest: a failing state-file write is not modelled. `save_persistent_states` catches the `IOError` of its own write (pages/gpio_page.py:376-381), so the request still succeeds.
- AiCommands.Dispatch: a pin's device fault is one value per pin. Two commands on the same pin in one reply meet the same fault.
- AiCommands.IntArg: the refusal quotes the text between single quotes. Python's `repr` also escapes special characters and switches to double quotes when the text holds a single quote; that is not modelled. Like PyText.ParseInt, it refuses text in other Unicode decimal digits, such as "١٧" or "１７", which Python's `int()` accepts.
- PyText.ParseInt: reads ASCII digits only. Python's `int()` also accepts every Unicode decimal digit, such as Arabic-Indic "١٧" or full-width "１７"; the model returns None for those.
- Morse.ReadNumbers: a pin or dot length written in non-ASCII decimal digits, such as "١٧", is refused, where `start_broadcast` would accept it. The reason is the one given for PyText.ParseInt.
- GpioRegistry.Snapshot: a saved record keeps only its mode and state. The `"is_persistent": True` key that `set_pin_persistence` writes is not modelled, because nothing reads it back.
- Radio.NextTrack: its contract states only the no-op case. The step itself is stated by Radio.StepInRange and Radio.PrevNextInverse.
- Radio.PrevTrack: its contract states only the no-op case. The step itself is stated by Radio.StepInRange and Radio.PrevNextInverse.
- Vehicle.SupportedCommands: its contract states only the number of gauge commands. Which commands they are and where each is placed is stated by Vehicle.CreateGaugesLoop.

## Findings

| source | as written | input that shows it | evidently intended | confidence | as-written member | corrected member |
|---|---|---|---|---|---|---|
| pages/gpio_page.py:327-356 | `_load_pin_states` loops over `persistent_pins` while `setup_pin` calls `cleanup_pin`, which pops from that dict and rewrites the state file. The next iteration step raises `RuntimeError` outside the `try`, so building the page fails and the file is left empty | a state file holding pin 17 as an output saved "HIGH" | every saved pin is set up again, with the state it was saved in, and the file keeps its records | not executed | GpioRestore.LoadRaisesAndEmptiesFile, GpioRestore.LoadOneSavedPin | GpioRestore.RestoreSaveRoundTrip |
| pages/settings_page.py:42 | the Morse table keys the comma as `", "` (comma and space). The broadcaster looks up one character at a time, so a comma never finds its code and is sent as a three-unit gap | the message "A,B" | the comma is keyed as `','` and sent as `--..--` | not executed | Morse.CommaHasNoCode, Morse.CommaSentAsGap | Morse.EntryKeysAreCharacters, Morse.CommaSentAsGap |

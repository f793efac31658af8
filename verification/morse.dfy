/**
 The Morse broadcaster on the Emergency tab of the settings page: the code
 table, the on/off schedule the broadcasting thread follows (in dot units),
 how a stop request cuts it short, and the checks made before a broadcast
 starts.
 */
module Morse {
  import opened Wrappers
  import opened PyText

  // ---------------------------------------------------------------------------
  // The code table
  // ---------------------------------------------------------------------------

  /** `MORSE_CODE_DICT[key]` as written. Its comma entry has the
      two-character key ", ", which no single character of a message can look
      up. */
  function SourceEntry(key: string): Option<string> {
    match key
    case "A" => Some(".-")    case "B" => Some("-...")  case "C" => Some("-.-.")
    case "D" => Some("-..")   case "E" => Some(".")     case "F" => Some("..-.")
    case "G" => Some("--.")   case "H" => Some("....")  case "I" => Some("..")
    case "J" => Some(".---")  case "K" => Some("-.-")   case "L" => Some(".-..")
    case "M" => Some("--")    case "N" => Some("-.")    case "O" => Some("---")
    case "P" => Some(".--.")  case "Q" => Some("--.-")  case "R" => Some(".-.")
    case "S" => Some("...")   case "T" => Some("-")     case "U" => Some("..-")
    case "V" => Some("...-")  case "W" => Some(".--")   case "X" => Some("-..-")
    case "Y" => Some("-.--")  case "Z" => Some("--..")
    case "1" => Some(".----") case "2" => Some("..---") case "3" => Some("...--")
    case "4" => Some("....-") case "5" => Some(".....") case "6" => Some("-....")
    case "7" => Some("--...") case "8" => Some("---..") case "9" => Some("----.")
    case "0" => Some("-----")
    case ", " => Some("--..--") case "." => Some(".-.-.-") case "?" => Some("..--..")
    case "/" => Some("-..-.")   case "-" => Some("-....-") case "(" => Some("-.--.")
    case ")" => Some("-.--.-")  case " " => Some("/")
    case _ => None
  }

  /** The table with the comma keyed by the comma itself. */
  function Entry(key: string): Option<string> {
    if key == ", " then None
    else if key == "," then Some("--..--")
    else SourceEntry(key)
  }

  /** `MORSE_CODE_DICT.get(char)` on the table as written. */
  function SourceCode(c: char): Option<string> {
    SourceEntry([c])
  }

  /** `MORSE_CODE_DICT.get(char)` on the corrected table. */
  function Code(c: char): Option<string> {
    Entry([c])
  }

  /** The source table's comma entry can never be found: a comma in a message
      is sent as an unknown character, while the corrected table has its
      code. */
  lemma CommaHasNoCode()
    ensures SourceEntry(", ") == Some("--..--") && |", "| != 1
    ensures SourceCode(',') == None
    ensures Code(',') == Some("--..--")
  {
  }

  /** In the corrected table every key is a single character, so every entry
      is reachable from a message; apart from the comma the two tables agree
      on every character. */
  lemma EntryKeysAreCharacters(key: string, c: char)
    ensures Entry(key).Some? ==> |key| == 1
    ensures c != ',' ==> Code(c) == SourceCode(c)
  {
  }

  // ---------------------------------------------------------------------------
  // The schedule
  // ---------------------------------------------------------------------------

  /** What the thread does to the LED: switch it on, switch it off, or sleep
      for a number of dot lengths. */
  datatype Step = On | Off | Wait(units: nat)

  /** The time a schedule takes, in dot lengths. */
  function Elapsed(steps: seq<Step>): nat {
    if steps == [] then 0
    else (if steps[0].Wait? then steps[0].units else 0) + Elapsed(steps[1..])
  }

  /** `stop_morse_event.is_set()` at time `t`: the stop was requested at or
      before `t`. `None` is a broadcast nobody stops. */
  predicate Seen(stop: Option<nat>, t: nat) {
    stop.Some? && stop.value <= t
  }

  /** Light time of one symbol: a dot lasts one unit, a dash three; any other
      symbol (none occurs in the table) does not sleep at all. */
  function SymbolUnits(s: char): nat {
    if s == '.' then 1 else if s == '-' then 3 else 0
  }

  /** One element: the LED on for `d` units, then off for the one-unit gap
      between elements. */
  function Element(d: nat): seq<Step> {
    [On, Wait(d), Off, Wait(1)]
  }

  /** The inner loop over the symbols of one code, started at time `t`: the
      stop is checked before each symbol; each symbol is the LED on for its
      length, off, and one unit of gap. */
  function Symbols(code: string, t: nat, stop: Option<nat>): seq<Step>
    decreases |code|
  {
    if code == [] || Seen(stop, t) then []
    else
      var d := SymbolUnits(code[0]);
      Element(d) + Symbols(code[1..], t + d + 1, stop)
  }

  /** The pause after a letter whose symbols ended at `t1`: the letter gap
      less the element gap (two units), unless the stop came during the
      symbols, in which case the thread goes straight back to the check. */
  function LetterGap(stop: Option<nat>, t1: nat): seq<Step> {
    if Seen(stop, t1) then [] else [Wait(2)]
  }

  /** What the outer loop sends for one character whose table entry is
      `entry`, starting at time `t`: an unknown character sleeps a letter gap
      (three units), a space sleeps the word gap less the letter gap (four
      units), and a letter sends its symbols and then its gap. */
  function CharSteps(entry: Option<string>, t: nat, stop: Option<nat>): seq<Step> {
    match entry
    case None => [Wait(3)]
    case Some(code) =>
      if code == "/" then [Wait(4)]
      else
        var s := Symbols(code, t, stop);
        s + LetterGap(stop, t + Elapsed(s))
  }

  /** The outer loop over the message, started at time `t`: the stop is
      checked before each character, whose steps are followed by the rest of
      the message from the time they end. */
  function Chars(table: char -> Option<string>, msg: string, t: nat, stop: Option<nat>): seq<Step>
    decreases |msg|
  {
    if msg == [] || Seen(stop, t) then []
    else
      var h := CharSteps(table(msg[0]), t, stop);
      h + Chars(table, msg[1..], t + Elapsed(h), stop)
  }

  /** What a broadcast thread did: the schedule, or the pin could not be
      opened (`GPIOZeroError` from `LED(pin)`, reported in a dialog). */
  datatype Broadcast = Sent(steps: seq<Step>) | PinFailed(message: string)

  /** `_morse_code_thread`: `ledError` is the `GPIOZeroError` text when
      `LED(pin)` raised; the `finally` block switches the LED off. */
  function Thread(table: char -> Option<string>, msg: string, pin: int, ledError: Option<string>, stop: Option<nat>): (b: Broadcast)
    ensures b.Sent? <==> ledError.None?
    ensures b.Sent? ==> |b.steps| >= 1 && b.steps[|b.steps| - 1] == Off
    ensures ledError.Some? ==>
              b.message == "Failed to control pin " + IntToString(pin) + ".\nIs it valid or already in use?\n\nError: " + ledError.value
  {
    match ledError
    case Some(e) => PinFailed("Failed to control pin " + IntToString(pin) + ".\nIs it valid or already in use?\n\nError: " + e)
    case None => Sent(Chars(table, msg, 0, stop) + [Off])
  }

  // ---------------------------------------------------------------------------
  // Properties of the schedule
  // ---------------------------------------------------------------------------

  lemma {:induction false} ElapsedAppend(a: seq<Step>, b: seq<Step>)
    ensures Elapsed(a + b) == Elapsed(a) + Elapsed(b)
    decreases |a|
  {
    if a != [] {
      assert (a + b)[1..] == a[1..] + b;
      assert (a + b)[0] == a[0];
      ElapsedAppend(a[1..], b);
    } else {
      assert a + b == b;
    }
  }

  /** An element takes its light time plus one unit, and leaves the LED off. */
  lemma ElementFacts(d: nat, lit: bool)
    ensures Elapsed(Element(d)) == d + 1
    ensures LitAfter(lit, Element(d)) == false
  {
    var e := Element(d);
    assert e[1..] == [Wait(d), Off, Wait(1)];
    assert e[1..][1..] == [Off, Wait(1)];
    assert e[1..][1..][1..] == [Wait(1)];
    assert e[1..][1..][1..][1..] == [];
    assert Elapsed([Wait(1)]) == 1;
    assert Elapsed([Off, Wait(1)]) == 1;
    assert Elapsed([Wait(d), Off, Wait(1)]) == d + 1;
    assert LitAfter(false, [Wait(1)]) == false;
    assert LitAfter(false, [Off, Wait(1)]) == false;
    assert LitAfter(true, [Wait(d), Off, Wait(1)]) == false;
  }

  /** A single wait takes its units. */
  lemma WaitElapsed(u: nat)
    ensures Elapsed([Wait(u)]) == u
  {
    assert [Wait(u)][1..] == [];
  }

  predicate IsPrefix(a: seq<Step>, b: seq<Step>) {
    |a| <= |b| && b[..|a|] == a
  }

  lemma PrefixExtend(a: seq<Step>, b: seq<Step>, c: seq<Step>)
    requires IsPrefix(a, b)
    ensures IsPrefix(a, b + c)
  {
    assert (b + c)[..|a|] == b[..|a|];
  }

  lemma PrefixBoth(p: seq<Step>, a: seq<Step>, b: seq<Step>)
    requires IsPrefix(a, b)
    ensures IsPrefix(p + a, p + b)
  {
    assert (p + b)[..|p + a|] == p + b[..|a|];
  }

  /** The symbols of a code under a stop are a prefix of the unstopped ones;
      when they fall short, the stop had been seen by the time they ended. */
  lemma {:induction false} SymbolsStopped(code: string, t: nat, T: nat)
    ensures IsPrefix(Symbols(code, t, Some(T)), Symbols(code, t, None))
    ensures Symbols(code, t, Some(T)) != Symbols(code, t, None) ==>
              Seen(Some(T), t + Elapsed(Symbols(code, t, Some(T))))
    decreases |code|
  {
    if code != [] && !Seen(Some(T), t) {
      var d := SymbolUnits(code[0]);
      var rest := Symbols(code[1..], t + d + 1, Some(T));
      SymbolsStopped(code[1..], t + d + 1, T);
      PrefixBoth(Element(d), rest, Symbols(code[1..], t + d + 1, None));
      ElapsedAppend(Element(d), rest);
      ElementFacts(d, false);
    }
  }

  /** A stopped broadcast sends a prefix of what the unstopped one sends: a
      stop never changes a step, it only cuts the rest off. */
  lemma {:induction false} StoppedIsPrefix(table: char -> Option<string>, msg: string, t: nat, T: nat)
    ensures IsPrefix(Chars(table, msg, t, Some(T)), Chars(table, msg, t, None))
    decreases |msg|
  {
    if msg != [] && !Seen(Some(T), t) {
      var cut := CharSteps(table(msg[0]), t, Some(T));
      var full := CharSteps(table(msg[0]), t, None);
      var rest := Chars(table, msg[1..], t + Elapsed(full), None);
      CharStepsStopped(table(msg[0]), t, T);
      if cut == full {
        StoppedIsPrefix(table, msg[1..], t + Elapsed(full), T);
        PrefixBoth(full, Chars(table, msg[1..], t + Elapsed(full), Some(T)), rest);
      } else {
        assert Chars(table, msg[1..], t + Elapsed(cut), Some(T)) == [];
        assert Chars(table, msg, t, Some(T)) == cut + [];
        PrefixExtend(cut, full, rest);
      }
    }
  }

  /** A stop cuts one character's steps to a prefix of its unstopped ones;
      when it cut them short, it has been seen by the time they end. */
  lemma CharStepsStopped(entry: Option<string>, t: nat, T: nat)
    ensures IsPrefix(CharSteps(entry, t, Some(T)), CharSteps(entry, t, None))
    ensures CharSteps(entry, t, Some(T)) != CharSteps(entry, t, None) ==>
              Seen(Some(T), t + Elapsed(CharSteps(entry, t, Some(T))))
  {
    if entry.Some? && entry.value != "/" {
      var code := entry.value;
      var s := Symbols(code, t, Some(T));
      var full := Symbols(code, t, None);
      SymbolsStopped(code, t, T);
      if Seen(Some(T), t + Elapsed(s)) {
        assert CharSteps(entry, t, Some(T)) == s;
        assert CharSteps(entry, t, None) == full + [Wait(2)];
        PrefixExtend(s, full, [Wait(2)]);
      } else {
        assert s == full;
      }
    }
  }

  /** The broadcast reacts to a stop quickly: a check that still lets it go on
      comes at most four units before the next one, so everything it sends
      ends no later than three units after the stop was requested (times are
      whole dot lengths). */
  lemma {:induction false} SymbolsEndSoonAfterStop(code: string, t: nat, T: nat)
    requires t <= T + 3
    ensures t + Elapsed(Symbols(code, t, Some(T))) <= T + 3
    decreases |code|
  {
    if code != [] && !Seen(Some(T), t) {
      var d := SymbolUnits(code[0]);
      SymbolsEndSoonAfterStop(code[1..], t + d + 1, T);
      ElapsedAppend(Element(d), Symbols(code[1..], t + d + 1, Some(T)));
      ElementFacts(d, false);
    }
  }

  /** The steps for one character that starts before the stop end by
      three units after it. */
  lemma CharStepsEndSoon(entry: Option<string>, t: nat, T: nat)
    requires t <= T + 3 && !Seen(Some(T), t)
    ensures t + Elapsed(CharSteps(entry, t, Some(T))) <= T + 3
  {
    WaitElapsed(2);
    WaitElapsed(3);
    WaitElapsed(4);
    if entry.Some? && entry.value != "/" {
      var s := Symbols(entry.value, t, Some(T));
      SymbolsEndSoonAfterStop(entry.value, t, T);
      ElapsedAppend(s, LetterGap(Some(T), t + Elapsed(s)));
    }
  }

  /** The time the outer loop gives up, started at time `t`. */
  function EndTime(table: char -> Option<string>, msg: string, t: nat, stop: Option<nat>): nat
    decreases |msg|
  {
    if msg == [] || Seen(stop, t) then t
    else EndTime(table, msg[1..], t + Elapsed(CharSteps(table(msg[0]), t, stop)), stop)
  }

  /** The outer loop gives up when its steps have all been taken. */
  lemma {:induction false} EndTimeElapsed(table: char -> Option<string>, msg: string, t: nat, stop: Option<nat>)
    ensures EndTime(table, msg, t, stop) == t + Elapsed(Chars(table, msg, t, stop))
    decreases |msg|
  {
    if msg != [] && !Seen(stop, t) {
      var h := CharSteps(table(msg[0]), t, stop);
      var t' := t + Elapsed(h);
      var rest := Chars(table, msg[1..], t', stop);
      calc {
        EndTime(table, msg, t, stop);
        EndTime(table, msg[1..], t', stop);
        { EndTimeElapsed(table, msg[1..], t', stop); }
        t' + Elapsed(rest);
        { ElapsedAppend(h, rest); }
        t + Elapsed(h + rest);
        { CharsUnfold(table, msg, t, stop); }
        t + Elapsed(Chars(table, msg, t, stop));
      }
    } else {
      assert Chars(table, msg, t, stop) == [];
    }
  }

  lemma {:induction false} EndsSoonAfterStop(table: char -> Option<string>, msg: string, t: nat, T: nat)
    requires t <= T + 3
    ensures t + Elapsed(Chars(table, msg, t, Some(T))) <= T + 3
  {
    EndTimeSoon(table, msg, t, T);
    EndTimeElapsed(table, msg, t, Some(T));
  }

  lemma {:induction false} EndTimeSoon(table: char -> Option<string>, msg: string, t: nat, T: nat)
    requires t <= T + 3
    ensures EndTime(table, msg, t, Some(T)) <= T + 3
    decreases |msg|
  {
    if msg != [] && !Seen(Some(T), t) {
      CharStepsEndSoon(table(msg[0]), t, T);
      EndTimeSoon(table, msg[1..], t + Elapsed(CharSteps(table(msg[0]), t, Some(T))), T);
    }
  }

  /** One turn of the outer loop. */
  lemma CharsUnfold(table: char -> Option<string>, msg: string, t: nat, stop: Option<nat>)
    requires msg != [] && !Seen(stop, t)
    ensures var h := CharSteps(table(msg[0]), t, stop);
            Chars(table, msg, t, stop) == h + Chars(table, msg[1..], t + Elapsed(h), stop)
  {
  }

  /** Whether the LED is lit after a run of steps, starting from `lit`. */
  function LitAfter(lit: bool, steps: seq<Step>): bool
    decreases |steps|
  {
    if steps == [] then lit
    else LitAfter(if steps[0] == On then true else if steps[0] == Off then false else lit, steps[1..])
  }

  lemma {:induction false} LitAfterAppend(lit: bool, a: seq<Step>, b: seq<Step>)
    ensures LitAfter(lit, a + b) == LitAfter(LitAfter(lit, a), b)
    decreases |a|
  {
    if a != [] {
      assert (a + b)[1..] == a[1..] + b;
      assert (a + b)[0] == a[0];
      LitAfterAppend(if a[0] == On then true else if a[0] == Off then false else lit, a[1..], b);
    } else {
      assert a + b == b;
    }
  }

  /** No stop leaves the LED lit: the check comes only between elements, and
      each element switches the LED off before its gap. The `finally` block's
      final off is therefore never needed to darken the pin. */
  lemma {:induction false} SymbolsLeaveLedOff(code: string, t: nat, stop: Option<nat>)
    ensures LitAfter(false, Symbols(code, t, stop)) == false
    decreases |code|
  {
    if code != [] && !Seen(stop, t) {
      var d := SymbolUnits(code[0]);
      SymbolsLeaveLedOff(code[1..], t + d + 1, stop);
      LitAfterAppend(false, Element(d), Symbols(code[1..], t + d + 1, stop));
      ElementFacts(d, false);
    }
  }

  /** The steps for one character leave the LED dark. */
  lemma CharStepsDark(entry: Option<string>, t: nat, stop: Option<nat>)
    ensures !LitAfter(false, CharSteps(entry, t, stop))
  {
    assert [Wait(3)][1..] == [] && [Wait(4)][1..] == [] && [Wait(2)][1..] == [];
    if entry.Some? && entry.value != "/" {
      var s := Symbols(entry.value, t, stop);
      SymbolsLeaveLedOff(entry.value, t, stop);
      LitAfterAppend(false, s, LetterGap(stop, t + Elapsed(s)));
    }
  }

  lemma {:induction false} LeavesLedOff(table: char -> Option<string>, msg: string, t: nat, stop: Option<nat>)
    ensures LitAfter(false, Chars(table, msg, t, stop)) == false
    decreases |msg|
  {
    if msg != [] && !Seen(stop, t) {
      var h := CharSteps(table(msg[0]), t, stop);
      LeavesLedOff(table, msg[1..], t + Elapsed(h), stop);
      CharStepsDark(table(msg[0]), t, stop);
      LitAfterAppend(false, h, Chars(table, msg[1..], t + Elapsed(h), stop));
    }
  }

  /** An unstopped broadcast of a code ends with the LED switching off and one
      unit of gap. */
  lemma {:induction false} SymbolsEndDark(code: string, t: nat)
    requires code != []
    ensures var s := Symbols(code, t, None);
            |s| >= 2 && s[|s| - 2..] == [Off, Wait(1)]
    decreases |code|
  {
    var d := SymbolUnits(code[0]);
    if |code| > 1 {
      SymbolsEndDark(code[1..], t + d + 1);
    }
  }

  /** The usual spacing: between two letters separated by a space the LED is
      dark for one element gap, the rest of the letter gap and the rest of
      the word gap, which is seven units in all; a letter itself ends with the
      three units of a letter gap. */
  lemma WordSpacing(table: char -> Option<string>, x: char, y: char)
    requires table(x).Some? && table(x).value !in {"", "/"}
    requires table(y).Some? && table(y).value !in {"", "/"}
    requires table(' ') == Some("/")
    ensures var cx := Symbols(table(x).value, 0, None);
            var cy := Symbols(table(y).value, 0, None);
            && Chars(table, [x, ' ', y], 0, None) == cx + [Wait(2), Wait(4)] + cy + [Wait(2)]
            && cx[|cx| - 2..] == [Off, Wait(1)] && cy[|cy| - 2..] == [Off, Wait(1)]
  {
    var cx := Symbols(table(x).value, 0, None);
    var cy := Symbols(table(y).value, 0, None);
    SymbolsEndDark(table(x).value, 0);
    SymbolsEndDark(table(y).value, 0);
    var u := Elapsed(cx) + 2;
    UnstoppedLetter(table, [x, ' ', y], 0);
    UnstoppedSpace(table, [' ', y], u);
    UnstoppedLetter(table, [y], u + 4);
    SymbolsAnyStart(table(y).value, u + 4, 0);
    assert [x, ' ', y][1..] == [' ', y] && [' ', y][1..] == [y] && [y][1..] == [];
    assert Chars(table, [], u + 4 + Elapsed(cy) + 2, None) == [];
    Assemble(Chars(table, [x, ' ', y], 0, None), Chars(table, [' ', y], u, None), Chars(table, [y], u + 4, None), cx, cy);
  }

  lemma Assemble(whole: seq<Step>, c2: seq<Step>, c3: seq<Step>, cx: seq<Step>, cy: seq<Step>)
    requires whole == cx + [Wait(2)] + c2 && c2 == [Wait(4)] + c3 && c3 == cy + [Wait(2)] + []
    ensures whole == cx + [Wait(2), Wait(4)] + cy + [Wait(2)]
  {
  }

  /** Without a stop, a message starting with a letter sends the letter's
      symbols, the two units after it, and then the rest. */
  lemma UnstoppedLetter(table: char -> Option<string>, msg: string, t: nat)
    requires msg != [] && table(msg[0]).Some? && table(msg[0]).value != "/"
    ensures var s := Symbols(table(msg[0]).value, t, None);
            Chars(table, msg, t, None) == s + [Wait(2)] + Chars(table, msg[1..], t + Elapsed(s) + 2, None)
  {
    var s := Symbols(table(msg[0]).value, t, None);
    var h := CharSteps(table(msg[0]), t, None);
    UnstoppedLetterSteps(table(msg[0]), t);
    calc {
      Chars(table, msg, t, None);
      { CharsUnfold(table, msg, t, None); }
      h + Chars(table, msg[1..], t + Elapsed(h), None);
      s + [Wait(2)] + Chars(table, msg[1..], t + Elapsed(s) + 2, None);
    }
  }

  /** Without a stop, a letter is its symbols and a two-unit pause. */
  lemma UnstoppedLetterSteps(entry: Option<string>, t: nat)
    requires entry.Some? && entry.value != "/"
    ensures var s := Symbols(entry.value, t, None);
            && CharSteps(entry, t, None) == s + [Wait(2)]
            && Elapsed(CharSteps(entry, t, None)) == Elapsed(s) + 2
  {
    var s := Symbols(entry.value, t, None);
    WaitElapsed(2);
    ElapsedAppend(s, [Wait(2)]);
  }

  /** Without a stop, a message starting with a word space pauses four units
      and then sends the rest. */
  lemma UnstoppedSpace(table: char -> Option<string>, msg: string, t: nat)
    requires msg != [] && table(msg[0]) == Some("/")
    ensures Chars(table, msg, t, None) == [Wait(4)] + Chars(table, msg[1..], t + 4, None)
  {
    CharsUnfold(table, msg, t, None);
    WaitElapsed(4);
  }

  /** Without a stop the start time does not matter. */
  lemma {:induction false} SymbolsAnyStart(code: string, t: nat, u: nat)
    ensures Symbols(code, t, None) == Symbols(code, u, None)
    decreases |code|
  {
    if code != [] {
      var d := SymbolUnits(code[0]);
      SymbolsAnyStart(code[1..], t + d + 1, u + d + 1);
    }
  }

  /** The comma, as written, is sent as three units of darkness instead of its
      six elements. */
  lemma CommaSentAsGap(t: nat)
    ensures Chars(SourceCode, [','], t, None) == [Wait(3)]
    ensures Chars(Code, [','], t, None) == Symbols("--..--", t, None) + [Wait(2)]
  {
    CommaHasNoCode();
    assert [','][1..] == [];
  }

  // ---------------------------------------------------------------------------
  // Starting and stopping a broadcast
  // ---------------------------------------------------------------------------

  /** The broadcaster's part of the settings page: whether the thread is
      alive, the stop event, and the two buttons. */
  datatype Broadcaster = Broadcaster(running: bool, stopSet: bool, broadcastEnabled: bool, stopEnabled: bool)

  /** The page as built: the broadcast button is disabled when the GPIO
      library is missing; the stop button starts disabled. */
  function InitialBroadcaster(gpioAvailable: bool): Broadcaster {
    Broadcaster(false, false, gpioAvailable, false)
  }

  /** The buttons agree with the thread: while it runs only Stop is enabled,
      and Stop is disabled while it does not. */
  predicate ButtonsAgree(b: Broadcaster) {
    && (b.running ==> !b.broadcastEnabled && b.stopEnabled)
    && (!b.running ==> !b.stopEnabled)
  }

  /** What pressing Broadcast led to: a dialog with this title, or a thread
      started on this message, pin and dot length. */
  datatype Start = Refused(title: string) | Started(message: string, pin: int, dotMs: int)

  /** `start_broadcast`: the GPIO library, then a running broadcast, then the
      two numbers (a non-positive dot length raises the same `ValueError`),
      then the stripped, upper-cased message are checked, in that order. */
  function StartBroadcast(b: Broadcaster, gpioAvailable: bool, pinText: string, speedText: string, text: string): (r: (Broadcaster, Start))
    ensures r.1.Started? <==>
              && gpioAvailable && !b.running
              && ParseInt(pinText).Some? && ParseInt(speedText).Some? && ParseInt(speedText).value > 0
              && Strip(text) != ""
    ensures !gpioAvailable ==> r.1 == Refused("GPIO Error")
    ensures gpioAvailable && b.running ==> r.1 == Refused("In Progress")
    ensures r.1.Started? ==>
              && r.1.message == Upper(Strip(text))
              && r.1.pin == ParseInt(pinText).value && r.1.dotMs == ParseInt(speedText).value
              && r.0 == Broadcaster(true, false, false, true)
    ensures r.1.Refused? ==> r.0 == b
  {
    if !gpioAvailable then (b, Refused("GPIO Error"))
    else if b.running then (b, Refused("In Progress"))
    else
      match ReadNumbers(pinText, speedText)
      case None => (b, Refused("Invalid Input"))
      case Some((pin, dot)) =>
        var message := Upper(Strip(text));
        if message == "" then (b, Refused("Empty Message"))
        else (Broadcaster(true, false, false, true), Started(message, pin, dot))
  }

  /** The `try` block of `start_broadcast`: both fields must read as integers
      and the dot length must be positive. */
  function ReadNumbers(pinText: string, speedText: string): (r: Option<(int, int)>)
    ensures r.Some? <==> ParseInt(pinText).Some? && ParseInt(speedText).Some? && ParseInt(speedText).value > 0
    ensures r.Some? ==> r.value == (ParseInt(pinText).value, ParseInt(speedText).value)
  {
    var pin := ParseInt(pinText);
    var dot := ParseInt(speedText);
    if pin.None? || dot.None? || dot.value <= 0 then None else Some((pin.value, dot.value))
  }

  /** `stop_broadcast`: only a running thread is told to stop; the buttons
      change when it finishes. */
  function StopBroadcast(b: Broadcaster): (r: Broadcaster)
    ensures b.running ==> r == b.(stopSet := true)
    ensures !b.running ==> r == b
  {
    if b.running then b.(stopSet := true) else b
  }

  /** The thread has finished and `_reset_morse_ui` has run. */
  function Finished(b: Broadcaster): (r: Broadcaster)
    ensures !r.running && r.broadcastEnabled && !r.stopEnabled
    ensures r.stopSet == b.stopSet
  {
    Broadcaster(false, b.stopSet, true, false)
  }

  /** A message as the broadcaster sends it: not empty, no whitespace at
      either end, and no lower-case letter, so every letter in it is found in
      the table. */
  predicate Sendable(m: string) {
    && m != [] && !IsSpace(m[0]) && !IsSpace(m[|m| - 1])
    && forall i :: 0 <= i < |m| ==> !('a' <= m[i] <= 'z')
  }

  /** Upper-casing a non-blank text after stripping it gives a sendable
      message. */
  lemma UpperStripped(text: string)
    requires Strip(text) != ""
    ensures Sendable(Upper(Strip(text)))
  {
    StripEdges(text);
    UpperSendable(Strip(text));
  }

  /** Upper-casing a text with no whitespace at either end gives a sendable
      message. */
  lemma UpperSendable(m: string)
    requires m != [] && !IsSpace(m[0]) && !IsSpace(m[|m| - 1])
    ensures Sendable(Upper(m))
  {
    var u := Upper(m);
    assert u[0] == UpperChar(m[0]) && u[|u| - 1] == UpperChar(m[|m| - 1]);
    UpperCharFacts(m[0]);
    UpperCharFacts(m[|m| - 1]);
    forall i | 0 <= i < |u| ensures !('a' <= u[i] <= 'z') {
      UpperCharFacts(m[i]);
    }
  }

  /** Upper-casing keeps whitespace and non-whitespace apart and leaves no
      lower-case letter. */
  lemma UpperCharFacts(c: char)
    ensures IsSpace(UpperChar(c)) == IsSpace(c) && !('a' <= UpperChar(c) <= 'z')
  {
  }

  /** The message a broadcast starts with is sendable. */
  lemma StartedMessageShape(b: Broadcaster, gpioAvailable: bool, pinText: string, speedText: string, text: string)
    ensures var s := StartBroadcast(b, gpioAvailable, pinText, speedText, text).1;
            s.Started? ==> Sendable(s.message)
  {
    if Strip(text) != "" {
      UpperStripped(text);
    }
  }

  /** Every step of the broadcaster keeps the buttons in agreement with the
      thread. */
  lemma StepsKeepButtonsAgreeing(b: Broadcaster, gpioAvailable: bool, pinText: string, speedText: string, text: string)
    requires ButtonsAgree(b)
    ensures ButtonsAgree(InitialBroadcaster(gpioAvailable))
    ensures ButtonsAgree(StartBroadcast(b, gpioAvailable, pinText, speedText, text).0)
    ensures ButtonsAgree(StopBroadcast(b))
    ensures ButtonsAgree(Finished(b))
  {
  }

  /** A new broadcast starts with the stop event cleared, even when the last
      one was stopped. */
  lemma RestartClearsStop(b: Broadcaster, gpioAvailable: bool, pinText: string, speedText: string, text: string)
    requires b.stopSet && !b.running
    requires StartBroadcast(Finished(b), gpioAvailable, pinText, speedText, text).1.Started?
    ensures !StartBroadcast(Finished(b), gpioAvailable, pinText, speedText, text).0.stopSet
  {
  }
}

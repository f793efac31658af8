/**
 The system log and terminal page: the shell's output arrives in chunks and is
 shown line by line, commands typed by the user are echoed and sent to the
 shell, log records are shown with a tag for their level, and the assistant
 can read back the last lines of the page.
 */
module Terminal {
  import opened Wrappers
  import opened PyText

  /** The text tags the output box is configured with. */
  datatype Tag = COMMAND | STDOUT | STDERR | DEBUG | INFO | WARNING | ERROR | CRITICAL

  /** One `write(message, tag)` into the output box. */
  datatype Piece = Piece(text: string, tag: Tag)

  /** The page: what the output box holds, the incomplete line waiting for
      its end, the shell (`None` when it could not be started, otherwise
      whether it is alive), the entry box and what was sent to the shell. */
  datatype Page = Page(output: seq<Piece>, buffer: string, shell: Option<bool>, entry: string, sent: seq<string>)

  /** The text of the output box. */
  function Text(output: seq<Piece>): string
    decreases |output|
  {
    if output == [] then "" else Text(output[..|output| - 1]) + output[|output| - 1].text
  }

  lemma TextAppend(output: seq<Piece>, p: Piece)
    ensures Text(output + [p]) == Text(output) + p.text
  {
    assert (output + [p])[..|output|] == output;
  }

  // ---------------------------------------------------------------------------
  // Starting the shell
  // ---------------------------------------------------------------------------

  const NoPexpect := "\n--- FATAL: pexpect library not available. Terminal disabled. ---\n"

  /** `start_shell_process`: without the library, or when the spawn raises,
      a critical banner is written and there is no shell. */
  function StartShell(available: bool, spawned: bool, error: string): (p: Page)
    ensures p.shell.Some? <==> available && spawned
    ensures p.shell.Some? ==> p.output == [] && p.shell.value
    ensures p.shell.None? ==> |p.output| == 1 && p.output[0].tag == CRITICAL
    ensures p.buffer == "" && p.sent == []
  {
    if !available then Page([Piece(NoPexpect, CRITICAL)], "", None, "", [])
    else if !spawned then Page([Piece("\n--- FATAL: Could not start shell process: " + error + " ---\n", CRITICAL)], "", None, "", [])
    else Page([], "", Some(true), "", [])
  }

  // ---------------------------------------------------------------------------
  // Reading the shell's output
  // ---------------------------------------------------------------------------

  /** Lines written back with their line ends. */
  function Terminated(lines: seq<string>): string
    decreases |lines|
  {
    if lines == [] then "" else Terminated(lines[..|lines| - 1]) + lines[|lines| - 1] + "\n"
  }

  lemma TerminatedAppend(lines: seq<string>, l: string)
    ensures Terminated(lines + [l]) == Terminated(lines) + l + "\n"
  {
    assert (lines + [l])[..|lines|] == lines;
  }

  /** Lines and the unfinished rest, rejoined with line ends, are Python's
      `"\n".join(lines + [rest])`. */
  lemma {:induction false} TerminatedIsJoin(lines: seq<string>, rest: string)
    ensures Join(lines + [rest], "\n") == Terminated(lines) + rest
    decreases |lines|
  {
    if lines != [] {
      var tail := lines[1..];
      TerminatedIsJoin(tail, rest);
      assert (lines + [rest])[1..] == tail + [rest];
      assert Terminated(lines) == lines[0] + "\n" + Terminated(tail) by {
        TerminatedCons(lines[0], tail);
        assert [lines[0]] + tail == lines;
      }
    } else {
      assert lines + [rest] == [rest];
    }
  }

  lemma {:induction false} TerminatedCons(l: string, lines: seq<string>)
    ensures Terminated([l] + lines) == l + "\n" + Terminated(lines)
    decreases |lines|
  {
    if lines == [] {
      assert [l] + lines == [l];
      assert [l][..0] == [];
    } else {
      var init := lines[..|lines| - 1];
      var last := lines[|lines| - 1];
      TerminatedCons(l, init);
      assert [l] + lines == ([l] + init) + [last];
      assert lines == init + [last];
      TerminatedAppend([l] + init, last);
      TerminatedAppend(init, last);
    }
  }

  /** The inner loop of `read_output` on one chunk `data`: the chunk is added
      to the buffer and every complete line is cut off the front of it. The
      lines are returned without their line ends; `rest` is the new buffer. */
  method ReadChunk(buffer: string, data: string) returns (lines: seq<string>, rest: string)
    ensures Terminated(lines) + rest == buffer + data
    ensures forall k :: 0 <= k < |lines| ==> '\n' !in lines[k]
    ensures data != "" || '\n' !in buffer ==> '\n' !in rest
    ensures data == "" ==> lines == [] && rest == buffer
  {
    lines := [];
    rest := buffer;
    if data != "" {
      rest := buffer + data;
      while '\n' in rest
        invariant Terminated(lines) + rest == buffer + data
        invariant forall k :: 0 <= k < |lines| ==> '\n' !in lines[k]
        decreases |rest|
      {
        var i := IndexOf(rest, '\n');
        CutLine(lines, rest, buffer + data);
        lines := lines + [rest[..i]];
        rest := rest[i + 1..];
      }
    }
  }

  /** Cutting the first complete line off the buffer keeps the text. */
  lemma CutLine(lines: seq<string>, rest: string, all: string)
    requires Terminated(lines) + rest == all && '\n' in rest
    ensures var i := IndexOf(rest, '\n');
            Terminated(lines + [rest[..i]]) + rest[i + 1..] == all
  {
    var i := IndexOf(rest, '\n');
    var line, after := rest[..i], rest[i + 1..];
    TerminatedAppend(lines, line);
    assert rest == line + "\n" + after;
    ConcatAssoc(Terminated(lines), line, "\n", after);
  }

  /** Regrouping a concatenation of four texts. */
  lemma ConcatAssoc(a: string, b: string, c: string, d: string)
    ensures a + b + c + d == a + (b + c + d)
  {
  }

  /** The lines `read_output` writes are exactly Python's `split('\n')` of the
      buffered text, but for its last piece, which stays in the buffer. */
  lemma ChunkIsSplit(buffer: string, data: string, lines: seq<string>, rest: string)
    requires Terminated(lines) + rest == buffer + data
    requires forall k :: 0 <= k < |lines| ==> '\n' !in lines[k]
    requires '\n' !in rest
    ensures Split(buffer + data, '\n') == lines + [rest]
  {
    TerminatedIsJoin(lines, rest);
    SplitJoin(lines + [rest], '\n');
  }

  /** Each complete line written back with its line end, as `STDOUT`. */
  function LinePieces(lines: seq<string>): (ps: seq<Piece>)
    ensures |ps| == |lines|
    ensures forall k :: 0 <= k < |ps| ==> ps[k] == Piece(lines[k] + "\n", STDOUT)
    ensures Text(ps) == Terminated(lines)
    decreases |lines|
  {
    if lines == [] then []
    else
      var init := LinePieces(lines[..|lines| - 1]);
      TextAppend(init, Piece(lines[|lines| - 1] + "\n", STDOUT));
      init + [Piece(lines[|lines| - 1] + "\n", STDOUT)]
  }

  /** One pass of the reading loop that got `data`. Nothing the shell said is
      lost or reordered: the box and the buffer together hold all of it. */
  method Receive(p: Page, data: string) returns (q: Page)
    ensures Text(q.output) + q.buffer == Text(p.output) + p.buffer + data
    ensures data != "" || '\n' !in p.buffer ==> '\n' !in q.buffer
    ensures |q.output| >= |p.output| && q.output[..|p.output|] == p.output
    ensures forall k :: |p.output| <= k < |q.output| ==> q.output[k].tag == STDOUT && '\n' in q.output[k].text
    ensures q.shell == p.shell && q.entry == p.entry && q.sent == p.sent
  {
    var lines, rest := ReadChunk(p.buffer, data);
    q := p.(output := p.output + LinePieces(lines), buffer := rest);
    ReceivedText(p.output, lines, rest, p.buffer + data);
    LinePiecesAreLines(p.output, lines);
    assert q.output[..|p.output|] == p.output;
  }

  /** The box gains the lines, so box and buffer still hold everything. */
  lemma ReceivedText(output: seq<Piece>, lines: seq<string>, rest: string, all: string)
    requires Terminated(lines) + rest == all
    ensures Text(output + LinePieces(lines)) + rest == Text(output) + all
  {
    var ps := LinePieces(lines);
    assert Text(output + ps) + rest == Text(output) + all by {
      TextConcat(output, ps);
      var a, b := Text(output), Text(ps);
      assert (a + b) + rest == a + (b + rest);
    }
  }

  /** Pieces made of lines are `STDOUT` pieces holding a line end. */
  lemma LinePiecesAreLines(before: seq<Piece>, lines: seq<string>)
    ensures var out := before + LinePieces(lines);
            forall k :: |before| <= k < |out| ==> out[k].tag == STDOUT && '\n' in out[k].text
  {
    var ps := LinePieces(lines);
    forall k | 0 <= k < |ps|
      ensures ps[k].tag == STDOUT && '\n' in ps[k].text
    {
      assert (lines[k] + "\n")[|lines[k]|] == '\n';
    }
  }

  lemma {:induction false} TextConcat(a: seq<Piece>, b: seq<Piece>)
    ensures Text(a + b) == Text(a) + Text(b)
    decreases |b|
  {
    if b == [] {
      assert a + b == a;
    } else {
      var init := b[..|b| - 1];
      var last := b[|b| - 1];
      TextConcat(a, init);
      calc {
        Text(a + b);
        { assert a + b == (a + init) + [last]; TextAppend(a + init, last); }
        Text(a + init) + last.text;
        (Text(a) + Text(init)) + last.text;
        Text(a) + (Text(init) + last.text);
        { assert b == init + [last]; TextAppend(init, last); }
        Text(a) + Text(b);
      }
    }
  }

  const Banner := "\n--- TERMINAL PROCESS TERMINATED ---\n"

  /** End of file from the shell: a non-empty buffer is flushed with a line
      end of its own, then the termination banner follows. */
  function EndOfFile(p: Page): (q: Page)
    ensures Text(q.output) == Text(p.output) + (if p.buffer == "" then "" else p.buffer + "\n") + Banner
    ensures q.output[|q.output| - 1] == Piece(Banner, ERROR)
    ensures |q.output| == |p.output| + (if p.buffer == "" then 1 else 2)
  {
    var flushed := if p.buffer == "" then p.output else p.output + [Piece(p.buffer + "\n", STDOUT)];
    TextAppend(p.output, Piece(p.buffer + "\n", STDOUT));
    TextAppend(flushed, Piece(Banner, ERROR));
    p.(output := flushed + [Piece(Banner, ERROR)])
  }

  /** A whole session with the shell that ends at end of file: every byte the
      shell sent is on the page, in order, before the termination banner,
      with one line end added when the last line was unfinished. */
  lemma SessionKeepsEverything(p: Page, q: Page, data: string)
    requires Text(q.output) + q.buffer == Text(p.output) + p.buffer + data
    ensures Text(EndOfFile(q).output) ==
              Text(p.output) + p.buffer + data + (if q.buffer == "" then "" else "\n") + Banner
  {
  }

  /** How the reading loop ends: end of file from the shell, the shell found
      dead by the loop's `isalive()` test, or any other exception. */
  datatype Ending = AtEof | ShellDied | Failed(error: string)

  /** The banner an exception in the reading loop writes. */
  function ErrorLine(error: string): string {
    "\n--- TERMINAL ERROR: " + error + " ---\n"
  }

  /** The page after the reading loop ends. Only end of file flushes the
      unfinished line; a dead shell ends the loop silently, and an exception
      writes an error banner. */
  function EndSession(p: Page, e: Ending): (q: Page)
    ensures e == AtEof ==> q == EndOfFile(p)
    ensures e == ShellDied ==> q == p
    ensures e.Failed? ==> q.output == p.output + [Piece(ErrorLine(e.error), ERROR)] && q.buffer == p.buffer
  {
    match e
    case AtEof => EndOfFile(p)
    case ShellDied => p
    case Failed(msg) => p.(output := p.output + [Piece(ErrorLine(msg), ERROR)])
  }

  /** What the page shows after the loop, beyond the complete lines. */
  function Closing(buffer: string, e: Ending): string {
    match e
    case AtEof => (if buffer == "" then "" else buffer + "\n") + Banner
    case ShellDied => ""
    case Failed(msg) => ErrorLine(msg)
  }

  /** What ending the loop adds to the page's text. */
  lemma EndSessionText(q: Page, e: Ending)
    ensures Text(EndSession(q, e).output) == Text(q.output) + Closing(q.buffer, e)
  {
    match e
    case AtEof =>
    case ShellDied =>
    case Failed(msg) => TextAppend(q.output, Piece(ErrorLine(msg), ERROR));
  }

  /** A whole session however it ends: the complete lines the shell sent are
      on the page in order; the unfinished last line `q.buffer` appears only
      at end of file and is lost otherwise. */
  lemma SessionEnds(p: Page, q: Page, data: string, e: Ending)
    requires Text(q.output) + q.buffer == Text(p.output) + p.buffer + data
    ensures var all := Text(p.output) + p.buffer + data;
            |q.buffer| <= |all| &&
            Text(EndSession(q, e).output) == all[..|all| - |q.buffer|] + Closing(q.buffer, e)
  {
    var all := Text(p.output) + p.buffer + data;
    assert Text(q.output) == all[..|all| - |q.buffer|];
    EndSessionText(q, e);
  }

  // ---------------------------------------------------------------------------
  // Commands and log records
  // ---------------------------------------------------------------------------

  /** `send_command`: a blank entry, a missing shell or a dead one is
      ignored; otherwise the command is echoed as `$ cmd`, sent, and the entry
      cleared. */
  function SendCommand(p: Page): (q: Page)
    ensures Strip(p.entry) == "" || p.shell != Some(true) ==> q == p
    ensures Strip(p.entry) != "" && p.shell == Some(true) ==>
              && q.output == p.output + [Piece("$ " + Strip(p.entry) + "\n", COMMAND)]
              && q.sent == p.sent + [Strip(p.entry)]
              && q.entry == "" && q.buffer == p.buffer && q.shell == p.shell
  {
    var cmd := Strip(p.entry);
    if cmd == "" || p.shell.None? || !p.shell.value then p
    else p.(output := p.output + [Piece("$ " + cmd + "\n", COMMAND)], sent := p.sent + [cmd], entry := "")
  }

  /** `cleanup`: a live shell is closed. */
  function Cleanup(p: Page): (q: Page)
    ensures p.shell == Some(true) ==> q.shell == Some(false)
    ensures p.shell != Some(true) ==> q == p
    ensures q.output == p.output
  {
    if p.shell == Some(true) then p.(shell := Some(false)) else p
  }

  /** The numeric levels of Python's `logging` module. */
  function LevelNumber(t: Tag): int {
    match t
    case DEBUG => 10
    case INFO => 20
    case WARNING => 30
    case ERROR => 40
    case CRITICAL => 50
    case _ => 0
  }

  /** `level_map.get(record.levelno, "INFO")`. */
  function LevelTag(level: int): (t: Tag)
    ensures t in {DEBUG, INFO, WARNING, ERROR, CRITICAL}
    ensures t != INFO ==> LevelNumber(t) == level
  {
    if level == 10 then DEBUG
    else if level == 20 then INFO
    else if level == 30 then WARNING
    else if level == 40 then ERROR
    else if level == 50 then CRITICAL
    else INFO
  }

  /** The five standard levels each get their own tag back; any other level
      is shown as `INFO`. */
  lemma LevelTags(t: Tag, level: int)
    ensures t in {DEBUG, INFO, WARNING, ERROR, CRITICAL} ==> LevelTag(LevelNumber(t)) == t
    ensures level !in {10, 20, 30, 40, 50} ==> LevelTag(level) == INFO
  {
  }

  /** `TerminalLoggingHandler.emit`: the formatted record on a line of its
      own, tagged by its level. */
  function Log(p: Page, level: int, formatted: string): (q: Page)
    ensures q.output == p.output + [Piece(formatted + "\n", LevelTag(level))]
    ensures Text(q.output) == Text(p.output) + formatted + "\n"
  {
    TextAppend(p.output, Piece(formatted + "\n", LevelTag(level)));
    p.(output := p.output + [Piece(formatted + "\n", LevelTag(level))])
  }

  // ---------------------------------------------------------------------------
  // History for the assistant
  // ---------------------------------------------------------------------------

  /** `get_history(lines)`: the last `lines` lines of the stripped text (with
      Python's slice `[-lines:]`, so 0 keeps every line); the two fixed
      answers when the widget is gone or reading it raises. `present` and
      `raised` stand for those two conditions. */
  function GetHistory(text: string, lines: int, present: bool, raised: bool): (r: string)
    ensures raised ==> r == "Error retrieving terminal history."
    ensures !raised && !present ==> r == "Terminal widget no longer exists."
  {
    if raised then "Error retrieving terminal history."
    else if !present then "Terminal widget no longer exists."
    else
      var parts := Split(Strip(text), '\n');
      Join(parts[SliceStart(|parts|, -lines)..], "\n")
  }

  /** For a positive count the history reads back as at most that many lines,
      and they are the text's last lines. */
  lemma HistoryTail(text: string, lines: int)
    requires lines >= 1
    ensures var parts := Split(Strip(text), '\n');
            var back := Split(GetHistory(text, lines, true, false), '\n');
            && |back| == (if lines < |parts| then lines else |parts|)
            && back == parts[|parts| - |back|..]
  {
    var parts := Split(Strip(text), '\n');
    assert GetHistory(text, lines, true, false) == Join(parts[SliceStart(|parts|, -lines)..], "\n");
    SplitLastLines(parts, lines);
  }

  /** Splitting the join of the last `lines` pieces gives those pieces back. */
  lemma SplitLastLines(parts: seq<string>, lines: int)
    requires |parts| >= 1 && lines >= 1
    requires forall k :: 0 <= k < |parts| ==> '\n' !in parts[k]
    ensures var tail := parts[SliceStart(|parts|, -lines)..];
            && Split(Join(tail, "\n"), '\n') == tail
            && |tail| == (if lines < |parts| then lines else |parts|)
            && tail == parts[|parts| - |tail|..]
  {
    var start := SliceStart(|parts|, -lines);
    var tail := parts[start..];
    assert forall k :: 0 <= k < |tail| ==> '\n' !in tail[k] by {
      forall k | 0 <= k < |tail| ensures '\n' !in tail[k] {
        assert tail[k] == parts[start + k];
      }
    }
    SplitJoin(tail, '\n');
  }

  /** A count of zero gives back the whole stripped text. */
  lemma HistoryZero(text: string)
    ensures GetHistory(text, 0, true, false) == Strip(text)
  {
    var parts := Split(Strip(text), '\n');
    assert parts[SliceStart(|parts|, 0)..] == parts;
    JoinSplit(Strip(text), '\n');
  }
}

/**
 The assistant's command tags. A finished reply is searched for tags
 `<|name key="value" ...|>`; each tag is removed from the text that is shown
 and spoken, parsed into a command name and attributes, and dispatched to the
 automation hub, which answers with an `(ok, message)` pair that becomes one
 feedback line. Parsing that fails outside the dispatch raises and ends the
 whole pass.
 */
module AiCommands {
  import opened Wrappers
  import opened PyText
  import opened GpioRegistry
  import opened Vehicle
  import opened Hub

  // ---------------------------------------------------------------------------
  // Finding tags: the pattern `<\|(.*?)\|>`
  // ---------------------------------------------------------------------------

  /** `s` has the closing delimiter "|>" at position `k`. */
  predicate IsCloseAt(s: string, k: int) {
    0 <= k && k + 1 < |s| && s[k] == '|' && s[k + 1] == '>'
  }

  /** The non-greedy body `.*?` followed by `\|>`: the length of the shortest
      run of characters other than a newline that is followed by "|>", or
      `None` when a newline or the end of the text comes first. */
  function CloseAt(s: string): (n: Option<nat>)
    ensures n.Some? ==> IsCloseAt(s, n.value)
    ensures n.Some? ==> forall k :: 0 <= k < n.value ==> s[k] != '\n' && !IsCloseAt(s, k)
    decreases |s|
  {
    if |s| < 2 then None
    else if s[0] == '|' && s[1] == '>' then Some(0)
    else if s[0] == '\n' then None
    else match CloseAt(s[1..])
      case None => None
      case Some(m) => Some(m + 1)
  }

  /** When no body is found, every "|>" comes after a newline. */
  lemma {:induction false} CloseAtNone(s: string, k: int)
    requires CloseAt(s).None? && IsCloseAt(s, k)
    ensures '\n' in s[..k]
    decreases |s|
  {
    if s[0] != '\n' {
      assert k > 0;
      assert IsCloseAt(s[1..], k - 1);
      CloseAtNone(s[1..], k - 1);
      assert s[1..][..k - 1] == s[1..k];
    }
  }

  /** The bodies of the tags `finditer` reports, left to right: at each position
      an opening "<|" with a closing "|>" later on the same line starts a match,
      and the search resumes after it; otherwise the search moves on by one. */
  function Tags(s: string): (bodies: seq<string>)
    ensures forall k :: 0 <= k < |bodies| ==> '\n' !in bodies[k]
    decreases |s|
  {
    if |s| == 0 then []
    else if |s| >= 2 && s[0] == '<' && s[1] == '|' && CloseAt(s[2..]).Some? then
      var n := CloseAt(s[2..]).value;
      [s[2..2 + n]] + Tags(s[2 + n + 2..])
    else Tags(s[1..])
  }

  /** The full text of a tag with the given body, `match.group(0)`. */
  function TagText(body: string): string {
    "<|" + body + "|>"
  }

  // ---------------------------------------------------------------------------
  // Removing tags: `clean_text.replace(full_tag, "")`, once per match
  // ---------------------------------------------------------------------------

  /** `s.replace(target, "")`: every non-overlapping occurrence, scanning left
      to right, is deleted. */
  function RemoveAll(s: string, target: string): (r: string)
    requires target != ""
    ensures |r| <= |s|
    decreases |s|
  {
    if |s| < |target| then s
    else if s[..|target|] == target then RemoveAll(s[|target|..], target)
    else [s[0]] + RemoveAll(s[1..], target)
  }

  /** The text left after the replace of each match in turn. */
  function Cleaned(text: string, bodies: seq<string>): string
    decreases |bodies|
  {
    if bodies == [] then text else Cleaned(RemoveAll(text, TagText(bodies[0])), bodies[1..])
  }

  /** A text without the target is left as it is. */
  lemma {:induction false} RemoveAllAbsent(s: string, target: string)
    requires target != "" && !Contains(s, target)
    ensures RemoveAll(s, target) == s
    decreases |s|
  {
    if |s| >= |target| {
      assert !StartsWith(s, target);
      RemoveAllAbsent(s[1..], target);
    }
  }

  // ---------------------------------------------------------------------------
  // Parsing one tag
  // ---------------------------------------------------------------------------

  /** A parsed tag: the command name and its attributes. */
  datatype Call = Call(name: string, args: map<string, string>)

  /** Every attribute token has exactly one '='. */
  predicate Attributes(tokens: seq<string>) {
    forall k :: 0 <= k < |tokens| ==> |Split(tokens[k], '=')| == 2
  }

  /** The attribute dictionary comprehension: each token must split on '=' into
      exactly a key and a value (else the unpacking raises), the value loses its
      surrounding '"' characters, and a later key overrides an earlier one. */
  function ParseArgs(acc: map<string, string>, tokens: seq<string>): (r: Option<map<string, string>>)
    ensures r.Some? <==> Attributes(tokens)
    ensures r.Some? ==> acc.Keys <= r.value.Keys
    decreases |tokens|
  {
    if tokens == [] then Some(acc)
    else
      var kv := Split(tokens[0], '=');
      if |kv| != 2 then None
      else
        var r := ParseArgs(acc[kv[0] := StripChar(kv[1], '"')], tokens[1..]);
        assert forall k :: 1 <= k < |tokens| ==> tokens[k] == tokens[1..][k - 1];
        r
  }

  /** A tag body as the parser reads it: `None` stands for the exception raised
      by an empty tag (`parts[0]`) or a malformed attribute. */
  function ParseTag(body: string): (c: Option<Call>)
    ensures c.None? <==> SplitWhitespace(body) == [] || !Attributes(SplitWhitespace(body)[1..])
    ensures c.Some? ==> c.value.name == SplitWhitespace(body)[0]
  {
    var parts := SplitWhitespace(body);
    if |parts| == 0 then None
    else
      match ParseArgs(map[], parts[1..])
      case None => None
      case Some(m) => Some(Call(parts[0], m))
  }

  // ---------------------------------------------------------------------------
  // Dispatch
  // ---------------------------------------------------------------------------

  /** The result of `int(args.get(key))`. */
  datatype Conversion = Converted(value: int) | Failed(error: string)

  /** `int()` of an attribute: a missing attribute is `int(None)`, a
      `TypeError`; a text `int` refuses is a `ValueError` quoting it. */
  function IntArg(args: map<string, string>, key: string): (c: Conversion)
    ensures key in args && ParseInt(args[key]).Some? <==> c.Converted?
    ensures c.Converted? ==> c.value == ParseInt(args[key]).value
  {
    if key !in args then Failed("int() argument must be a string, a bytes-like object or a real number, not 'NoneType'")
    else match ParseInt(args[key])
      case None => Failed("invalid literal for int() with base 10: '" + args[key] + "'")
      case Some(v) => Converted(v)
  }

  /** The reply to an argument error caught around the dispatch. */
  function ParseError(error: string): Reply {
    Reply(false, "Command parse error: " + error)
  }

  /** `request_gpio_action` with `state=None`: the GPIO page answers its early
      refusals as usual, and on a configured LED `None.lower()` raises inside
      its own `try`, which turns the error into a failed reply. */
  function GpioActionWithoutState(a: App, b: int): (res: (Reply, App))
    ensures !res.0.ok && res.1 == a
  {
    var early := RequestGpioAction(a, b, "", None);
    if a.gpio.Some? && a.gpio.value.gpio && b in a.gpio.value.active && a.gpio.value.active[b].kind == Led then
      (DeviceFailed(b, "'NoneType' object has no attribute 'lower'"), a)
    else early
  }

  /** The command names the dispatcher knows. */
  const Commands: set<string> := {"execute_gpio_command", "execute_gpio_pulse", "query_system_status", "run_vehicle_diagnostics"}

  /** The dispatch of one parsed tag to the hub. `confirmed` answers the
      confirmation a DTC clear asks for; `stat` is the status page's reading;
      `faults` gives what driving each pin's device raises, if anything. */
  function Dispatch(a: App, c: Call, confirmed: bool, stat: Option<string> -> Reply, faults: int -> Option<string>): (res: (Reply, App))
    ensures c.name !in Commands ==> res == (Reply(false, "Unknown command."), a)
    ensures c.name in {"execute_gpio_command", "execute_gpio_pulse"} && IntArg(c.args, "pin").Failed? ==>
              res == (ParseError(IntArg(c.args, "pin").error), a)
    ensures c.name == "execute_gpio_command" && IntArg(c.args, "pin").Converted? && "state" in c.args ==>
              res == RequestGpioAction(a, IntArg(c.args, "pin").value, c.args["state"], faults(IntArg(c.args, "pin").value))
    ensures c.name == "execute_gpio_pulse" && IntArg(c.args, "pin").Converted? && IntArg(c.args, "interval_ms").Converted? ==>
              res == RequestGpioPulse(a, IntArg(c.args, "pin").value, IntArg(c.args, "interval_ms").value)
    ensures c.name == "query_system_status" ==> res.1 == a
    ensures c.name == "run_vehicle_diagnostics" && "action" in c.args ==>
              res == RequestVehicleDiagnostics(a, c.args["action"], confirmed)
  {
    if c.name == "execute_gpio_command" then
      match IntArg(c.args, "pin")
      case Failed(e) => (ParseError(e), a)
      case Converted(pin) =>
        if "state" in c.args then RequestGpioAction(a, pin, c.args["state"], faults(pin)) else GpioActionWithoutState(a, pin)
    else if c.name == "execute_gpio_pulse" then
      match IntArg(c.args, "pin")
      case Failed(e) => (ParseError(e), a)
      case Converted(pin) =>
        match IntArg(c.args, "interval_ms")
        case Failed(e) => (ParseError(e), a)
        case Converted(ms) => RequestGpioPulse(a, pin, ms)
    else if c.name == "query_system_status" then
      (RequestSystemStatus(a, if "query" in c.args then Some(c.args["query"]) else None, stat), a)
    else if c.name == "run_vehicle_diagnostics" then
      // f"Unknown vehicle action: {None}" prints "None", which is also not an action name.
      RequestVehicleDiagnostics(a, if "action" in c.args then c.args["action"] else "None", confirmed)
    else (Reply(false, "Unknown command."), a)
  }

  /** One feedback line. */
  function FeedbackLine(name: string, reply: Reply): (line: string)
    ensures StartsWith(line, "CMD: " + name + " ")
  {
    var head := "CMD: " + name + " ";
    var line := head + ((if reply.ok then "OK" else "FAIL") + ". Response: " + reply.message);
    assert line[..|head|] == head;
    line
  }

  /** Running the tags in order: the hub's state is threaded through the
      dispatches (`step`); a tag that does not parse stops the run with the
      effects of the tags before it kept. */
  datatype Run<S> = Ran(state: S, lines: seq<string>) | Stopped(state: S)

  /** Every tag body parses. */
  predicate AllParse(bodies: seq<string>)
    decreases |bodies|
  {
    bodies == [] || (ParseTag(bodies[0]).Some? && AllParse(bodies[1..]))
  }

  lemma {:induction false} AllParseAt(bodies: seq<string>, k: nat)
    requires AllParse(bodies) && k < |bodies|
    ensures ParseTag(bodies[k]).Some?
    decreases k
  {
    if k > 0 {
      AllParseAt(bodies[1..], k - 1);
    }
  }

  function RunTags<S>(s: S, bodies: seq<string>, step: (S, Call) -> (Reply, S)): (r: Run<S>)
    ensures r.Ran? <==> AllParse(bodies)
    ensures r.Ran? ==> |r.lines| == |bodies|
    decreases |bodies|
  {
    if bodies == [] then Ran(s, [])
    else match ParseTag(bodies[0])
      case None => Stopped(s)
      case Some(c) =>
        var out := step(s, c);
        match RunTags(out.1, bodies[1..], step)
        case Stopped(t) => Stopped(t)
        case Ran(t, lines) => Ran(t, [FeedbackLine(c.name, out.0)] + lines)
  }

  /** Line `k` of the feedback reports the command of tag `k`. */
  lemma {:induction false} RunTagsLines<S>(s: S, bodies: seq<string>, step: (S, Call) -> (Reply, S), k: nat)
    requires RunTags(s, bodies, step).Ran? && k < |bodies|
    ensures AllParse(bodies) && ParseTag(bodies[k]).Some?
    ensures StartsWith(RunTags(s, bodies, step).lines[k], "CMD: " + ParseTag(bodies[k]).value.name + " ")
    decreases |bodies|
  {
    AllParseAt(bodies, k);
    if k > 0 {
      var c := ParseTag(bodies[0]).value;
      RunTagsLines(step(s, c).1, bodies[1..], step, k - 1);
    }
  }

  /** The outcome of `_process_ai_commands`: the speakable text and the joined
      feedback, or the exception that ends the pass (with the hub as the tags
      before it left it). */
  datatype Outcome = Answered(app: App, speakable: string, feedback: string) | Crashed(app: App)

  function ProcessAiCommands(a: App, text: string, confirmed: bool, stat: Option<string> -> Reply, faults: int -> Option<string>): (o: Outcome)
    ensures o.Answered? <==> AllParse(Tags(text))
    ensures Tags(text) == [] ==> o == Answered(a, Strip(text), "")
  {
    var bodies := Tags(text);
    match RunTags(a, bodies, (b: App, c: Call) => Dispatch(b, c, confirmed, stat, faults))
    case Stopped(b) => Crashed(b)
    case Ran(b, lines) => Answered(b, Strip(Cleaned(text, bodies)), Join(lines, "\n"))
  }

  // ---------------------------------------------------------------------------
  // Composing a reply from plain text and tags, and reading it back
  // ---------------------------------------------------------------------------

  /** A piece of an assistant reply: text to be spoken, or a command tag. */
  datatype Segment = Plain(text: string) | Tag(body: string)

  /** A body without '<', '|' or a newline: the tags of the documented grammar. */
  predicate SimpleBody(b: string) {
    '<' !in b && '|' !in b && '\n' !in b
  }

  /** Plain text without '<' and tags with simple bodies. */
  predicate Composable(segs: seq<Segment>)
    decreases |segs|
  {
    segs == [] ||
    (&& (match segs[0] case Plain(t) => '<' !in t case Tag(b) => SimpleBody(b))
     && Composable(segs[1..]))
  }

  function SegmentText(g: Segment): string {
    match g
    case Plain(t) => t
    case Tag(b) => TagText(b)
  }

  /** The reply text the segments spell. */
  function Render(segs: seq<Segment>): string
    decreases |segs|
  {
    if segs == [] then "" else SegmentText(segs[0]) + Render(segs[1..])
  }

  /** The tag bodies, in order. */
  function Bodies(segs: seq<Segment>): seq<string>
    decreases |segs|
  {
    if segs == [] then []
    else (if segs[0].Tag? then [segs[0].body] else []) + Bodies(segs[1..])
  }

  /** The plain text, in order. */
  function PlainText(segs: seq<Segment>): string
    decreases |segs|
  {
    if segs == [] then ""
    else (if segs[0].Plain? then segs[0].text else "") + PlainText(segs[1..])
  }

  /** The segments with the tags whose body is in `gone` taken out. */
  function Without(segs: seq<Segment>, gone: set<string>): seq<Segment>
    decreases |segs|
  {
    if segs == [] then []
    else (if segs[0].Tag? && segs[0].body in gone then [] else [segs[0]]) + Without(segs[1..], gone)
  }

  /** Text without '<' holds no tag. */
  lemma {:induction false} TagsSkip(x: string, r: string)
    requires '<' !in x
    ensures Tags(x + r) == Tags(r)
    decreases |x|
  {
    if |x| > 0 {
      assert (x + r)[0] == x[0];
      assert (x + r)[1..] == x[1..] + r;
      TagsSkip(x[1..], r);
    } else {
      assert x + r == r;
    }
  }

  /** The shortest body before "|>" is the whole of a body without '|' or newline. */
  lemma {:induction false} CloseAtBody(b: string, r: string)
    requires '|' !in b && '\n' !in b
    ensures CloseAt(b + "|>" + r) == Some(|b|)
    decreases |b|
  {
    var s := b + "|>" + r;
    if |b| > 0 {
      assert s[0] == b[0];
      assert s[1..] == b[1..] + "|>" + r;
      CloseAtBody(b[1..], r);
    } else {
      assert s == "|>" + r;
    }
  }

  /** A tag with a simple body is found, and the search resumes after it. */
  lemma TagsTag(b: string, r: string)
    requires SimpleBody(b)
    ensures Tags(TagText(b) + r) == [b] + Tags(r)
  {
    var s := TagText(b) + r;
    assert s[2..] == b + "|>" + r;
    CloseAtBody(b, r);
    assert s[2..2 + |b|] == b;
    assert s[2 + |b| + 2..] == r;
  }

  /** The tags found in a composed reply are exactly its tags, in order. */
  lemma {:induction false} TagsRender(segs: seq<Segment>)
    requires Composable(segs)
    ensures Tags(Render(segs)) == Bodies(segs)
    decreases |segs|
  {
    if segs != [] {
      TagsRender(segs[1..]);
      match segs[0]
      case Plain(t) => TagsSkip(t, Render(segs[1..]));
      case Tag(b) => TagsTag(b, Render(segs[1..]));
    }
  }

  /** Removing a tag leaves text without '<' untouched. */
  lemma {:induction false} RemoveSkip(x: string, r: string, t: string)
    requires '<' !in x
    ensures RemoveAll(x + r, TagText(t)) == x + RemoveAll(r, TagText(t))
    decreases |x|
  {
    var target := TagText(t);
    if |x| > 0 {
      var s := x + r;
      assert s[0] == x[0];
      assert s[1..] == x[1..] + r;
      if |s| >= |target| {
        assert s[..|target|][0] != target[0];
      }
      RemoveSkip(x[1..], r, t);
      if |s| < |target| {
        assert RemoveAll(r, target) == r;
      }
    } else {
      assert x + r == r;
    }
  }

  /** A simple tag is not the start of a different simple tag. */
  lemma TagTextMismatch(b: string, t: string, r: string)
    requires SimpleBody(b) && SimpleBody(t) && b != t
    ensures !StartsWith(TagText(b) + r, TagText(t))
  {
    var s := TagText(b) + r;
    var target := TagText(t);
    if |t| < |b| {
      assert s[2 + |t|] == b[|t|];
      assert target[2 + |t|] == '|';
    } else if |t| > |b| {
      assert s[2 + |b|] == '|';
      assert target[2 + |b|] == t[|b|];
    } else {
      assert s[2..2 + |b|] == b;
      assert target[2..2 + |t|] == t;
    }
  }

  /** Removing tag `t` from a text that starts with the same tag. */
  lemma RemoveSameTag(t: string, r: string)
    ensures RemoveAll(TagText(t) + r, TagText(t)) == RemoveAll(r, TagText(t))
  {
    var s := TagText(t) + r;
    var target := TagText(t);
    assert s[..|target|] == target;
    assert s[|target|..] == r;
  }

  /** Where a text does not start with the target, `replace` keeps its first character. */
  lemma RemoveAllKeepsHead(s: string, target: string)
    requires target != "" && |s| >= |target| && !StartsWith(s, target)
    ensures RemoveAll(s, target) == [s[0]] + RemoveAll(s[1..], target)
  {
  }

  lemma TagTextSplit(b: string, r: string)
    ensures TagText(b) + r == "<" + (("|" + b + "|>") + r)
  {
  }

  /** A first character that does not start the target is kept. */
  lemma RemoveKeepsFirst(c: char, rest: string, target: string)
    requires target != "" && !StartsWith([c] + rest, target)
    ensures RemoveAll([c] + rest, target) == [c] + RemoveAll(rest, target)
  {
    var s := [c] + rest;
    assert s[1..] == rest;
    if |s| >= |target| {
      RemoveAllKeepsHead(s, target);
    }
  }

  /** Removing tag `t` from a text that starts with a different simple tag `b`. */
  lemma RemoveOtherTag(b: string, t: string, r: string)
    requires SimpleBody(b) && SimpleBody(t) && b != t
    ensures RemoveAll(TagText(b) + r, TagText(t)) == TagText(b) + RemoveAll(r, TagText(t))
  {
    var target := TagText(t);
    var tail := "|" + b + "|>";
    TagTextSplit(b, r);
    TagTextMismatch(b, t, r);
    RemoveKeepsFirst('<', tail + r, target);
    RemoveSkip(tail, r, t);
    TagTextSplit(b, RemoveAll(r, target));
  }

  /** Removing a tag from a composed reply takes out exactly its occurrences. */
  lemma {:induction false} RemoveRender(segs: seq<Segment>, t: string)
    requires Composable(segs) && SimpleBody(t)
    ensures RemoveAll(Render(segs), TagText(t)) == Render(Without(segs, {t}))
    decreases |segs|
  {
    if segs != [] {
      RemoveRender(segs[1..], t);
      match segs[0]
      case Plain(x) =>
        RemoveSkip(x, Render(segs[1..]), t);
        assert Without(segs, {t}) == [segs[0]] + Without(segs[1..], {t});
      case Tag(b) =>
        if b == t {
          RemoveSameTag(t, Render(segs[1..]));
          assert Without(segs, {t}) == Without(segs[1..], {t});
        } else {
          RemoveOtherTag(b, t, Render(segs[1..]));
          assert Without(segs, {t}) == [segs[0]] + Without(segs[1..], {t});
        }
    }
  }

  lemma {:induction false} WithoutComposable(segs: seq<Segment>, gone: set<string>)
    requires Composable(segs)
    ensures Composable(Without(segs, gone))
    decreases |segs|
  {
    if segs != [] {
      WithoutComposable(segs[1..], gone);
      var w := Without(segs, gone);
      if segs[0].Tag? && segs[0].body in gone {
        assert w == Without(segs[1..], gone);
      } else {
        assert w == [segs[0]] + Without(segs[1..], gone);
        assert w[0] == segs[0] && w[1..] == Without(segs[1..], gone);
      }
    }
  }

  lemma {:induction false} WithoutTwice(segs: seq<Segment>, gone: set<string>, t: string)
    ensures Without(Without(segs, gone), {t}) == Without(segs, gone + {t})
    decreases |segs|
  {
    if segs != [] {
      WithoutTwice(segs[1..], gone, t);
      var w := Without(segs, gone);
      if segs[0].Tag? && segs[0].body in gone {
        assert w == Without(segs[1..], gone);
      } else {
        assert w == [segs[0]] + Without(segs[1..], gone);
        assert w[1..] == Without(segs[1..], gone);
      }
    }
  }

  /** Every tag body of a composable reply is simple. */
  lemma {:induction false} BodiesSimple(segs: seq<Segment>, k: nat)
    requires Composable(segs) && k < |Bodies(segs)|
    ensures SimpleBody(Bodies(segs)[k])
    decreases |segs|
  {
    if segs[0].Tag? {
      if k > 0 {
        BodiesSimple(segs[1..], k - 1);
      }
    } else {
      BodiesSimple(segs[1..], k);
    }
  }

  function Elems(bs: seq<string>): set<string> {
    set k | 0 <= k < |bs| :: bs[k]
  }

  /** The replaces, one per removed body, take out the tags with those bodies. */
  lemma {:induction false} CleanedRender(segs: seq<Segment>, gone: set<string>, bs: seq<string>)
    requires Composable(segs)
    requires forall k :: 0 <= k < |bs| ==> SimpleBody(bs[k])
    ensures Cleaned(Render(Without(segs, gone)), bs) == Render(Without(segs, gone + Elems(bs)))
    decreases |bs|
  {
    if bs == [] {
      assert gone + Elems(bs) == gone;
    } else {
      WithoutComposable(segs, gone);
      RemoveRender(Without(segs, gone), bs[0]);
      WithoutTwice(segs, gone, bs[0]);
      CleanedRender(segs, gone + {bs[0]}, bs[1..]);
      assert gone + {bs[0]} + Elems(bs[1..]) == gone + Elems(bs) by {
        assert bs == [bs[0]] + bs[1..];
      }
    }
  }

  lemma {:induction false} WithoutNothing(segs: seq<Segment>)
    ensures Without(segs, {}) == segs
    decreases |segs|
  {
    if segs != [] {
      WithoutNothing(segs[1..]);
    }
  }

  /** Taking out every tag leaves the plain text. */
  lemma {:induction false} WithoutAllTags(segs: seq<Segment>, gone: set<string>)
    requires forall k :: 0 <= k < |Bodies(segs)| ==> Bodies(segs)[k] in gone
    ensures Render(Without(segs, gone)) == PlainText(segs)
    decreases |segs|
  {
    if segs != [] {
      var rest := Bodies(segs[1..]);
      if segs[0].Tag? {
        assert Bodies(segs) == [segs[0].body] + rest;
        assert forall k :: 0 <= k < |rest| ==> rest[k] == Bodies(segs)[k + 1];
        assert Bodies(segs)[0] in gone;
        assert Without(segs, gone) == Without(segs[1..], gone);
      } else {
        assert Bodies(segs) == rest;
        assert Without(segs, gone) == [segs[0]] + Without(segs[1..], gone);
      }
      WithoutAllTags(segs[1..], gone);
    }
  }

  /** A composed reply holds exactly its tags, in order, and the replaces
      leave exactly its plain text. */
  lemma RenderedTags(segs: seq<Segment>)
    requires Composable(segs)
    ensures Tags(Render(segs)) == Bodies(segs)
    ensures Cleaned(Render(segs), Bodies(segs)) == PlainText(segs)
  {
    var bs := Bodies(segs);
    TagsRender(segs);
    forall k | 0 <= k < |bs| ensures SimpleBody(bs[k]) {
      BodiesSimple(segs, k);
    }
    WithoutNothing(segs);
    CleanedRender(segs, {}, bs);
    WithoutAllTags(segs, {} + Elems(bs));
  }

  /** Reading a composed reply: the tags dispatched are exactly its tags in
      order, one feedback line each, and what is shown and spoken is its plain
      text, stripped. */
  lemma ProcessRendered(a: App, segs: seq<Segment>, confirmed: bool, stat: Option<string> -> Reply, faults: int -> Option<string>)
    requires Composable(segs)
    ensures Tags(Render(segs)) == Bodies(segs)
    ensures var o := ProcessAiCommands(a, Render(segs), confirmed, stat, faults);
            o.Answered? ==> o.speakable == Strip(PlainText(segs))
    ensures var r := RunTags(a, Bodies(segs), (b: App, c: Call) => Dispatch(b, c, confirmed, stat, faults));
            r.Ran? ==> ProcessAiCommands(a, Render(segs), confirmed, stat, faults).feedback == Join(r.lines, "\n")
                       && |r.lines| == |Bodies(segs)|
  {
    RenderedTags(segs);
  }

  /** A reply with a single tag that parses: the hub sees one dispatch and one
      feedback line comes back. */
  lemma ProcessOneTag(a: App, text: string, body: string, c: Call, confirmed: bool, stat: Option<string> -> Reply, faults: int -> Option<string>)
    requires Tags(text) == [body] && ParseTag(body) == Some(c)
    ensures var res := Dispatch(a, c, confirmed, stat, faults);
            ProcessAiCommands(a, text, confirmed, stat, faults)
              == Answered(res.1, Strip(Cleaned(text, [body])), FeedbackLine(c.name, res.0))
  {
    var step := (b: App, c: Call) => Dispatch(b, c, confirmed, stat, faults);
    var res := Dispatch(a, c, confirmed, stat, faults);
    assert [body][1..] == [];
    assert RunTags(res.1, [], step) == Ran(res.1, []);
    assert RunTags(a, [body], step) == Ran(res.1, [FeedbackLine(c.name, res.0)]);
  }

  // ---------------------------------------------------------------------------
  // Writing a tag in the documented grammar, and reading it back
  // ---------------------------------------------------------------------------

  /** One attribute `key="value"`. */
  function AttrToken(key: string, value: string): string {
    key + "=" + ("\"" + value + "\"")
  }

  function AttrTokens(attrs: seq<(string, string)>): (tokens: seq<string>)
    ensures |tokens| == |attrs|
    ensures forall k :: 0 <= k < |attrs| ==> tokens[k] == AttrToken(attrs[k].0, attrs[k].1)
    decreases |attrs|
  {
    if attrs == [] then [] else [AttrToken(attrs[0].0, attrs[0].1)] + AttrTokens(attrs[1..])
  }

  /** A tag body `name key="value" ...` as the prompt describes it. */
  function RenderCall(name: string, attrs: seq<(string, string)>): string {
    Join([name] + AttrTokens(attrs), " ")
  }

  /** The dictionary the attributes describe, a later key overriding an earlier one. */
  function AttrMap(acc: map<string, string>, attrs: seq<(string, string)>): map<string, string>
    decreases |attrs|
  {
    if attrs == [] then acc else AttrMap(acc[attrs[0].0 := attrs[0].1], attrs[1..])
  }

  /** Keys and values the grammar allows: no whitespace, no '=', and no '"' in a value. */
  predicate GoodAttr(key: string, value: string) {
    NoSpace(key) && '=' !in key && NoSpace(value) && '=' !in value && '"' !in value
  }

  predicate GoodAttrs(attrs: seq<(string, string)>) {
    forall k :: 0 <= k < |attrs| ==> GoodAttr(attrs[k].0, attrs[k].1)
  }

  /** One attribute reads back as its key and value. */
  lemma ReadAttrToken(key: string, value: string)
    requires GoodAttr(key, value)
    ensures Split(AttrToken(key, value), '=') == [key, "\"" + value + "\""]
    ensures StripChar("\"" + value + "\"", '"') == value
    ensures IsWord(AttrToken(key, value))
  {
    var quoted := "\"" + value + "\"";
    assert Join([key, quoted], "=") == AttrToken(key, value);
    assert '=' !in quoted;
    SplitJoin([key, quoted], '=');
    StripQuotes(value);
  }

  /** The attributes read back as the dictionary they describe. */
  lemma {:induction false} ParseArgsRendered(acc: map<string, string>, attrs: seq<(string, string)>)
    requires GoodAttrs(attrs)
    ensures ParseArgs(acc, AttrTokens(attrs)) == Some(AttrMap(acc, attrs))
    decreases |attrs|
  {
    if attrs != [] {
      var (key, value) := attrs[0];
      ReadAttrToken(key, value);
      var tokens := AttrTokens(attrs);
      assert tokens[1..] == AttrTokens(attrs[1..]);
      ParseArgsRendered(acc[key := value], attrs[1..]);
    }
  }

  /** A tag written in the documented grammar parses back into its command
      name and attribute dictionary. */
  lemma ParseTagRendered(name: string, attrs: seq<(string, string)>)
    requires IsWord(name) && GoodAttrs(attrs)
    ensures ParseTag(RenderCall(name, attrs)) == Some(Call(name, AttrMap(map[], attrs)))
  {
    var words := [name] + AttrTokens(attrs);
    forall k | 0 <= k < |words| ensures IsWord(words[k]) {
      if k > 0 {
        ReadAttrToken(attrs[k - 1].0, attrs[k - 1].1);
      }
    }
    SplitWhitespaceJoin(words);
    assert words[1..] == AttrTokens(attrs);
    ParseArgsRendered(map[], attrs);
  }

  // ---------------------------------------------------------------------------
  // Consequences
  // ---------------------------------------------------------------------------

  lemma IntToStringChars(n: int)
    ensures forall k :: 0 <= k < |IntToString(n)| ==> IsDigit(IntToString(n)[k]) || IntToString(n)[k] == '-'
  {
  }

  /** The attribute dictionary of `pin="n" state="s"`. */
  lemma GpioAttrs(pin: string, state: string)
    ensures AttrMap(map[], [("pin", pin), ("state", state)]) == map["pin" := pin, "state" := state]
  {
    var attrs := [("pin", pin), ("state", state)];
    assert attrs[1..] == [("state", state)];
    assert attrs[1..][1..] == [];
    assert AttrMap(map[], attrs) == AttrMap(map["pin" := pin], [("state", state)]);
  }

  /** The dispatch of `execute_gpio_command` with an integer pin and a state. */
  lemma DispatchGpioCommand(a: App, n: int, state: string, confirmed: bool, stat: Option<string> -> Reply, faults: int -> Option<string>)
    ensures var c := Call("execute_gpio_command", map["pin" := IntToString(n), "state" := state]);
            Dispatch(a, c, confirmed, stat, faults) == RequestGpioAction(a, n, state, faults(n))
  {
    ParseIntToString(n);
  }

  /** A tag written from simple pieces has a simple body. */
  lemma RenderCallSimple(name: string, attrs: seq<(string, string)>)
    requires SimpleBody(name)
    requires forall k :: 0 <= k < |attrs| ==> SimpleBody(attrs[k].0) && SimpleBody(attrs[k].1)
    ensures SimpleBody(RenderCall(name, attrs))
  {
    var words := [name] + AttrTokens(attrs);
    forall k | 0 <= k < |words| ensures SimpleBody(words[k]) {
      if k > 0 {
        var (key, value) := attrs[k - 1];
        assert words[k] == key + "=" + ("\"" + value + "\"");
      }
    }
    JoinExcludes(words, " ", '<');
    JoinExcludes(words, " ", '|');
    JoinExcludes(words, " ", '\n');
  }

  /** Attributes whose keys and values are simple bodies. */
  predicate SimpleAttrs(attrs: seq<(string, string)>) {
    forall k :: 0 <= k < |attrs| ==> SimpleBody(attrs[k].0) && SimpleBody(attrs[k].1)
  }

  /** The text side of a reply made of one tag in the documented grammar: it
      is found, it parses into its name and attributes, and nothing is left
      once it is removed. */
  lemma SingleTagText(name: string, attrs: seq<(string, string)>)
    requires IsWord(name) && SimpleBody(name) && GoodAttrs(attrs) && SimpleAttrs(attrs)
    ensures var body := RenderCall(name, attrs);
            && Tags(TagText(body)) == [body]
            && Cleaned(TagText(body), [body]) == ""
            && ParseTag(body) == Some(Call(name, AttrMap(map[], attrs)))
  {
    var body := RenderCall(name, attrs);
    ParseTagRendered(name, attrs);
    RenderCallSimple(name, attrs);
    var segs := [Tag(body)];
    assert segs[1..] == [];
    assert Render(segs) == TagText(body) + "";
    assert TagText(body) + "" == TagText(body);
    RenderedTags(segs);
  }

  /** The command name `execute_gpio_command` is a simple word. */
  lemma GpioNameWord()
    ensures IsWord("execute_gpio_command") && SimpleBody("execute_gpio_command")
  {
  }

  /** The attributes `pin="n" state="s"` are in the grammar. */
  lemma GpioTagPieces(n: int, state: string)
    requires NoSpace(state) && '=' !in state && '"' !in state && SimpleBody(state)
    ensures GoodAttrs([("pin", IntToString(n)), ("state", state)])
    ensures SimpleAttrs([("pin", IntToString(n)), ("state", state)])
  {
    IntToStringChars(n);
    assert NoSpace("pin") && SimpleBody("pin") && '=' !in "pin";
    assert NoSpace("state") && SimpleBody("state") && '=' !in "state";
  }

  /** The text side of a lone `execute_gpio_command` tag. */
  lemma GpioTagText(n: int, state: string)
    requires NoSpace(state) && '=' !in state && '"' !in state && SimpleBody(state)
    ensures var body := RenderCall("execute_gpio_command", [("pin", IntToString(n)), ("state", state)]);
            && Tags(TagText(body)) == [body]
            && Cleaned(TagText(body), [body]) == ""
            && ParseTag(body) == Some(Call("execute_gpio_command", map["pin" := IntToString(n), "state" := state]))
  {
    GpioNameWord();
    GpioTagPieces(n, state);
    SingleTagText("execute_gpio_command", [("pin", IntToString(n)), ("state", state)]);
    GpioAttrs(IntToString(n), state);
  }

  /** A reply that is nothing but `<|execute_gpio_command pin="n" state="s"|>`
      does what `request_gpio_action(n, s)` does, reports it on one feedback
      line, and leaves nothing to speak. */
  lemma GpioCommandTag(a: App, n: int, state: string, confirmed: bool, stat: Option<string> -> Reply, faults: int -> Option<string>)
    requires NoSpace(state) && '=' !in state && '"' !in state && SimpleBody(state)
    ensures var body := RenderCall("execute_gpio_command", [("pin", IntToString(n)), ("state", state)]);
            var res := RequestGpioAction(a, n, state, faults(n));
            ProcessAiCommands(a, TagText(body), confirmed, stat, faults)
              == Answered(res.1, "", FeedbackLine("execute_gpio_command", res.0))
  {
    var body := RenderCall("execute_gpio_command", [("pin", IntToString(n)), ("state", state)]);
    var c := Call("execute_gpio_command", map["pin" := IntToString(n), "state" := state]);
    GpioTagText(n, state);
    ProcessOneTag(a, TagText(body), body, c, confirmed, stat, faults);
    DispatchGpioCommand(a, n, state, confirmed, stat, faults);
    StripNoEdgeSpace("");
  }

  /** The text side of `"<" + "<|x|>" + "|x|>"`: one tag is found, and removing
      it joins the rest into that same tag. */
  lemma ReformedText(x: string)
    requires SimpleBody(x)
    ensures Tags("<" + TagText(x) + ("|" + x + "|>")) == [x]
    ensures Cleaned("<" + TagText(x) + ("|" + x + "|>"), [x]) == TagText(x)
  {
    var tail := "|" + x + "|>";
    var text := "<" + TagText(x) + tail;
    assert text == "<" + (TagText(x) + tail);
    LeadingLtTags(x, tail);
    LeadingLtRemove(x, tail);
    RemoveNoLt(tail, x);
    LtTail(x);
    assert Cleaned(text, [x]) == RemoveAll(text, TagText(x));
  }

  /** A text without '<' holds no tag to remove. */
  lemma RemoveNoLt(s: string, t: string)
    requires '<' !in s
    ensures RemoveAll(s, TagText(t)) == s
  {
    RemoveSkip(s, "", t);
    assert s + "" == s;
  }

  lemma LtTail(x: string)
    ensures "<" + ("|" + x + "|>") == TagText(x)
  {
  }

  /** A '<' in front of a tag and a text without '<' hides nothing: the tag
      is the only one found. */
  lemma LeadingLtTags(x: string, tail: string)
    requires SimpleBody(x) && '<' !in tail
    ensures Tags("<" + (TagText(x) + tail)) == [x]
  {
    var inner := TagText(x) + tail;
    TagsTag(x, tail);
    TagsSkip(tail, "");
    assert tail + "" == tail;
    assert ("<" + inner)[1] == '<';
    assert ("<" + inner)[1..] == inner;
  }

  /** Removing that tag keeps the '<' in front and joins it to the text. */
  lemma LeadingLtRemove(x: string, tail: string)
    ensures RemoveAll("<" + (TagText(x) + tail), TagText(x)) == "<" + RemoveAll(tail, TagText(x))
  {
    var inner := TagText(x) + tail;
    assert ("<" + inner)[1] == '<' && TagText(x)[1] == '|';
    RemoveKeepsFirst('<', inner, TagText(x));
    RemoveSameTag(x, tail);
  }

  /** Replacing an earlier tag can create a tag: a reply "<<|x|>|x|>" holds
      one tag, and removing it leaves "<|x|>" to be shown and spoken. So not
      every tag found is gone from the returned text. */
  lemma TagReformed(a: App, x: string, confirmed: bool, stat: Option<string> -> Reply, faults: int -> Option<string>)
    requires IsWord(x) && SimpleBody(x) && x !in Commands
    ensures Tags("<" + TagText(x) + ("|" + x + "|>")) == [x]
    ensures ProcessAiCommands(a, "<" + TagText(x) + ("|" + x + "|>"), confirmed, stat, faults)
              == Answered(a, TagText(x), FeedbackLine(x, Reply(false, "Unknown command.")))
    ensures Contains(TagText(x), TagText(x))
  {
    var text := "<" + TagText(x) + ("|" + x + "|>");
    ReformedText(x);
    StripNoEdgeSpace(TagText(x));
    UnknownOneTag(a, text, x, TagText(x), confirmed, stat, faults);
    assert StartsWith(TagText(x), TagText(x));
  }

  /** A text whose one tag is a bare unknown name gets one FAIL line and
      changes nothing. */
  lemma UnknownOneTag(a: App, text: string, x: string, cleaned: string, confirmed: bool, stat: Option<string> -> Reply, faults: int -> Option<string>)
    requires Tags(text) == [x] && IsWord(x) && x !in Commands
    requires Cleaned(text, [x]) == cleaned && Strip(cleaned) == cleaned
    ensures ProcessAiCommands(a, text, confirmed, stat, faults)
              == Answered(a, cleaned, FeedbackLine(x, Reply(false, "Unknown command.")))
  {
    BareNameParses(x);
    ProcessOneTag(a, text, x, Call(x, map[]), confirmed, stat, faults);
  }

  /** A tag body that is a single word is a call without attributes. */
  lemma BareNameParses(x: string)
    requires IsWord(x)
    ensures ParseTag(x) == Some(Call(x, map[]))
  {
    var parts := SplitWhitespace(x);
    assert parts == [x] by {
      assert Join([x], " ") == x;
      SplitWhitespaceJoin([x]);
    }
    assert parts[1..] == [];
    assert ParseArgs(map[], []) == Some(map[]);
  }

  /** An empty tag raises before anything is reported. */
  lemma EmptyTagCrashes(a: App, pre: string, post: string, confirmed: bool, stat: Option<string> -> Reply, faults: int -> Option<string>)
    requires '<' !in pre
    ensures ProcessAiCommands(a, pre + TagText("") + post, confirmed, stat, faults) == Crashed(a)
  {
    TagsSkip(pre, TagText("") + post);
    assert pre + TagText("") + post == pre + (TagText("") + post);
    TagsTag("", post);
    assert SplitWhitespace("") == [];
  }

  /** A tag body `name word` with `word` lacking '=' does not parse. */
  lemma BareWordUnparsed(name: string, word: string)
    requires IsWord(name) && IsWord(word) && '=' !in word
    ensures ParseTag(name + " " + word).None?
  {
    SplitWhitespaceJoin([name, word]);
    assert Join([name, word], " ") == name + " " + word;
    assert SplitWhitespace(name + " " + word)[1..] == [word];
    assert Split(word, '=') == [word];
  }

  /** The text side of a tag followed by `<|name word|>` where `word` has no '='. */
  lemma BareWordText(body: string, name: string, word: string)
    requires SimpleBody(body) && SimpleBody(name + " " + word)
    requires IsWord(name) && IsWord(word) && '=' !in word
    ensures Tags(TagText(body) + TagText(name + " " + word)) == [body, name + " " + word]
    ensures ParseTag(name + " " + word).None?
  {
    var bare := name + " " + word;
    TagsTag(body, TagText(bare));
    TagsTag(bare, "");
    assert TagText(bare) + "" == TagText(bare);
    BareWordUnparsed(name, word);
  }

  /** An attribute without '=' (say `<|query_system_status cpu_load|>`) raises
      instead of producing a FAIL line; the tag before it has already been
      dispatched. */
  lemma BareWordCrashes(a: App, body: string, name: string, word: string,
                        confirmed: bool, stat: Option<string> -> Reply, faults: int -> Option<string>)
    requires SimpleBody(body) && ParseTag(body).Some?
    requires SimpleBody(name + " " + word) && IsWord(name) && IsWord(word) && '=' !in word
    ensures var after := Dispatch(a, ParseTag(body).value, confirmed, stat, faults).1;
            ProcessAiCommands(a, TagText(body) + TagText(name + " " + word), confirmed, stat, faults)
              == Crashed(after)
  {
    var bare := name + " " + word;
    BareWordText(body, name, word);
    var step := (b: App, c: Call) => Dispatch(b, c, confirmed, stat, faults);
    var after := Dispatch(a, ParseTag(body).value, confirmed, stat, faults).1;
    assert [body, bare][1..] == [bare];
    assert RunTags(after, [bare], step) == Stopped(after);
  }

  /** The hub's invariant holds through every dispatch. */
  lemma DispatchKeepsConsistency(a: App, c: Call, confirmed: bool, stat: Option<string> -> Reply, faults: int -> Option<string>)
    requires Consistent(a)
    ensures Consistent(Dispatch(a, c, confirmed, stat, faults).1)
    ensures Dispatch(a, c, confirmed, stat, faults).1.pages == a.pages
  {
    if c.name == "execute_gpio_command" {
      GpioCommandKeepsConsistency(a, c, confirmed, stat, faults);
    } else if c.name == "execute_gpio_pulse" {
      GpioPulseKeepsConsistency(a, c, confirmed, stat, faults);
    } else if c.name == "run_vehicle_diagnostics" {
      VehicleRequestPreservesConsistency(a, if "action" in c.args then c.args["action"] else "None", confirmed);
    }
  }

  lemma GpioCommandKeepsConsistency(a: App, c: Call, confirmed: bool, stat: Option<string> -> Reply, faults: int -> Option<string>)
    requires Consistent(a) && c.name == "execute_gpio_command"
    ensures Consistent(Dispatch(a, c, confirmed, stat, faults).1)
    ensures Dispatch(a, c, confirmed, stat, faults).1.pages == a.pages
  {
    var pin := IntArg(c.args, "pin");
    if pin.Converted? && "state" in c.args {
      GpioRequestsPreserveConsistency(a, pin.value, c.args["state"], faults(pin.value), 0);
    }
  }

  lemma GpioPulseKeepsConsistency(a: App, c: Call, confirmed: bool, stat: Option<string> -> Reply, faults: int -> Option<string>)
    requires Consistent(a) && c.name == "execute_gpio_pulse"
    ensures Consistent(Dispatch(a, c, confirmed, stat, faults).1)
    ensures Dispatch(a, c, confirmed, stat, faults).1.pages == a.pages
  {
    var pin := IntArg(c.args, "pin");
    var ms := IntArg(c.args, "interval_ms");
    if pin.Converted? && ms.Converted? {
      GpioRequestsPreserveConsistency(a, pin.value, "", None, ms.value);
    }
  }

  /** A run keeps any invariant its step keeps. */
  lemma {:induction false} RunTagsInvariant<S>(s: S, bodies: seq<string>, step: (S, Call) -> (Reply, S), inv: S -> bool)
    requires inv(s)
    requires forall x: S, c: Call :: inv(x) ==> inv(step(x, c).1)
    ensures inv(RunTags(s, bodies, step).state)
    decreases |bodies|
  {
    if bodies != [] && ParseTag(bodies[0]).Some? {
      RunTagsInvariant(step(s, ParseTag(bodies[0]).value).1, bodies[1..], step, inv);
    }
  }

  /** Processing a reply, finished or not, keeps the hub consistent and its
      pages as they were. */
  lemma ProcessKeepsConsistency(a: App, text: string, confirmed: bool, stat: Option<string> -> Reply, faults: int -> Option<string>)
    requires Consistent(a)
    ensures Consistent(ProcessAiCommands(a, text, confirmed, stat, faults).app)
    ensures ProcessAiCommands(a, text, confirmed, stat, faults).app.pages == a.pages
  {
    var step := (b: App, c: Call) => Dispatch(b, c, confirmed, stat, faults);
    var inv := (b: App) => Consistent(b) && b.pages == a.pages;
    forall x: App, c: Call | inv(x) ensures inv(step(x, c).1) {
      DispatchKeepsConsistency(x, c, confirmed, stat, faults);
    }
    RunTagsInvariant(a, Tags(text), step, inv);
  }
}

/**
 The assistant page's conversation: which messages enter the history, the
 context window sent with each question, the mode (system prompt) switch, the
 guards on sending, and the streamed answer that ends in one history entry.
 */
module AiChat {
  import opened Wrappers
  import opened PyText

  /** One history entry: role "user" or "model". */
  datatype Entry = Entry(role: string, content: string)

  /** A chat bubble on screen: sender "user", "system" or "ai". */
  datatype Bubble = Bubble(sender: string, text: string)

  /** The three system prompts. Their text is static and not modelled. */
  datatype Prompt = DefaultPrompt | CodePrompt | CmdPrompt

  /** The page state: history, bubbles, current prompt, whether an answer is
      being produced, the answer text so far, and whether a streaming bubble
      is open to receive it. */
  datatype Chat = Chat(history: seq<Entry>, bubbles: seq<Bubble>, prompt: Prompt,
                       thinking: bool, response: string, streaming: bool)

  const InitialChat := Chat([], [], DefaultPrompt, false, "", false)

  // ---------------------------------------------------------------------------
  // Messages and history
  // ---------------------------------------------------------------------------

  /** `_add_message`: every message gets a bubble; only finished user and
      assistant messages enter the history, as "user" or "model"; a streaming
      bubble becomes the one that receives the answer. */
  function AddMessage(c: Chat, sender: string, message: string, isStream: bool): (r: Chat)
    ensures r.bubbles == c.bubbles + [Bubble(sender, message)]
    ensures sender in {"user", "ai"} && !isStream ==>
              r.history == c.history + [Entry(if sender == "user" then "user" else "model", message)]
    ensures !(sender in {"user", "ai"} && !isStream) ==> r.history == c.history
    ensures r.prompt == c.prompt && r.thinking == c.thinking && r.response == c.response
    ensures r.streaming == (c.streaming || isStream)
  {
    var withBubble := c.(bubbles := c.bubbles + [Bubble(sender, message)], streaming := c.streaming || isStream);
    if sender in {"user", "ai"} && !isStream then
      withBubble.(history := c.history + [Entry(if sender == "user" then "user" else "model", message)])
    else withBubble
  }

  // ---------------------------------------------------------------------------
  // Modes
  // ---------------------------------------------------------------------------

  /** The mode map, with the default prompt for any other name. */
  function ModePrompt(mode: string): (p: Prompt)
    ensures mode == "code" <==> p == CodePrompt
    ensures mode == "cmd" <==> p == CmdPrompt
    ensures mode !in {"code", "cmd"} <==> p == DefaultPrompt
  {
    if mode == "code" then CodePrompt else if mode == "cmd" then CmdPrompt else DefaultPrompt
  }

  /** `str.capitalize()` over ASCII: first letter upper, the rest lower. */
  function Capitalize(s: string): (r: string)
    ensures |r| == |s|
    ensures |s| > 0 ==> r[0] == UpperChar(s[0]) && r[1..] == Lower(s[1..])
  {
    if s == [] then [] else [UpperChar(s[0])] + Lower(s[1..])
  }

  /** `_set_mode`: switch the prompt and announce it in a system bubble. */
  function SetMode(c: Chat, mode: string): (r: Chat)
    ensures r.prompt == ModePrompt(mode)
    ensures r.history == c.history && r.thinking == c.thinking
    ensures r.bubbles == c.bubbles + [Bubble("system", "V.I.N.C.E. set to " + Capitalize(mode) + " Mode.")]
  {
    AddMessage(c.(prompt := ModePrompt(mode)), "system", "V.I.N.C.E. set to " + Capitalize(mode) + " Mode.", false)
  }

  /** Each sidebar button selects its own prompt; any other name selects the
      default one. */
  lemma ModeButtons(c: Chat, other: string)
    requires other !in {"code", "cmd"}
    ensures SetMode(c, "chat").prompt == DefaultPrompt
    ensures SetMode(c, "code").prompt == CodePrompt
    ensures SetMode(c, "cmd").prompt == CmdPrompt
    ensures SetMode(c, other).prompt == DefaultPrompt
  {
  }

  // ---------------------------------------------------------------------------
  // Context window
  // ---------------------------------------------------------------------------

  /** The speaker label of a history entry. */
  function Speaker(e: Entry): string {
    if e.role == "user" then "User" else "V.I.N.C.E."
  }

  function ContextLine(e: Entry): string {
    Speaker(e) + ": " + e.content
  }

  function ContextLines(h: seq<Entry>): (lines: seq<string>)
    ensures |lines| == |h|
    ensures forall k :: 0 <= k < |h| ==> lines[k] == ContextLine(h[k])
  {
    seq(|h|, k requires 0 <= k < |h| => ContextLine(h[k]))
  }

  /** The entries `chat_history[-(2*num_turns):]` selects. */
  function Window(h: seq<Entry>, turns: int): (w: seq<Entry>)
    ensures turns >= 1 ==> |w| == (if |h| < 2 * turns then |h| else 2 * turns)
    ensures turns >= 1 ==> w == h[|h| - |w|..]
    ensures turns == 0 ==> w == h
  {
    h[SliceStart(|h|, -(2 * turns))..]
  }

  /** `_get_conversation_context`. */
  function Context(h: seq<Entry>, turns: int): string {
    Join(ContextLines(Window(h, turns)), "\n")
  }

  lemma LineWithoutNewline(e: Entry)
    requires '\n' !in e.content
    ensures '\n' !in ContextLine(e)
  {
    assert '\n' !in Speaker(e) + ": ";
  }

  /** With no newline in any message, the context reads back line by line as
      the last `2 * turns` entries, each with its speaker label. */
  lemma ContextReadsBack(h: seq<Entry>, turns: int)
    requires turns >= 1
    requires forall k :: 0 <= k < |h| ==> '\n' !in h[k].content
    requires h != []
    ensures var w := Window(h, turns);
            Split(Context(h, turns), '\n') == ContextLines(w)
            && |w| <= 2 * turns && w == h[|h| - |w|..]
  {
    var w := Window(h, turns);
    var lines := ContextLines(w);
    forall k | 0 <= k < |lines| ensures '\n' !in lines[k] {
      assert w[k] == h[|h| - |w| + k];
      LineWithoutNewline(w[k]);
    }
    SplitJoin(lines, '\n');
  }

  /** A call with `num_turns = 0` would send the whole history: `[-0:]` is `[0:]`. */
  lemma ZeroTurnsIsEverything(h: seq<Entry>)
    ensures Context(h, 0) == Join(ContextLines(h), "\n")
  {
  }

  // ---------------------------------------------------------------------------
  // Sending and receiving
  // ---------------------------------------------------------------------------

  /** `query.lower().replace("/", "")`. */
  function DropSlashes(s: string): (r: string)
    ensures '/' !in r && |r| <= |s|
    ensures '/' !in s ==> r == s
    ensures forall c :: c != '/' ==> multiset(r)[c] == multiset(s)[c]
  {
    if s == [] then []
    else
      var rest := s[1..];
      assert s == [s[0]] + rest;
      (if s[0] == '/' then [] else [s[0]]) + DropSlashes(rest)
  }

  /** Removing the slashes of two texts in a row is removing them from each. */
  lemma {:induction false} DropSlashesAppend(a: string, b: string)
    ensures DropSlashes(a + b) == DropSlashes(a) + DropSlashes(b)
    decreases |a|
  {
    if a != [] {
      assert (a + b)[0] == a[0] && (a + b)[1..] == a[1..] + b;
      DropSlashesAppend(a[1..], b);
    } else {
      assert a + b == b;
    }
  }

  /** A slash followed by a slash-free name leaves the name. */
  lemma SlashName(w: string)
    requires '/' !in w
    ensures DropSlashes(['/'] + w) == w
  {
    assert (['/'] + w)[1..] == w;
  }

  /** The three slash commands name their modes. */
  lemma SlashCommandNames()
    ensures DropSlashes("/code") == "code"
    ensures DropSlashes("/chat") == "chat"
    ensures DropSlashes("/cmd") == "cmd"
  {
    SlashName("code");
    SlashName("chat");
    SlashName("cmd");
  }

  /** The prompt a slash command selects. */
  function CommandPrompt(command: string): Prompt {
    if command == "/code" then CodePrompt else if command == "/cmd" then CmdPrompt else DefaultPrompt
  }

  /** The question handed to the model: the prompt, the context (computed after
      the question itself entered the history) and the question again. */
  datatype Question = Question(prompt: Prompt, context: string, query: string)

  /** `_send_message`: the new state and the question started, if any. */
  function SendMessage(c: Chat, entry: string): (res: (Chat, Option<Question>))
    ensures c.thinking || Strip(entry) == "" ==> res == (c, None)
    ensures !c.thinking && Strip(entry) != "" ==>
              res.0.history == c.history + [Entry("user", Strip(entry))]
    ensures !c.thinking && Strip(entry) != "" && Lower(Strip(entry)) in {"/code", "/chat", "/cmd"} ==>
              res.1.None? && !res.0.thinking && res.0.prompt == CommandPrompt(Lower(Strip(entry)))
    ensures !c.thinking && Strip(entry) != "" && Lower(Strip(entry)) !in {"/code", "/chat", "/cmd"} ==>
              && res.0.thinking && res.0.streaming && res.0.response == "" && res.0.prompt == c.prompt
              && res.1 == Some(Question(c.prompt, Context(res.0.history, 3), Strip(entry)))
  {
    if c.thinking then (c, None)
    else
      var query := Strip(entry);
      if query == "" then (c, None)
      else
        var asked := AddMessage(c, "user", query, false);
        if Lower(query) in {"/code", "/chat", "/cmd"} then
          SlashCommandNames();
          (SetMode(asked, DropSlashes(Lower(query))), None)
        else
          var waiting := AddMessage(asked, "ai", "", true).(response := "", thinking := true);
          (waiting, Some(Question(c.prompt, Context(waiting.history, 3), query)))
  }

  /** A question's context always ends with the question itself, which the
      prompt then repeats after "User: ". */
  lemma QuestionRepeatsQuery(c: Chat, entry: string)
    requires !c.thinking && Strip(entry) != "" && Lower(Strip(entry)) !in {"/code", "/chat", "/cmd"}
    ensures var q := SendMessage(c, entry).1.value;
            var w := Window(SendMessage(c, entry).0.history, 3);
            w != [] && w[|w| - 1] == Entry("user", Strip(entry)) && q.query == Strip(entry)
  {
  }

  /** One chunk of the answer: appended while a streaming bubble is open,
      otherwise dropped. */
  function ReceiveChunk(c: Chat, chunk: string): (r: Chat)
    ensures c.streaming ==> r.response == c.response + chunk
    ensures !c.streaming ==> r == c
    ensures r.history == c.history && r.thinking == c.thinking && r.streaming == c.streaming
  {
    if c.streaming then c.(response := c.response + chunk) else c
  }

  function ReceiveAll(c: Chat, chunks: seq<string>): (r: Chat)
    ensures r.history == c.history && r.thinking == c.thinking && r.streaming == c.streaming
    decreases |chunks|
  {
    if chunks == [] then c else ReceiveAll(ReceiveChunk(c, chunks[0]), chunks[1..])
  }

  /** The end of the stream. `handled` is what `_handle_response_completion`
      made of the answer: the system feedback, or `None` when processing the
      command tags raised, which leaves the answer out of the history. */
  function FinishStream(c: Chat, handled: Option<string>): (r: Chat)
    ensures !r.thinking
    ensures handled.Some? ==> r.history == c.history + [Entry("model", c.response)] && r.response == "" && !r.streaming
    ensures handled.None? ==> r.history == c.history
  {
    var idle := c.(thinking := false);
    match handled
    case None => idle
    case Some(feedback) =>
      var noted := if feedback != "" then AddMessage(idle, "system", feedback, false) else idle;
      noted.(history := noted.history + [Entry("model", c.response)], response := "", streaming := false)
  }

  /** While the bubble is open, the answer is the chunks run together. */
  lemma {:induction false} ReceiveAllResponse(c: Chat, chunks: seq<string>)
    requires c.streaming
    ensures ReceiveAll(c, chunks).response == c.response + Concat(chunks)
    decreases |chunks|
  {
    if chunks != [] {
      ReceiveAllResponse(ReceiveChunk(c, chunks[0]), chunks[1..]);
      assert c.response + chunks[0] + Concat(chunks[1..]) == c.response + Concat(chunks);
    }
  }

  /** An ordinary question leaves the page waiting for the answer, with the
      question in the history. */
  lemma AskOrdinary(c: Chat, entry: string)
    requires !c.thinking && Strip(entry) != "" && Lower(Strip(entry)) !in {"/code", "/chat", "/cmd"}
    ensures var sent := SendMessage(c, entry).0;
            sent.streaming && sent.response == "" && sent.history == c.history + [Entry("user", Strip(entry))]
  {
  }

  /** A full exchange: an ordinary question, its streamed answer and a normal
      end add exactly the question and the whole answer to the history, and the
      page is ready for the next question. */
  lemma Exchange(c: Chat, entry: string, chunks: seq<string>, feedback: string)
    requires !c.thinking && Strip(entry) != "" && Lower(Strip(entry)) !in {"/code", "/chat", "/cmd"}
    ensures var r := FinishStream(ReceiveAll(SendMessage(c, entry).0, chunks), Some(feedback));
            && r.history == c.history + [Entry("user", Strip(entry)), Entry("model", Concat(chunks))]
            && !r.thinking && r.response == ""
  {
    var sent := SendMessage(c, entry).0;
    AskOrdinary(c, entry);
    ReceiveAllResponse(sent, chunks);
    assert "" + Concat(chunks) == Concat(chunks);
  }
}

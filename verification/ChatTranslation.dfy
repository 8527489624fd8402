/** Translating one chat-completion SSE event into the client's protocol, and
    the grammar of the Anthropic stream that results. */
module ChatTranslation {
  import opened Results
  import opened Sets
  import opened Whitespace

  datatype Protocol = Responses | Anthropic | Gemini | Ollama(model: string)

  /** The parts of an upstream JSON chunk the translation reads. */
  datatype Chunk = Chunk(id: Option<string>, delta: Option<Delta>)

  datatype Delta = Delta(content: Option<string>, reasoning: Option<string>, toolCalls: seq<ToolCall>)

  datatype ToolCall = ToolCall(index: nat, id: Option<string>, name: Option<string>, arguments: string)

  datatype Kind = Text | Reasoning | Tool

  datatype Block = TextBlock | ThinkingBlock | ToolBlock(id: string, name: string)

  datatype OutEvent =
    | Decision(event: string, data: string)
    | ResponseCreated(id: string)
    | OutputTextDelta(delta: string)
    | OutputReasoningDelta(delta: string)
    | ItemAdded(outputIndex: nat, id: string, name: string)
    | ArgumentsDelta(outputIndex: nat, delta: string)
    | ResponseCompleted(id: string)
    | MessageStart(id: string)
    | BlockStart(index: nat, block: Block)
    | BlockDelta(index: nat, kind: Kind, text: string)
    | BlockStop(index: nat)
    | MessageDelta
    | MessageStop

  /** `openedBlocks` lists the opened blocks in ascending order, as the source's
      ordered set iterates them. */
  datatype State = State(started: bool, responseId: string, openedBlocks: seq<nat>)

  const Initial := State(false, "", [])

  /** What one SSE event turns out to be. */
  datatype Input = DecisionInput(data: string) | DoneInput | ChunkInput(chunk: Chunk) | OtherInput

  // The lines of an event.

  function EventName(lines: seq<string>): Option<string> {
    if lines == [] then None
    else if "event:" <= lines[0] then Some(Trim(lines[0][6..]))
    else EventName(lines[1..])
  }

  function DataLines(lines: seq<string>): seq<string> {
    if lines == [] then []
    else (if "data:" <= lines[0] then [TrimStart(lines[0][5..])] else []) + DataLines(lines[1..])
  }

  function Join(parts: seq<string>): string {
    if parts == [] then "" else if |parts| == 1 then parts[0] else parts[0] + "\n" + Join(parts[1..])
  }

  /** `parse` stands for the JSON parser. */
  function Classify(lines: seq<string>, parse: string -> Option<Chunk>): Input {
    var data := Join(DataLines(lines));
    if EventName(lines) == Some("urouter.decision") then DecisionInput(data)
    else if data == "[DONE]" then DoneInput
    else
      match parse(data)
      case Some(chunk) => ChunkInput(chunk)
      case None => OtherInput
  }

  /** Blank lines in front carry nothing. */
  lemma BlankLineIsIgnored(lines: seq<string>, parse: string -> Option<Chunk>)
    ensures Classify([""] + lines, parse) == Classify(lines, parse)
  {
    assert ([""] + lines)[1..] == lines;
    assert [] + DataLines(lines) == DataLines(lines);
  }

  // Translation.

  predicate Opened(st: State, index: nat) {
    index in st.openedBlocks
  }

  function InsertAscending(index: nat, s: seq<nat>): seq<nat>
    decreases |s|
  {
    if s == [] || index < s[0] then [index] + s
    else if index == s[0] then s
    else [s[0]] + InsertAscending(index, s[1..])
  }

  function Open(st: State, index: nat): State {
    st.(openedBlocks := InsertAscending(index, st.openedBlocks))
  }

  function GetOr(o: Option<string>, default: string): string {
    match o case Some(v) => v case None => default
  }

  function BlockFor(kind: Kind, id: Option<string>, name: Option<string>): Block {
    match kind
    case Tool => ToolBlock(GetOr(id, "call"), GetOr(name, "tool"))
    case Reasoning => ThinkingBlock
    case Text => TextBlock
  }

  /** One delta of one block: open the block if it is new, then its text. */
  function AppendDelta(
    protocol: Protocol, st: State, index: nat, kind: Kind, delta: string, id: Option<string>, name: Option<string>)
    : (seq<OutEvent>, State)
    requires kind == Tool ==> index > 0
  {
    match protocol
    case Gemini => ([], st)
    case Ollama(_) => ([], st)
    case Responses => (
      match kind
      case Text => ([OutputTextDelta(delta)], st)
      case Reasoning => ([OutputReasoningDelta(delta)], st)
      case Tool =>
        ((if Opened(st, index) then [] else [ItemAdded(index - 1, GetOr(id, "call"), GetOr(name, "tool"))])
         + (if delta == "" then [] else [ArgumentsDelta(index - 1, delta)]),
         Open(st, index)))
    case Anthropic =>
      ((if Opened(st, index) then [] else [BlockStart(index, BlockFor(kind, id, name))])
       + (if delta == "" then [] else [BlockDelta(index, kind, delta)]),
       Open(st, index))
  }

  function AppendTools(protocol: Protocol, st: State, tools: seq<ToolCall>): (seq<OutEvent>, State)
    decreases |tools|
  {
    if tools == [] then ([], st)
    else
      var (out, st1) := AppendDelta(protocol, st, tools[0].index + 2, Tool, tools[0].arguments, tools[0].id, tools[0].name);
      var (rest, st2) := AppendTools(protocol, st1, tools[1..]);
      (out + rest, st2)
  }

  /** Text and reasoning are translated only when present and not empty. */
  function AppendSome(protocol: Protocol, st: State, index: nat, kind: Kind, text: Option<string>): (seq<OutEvent>, State)
    requires kind != Tool
  {
    if text.Some? && text.value != "" then AppendDelta(protocol, st, index, kind, text.value, None, None) else ([], st)
  }

  function Begin(protocol: Protocol, st: State, chunk: Chunk): (seq<OutEvent>, State) {
    var id := if st.responseId == "" then GetOr(chunk.id, "urouter-stream") else st.responseId;
    var st' := State(true, id, st.openedBlocks);
    if st.started then ([], st')
    else
      match protocol
      case Responses => ([ResponseCreated(id)], st')
      case Anthropic => ([MessageStart(id)], st')
      case _ => ([], st')
  }

  function TranslateDelta(protocol: Protocol, st: State, delta: Delta): (seq<OutEvent>, State) {
    var (text, st1) := AppendSome(protocol, st, 0, Text, delta.content);
    var (reasoning, st2) := AppendSome(protocol, st1, 1, Reasoning, delta.reasoning);
    var (tools, st3) := AppendTools(protocol, st2, delta.toolCalls);
    (text + reasoning + tools, st3)
  }

  function Stops(blocks: seq<nat>): seq<OutEvent> {
    if blocks == [] then [] else [BlockStop(blocks[0])] + Stops(blocks[1..])
  }

  function Finish(protocol: Protocol, st: State): seq<OutEvent> {
    match protocol
    case Responses => [ResponseCompleted(st.responseId)]
    case Anthropic => Stops(st.openedBlocks) + [MessageDelta, MessageStop]
    case _ => []
  }

  function Translate(protocol: Protocol, st: State, input: Input): (seq<OutEvent>, State) {
    match input
    case DecisionInput(data) => (
      match protocol
      case Responses => ([Decision("response.urouter", data)], st)
      case Anthropic => ([Decision("urouter.decision", data)], st)
      case _ => ([], st))
    case DoneInput => (Finish(protocol, st), st)
    case OtherInput => ([], st)
    case ChunkInput(chunk) =>
      var (begin, st1) := Begin(protocol, st, chunk);
      if chunk.delta.None? then (begin, st1)
      else
        var (body, st2) := TranslateDelta(protocol, st1, chunk.delta.value);
        (begin + body, st2)
  }

  function TranslateAll(protocol: Protocol, st: State, inputs: seq<Input>): (seq<OutEvent>, State)
    decreases |inputs|
  {
    if inputs == [] then ([], st)
    else
      var (out, st1) := Translate(protocol, st, inputs[0]);
      var (rest, st2) := TranslateAll(protocol, st1, inputs[1..]);
      (out + rest, st2)
  }

  // The Anthropic grammar, as an automaton over the emitted events.

  /** Before the message, inside it with some blocks open, closing the blocks that
      remain, after message_delta, after message_stop, or rejected. */
  datatype Phase = Idle | Inside(open: set<nat>) | Closing(open: set<nat>) | Ending | Ended | Rejected

  function Advance(p: Phase, e: OutEvent): Phase {
    match (p, e)
    case (_, Decision(_, _)) => p
    case (Idle, MessageStart(_)) => Inside({})
    case (Inside(open), BlockStart(i, _)) => if i in open then Rejected else Inside(open + {i})
    case (Inside(open), BlockDelta(i, _, _)) => if i in open then p else Rejected
    case (Inside(open), BlockStop(i)) => if i in open then Closing(open - {i}) else Rejected
    case (Inside(open), MessageDelta) => if open == {} then Ending else Rejected
    case (Closing(open), BlockStop(i)) => if i in open then Closing(open - {i}) else Rejected
    case (Closing(open), MessageDelta) => if open == {} then Ending else Rejected
    case (Ending, MessageStop) => Ended
    case _ => Rejected
  }

  function Run(p: Phase, events: seq<OutEvent>): Phase
    decreases |events|
  {
    if events == [] then p else Run(Advance(p, events[0]), events[1..])
  }

  lemma {:induction false} RunConcat(p: Phase, a: seq<OutEvent>, b: seq<OutEvent>)
    ensures Run(p, a + b) == Run(Run(p, a), b)
    decreases |a|
  {
    if a == [] {
      assert a + b == b;
    } else {
      assert (a + b)[1..] == a[1..] + b;
      RunConcat(Advance(p, a[0]), a[1..], b);
    }
  }

  ghost function Blocks(st: State): set<nat> {
    Elements(st.openedBlocks)
  }

  ghost predicate Ascending(s: seq<nat>) {
    forall i, j :: 0 <= i < j < |s| ==> s[i] < s[j]
  }

  /** The phase that matches a translation state between events. */
  ghost function PhaseOf(st: State): Phase {
    if st.started then Inside(Blocks(st)) else Idle
  }

  lemma {:induction false} InsertAscendingOk(index: nat, s: seq<nat>)
    requires Ascending(s)
    ensures Ascending(InsertAscending(index, s))
    ensures forall x :: x in InsertAscending(index, s) <==> x == index || x in s
    decreases |s|
  {
    if s != [] {
      assert forall x :: x in s <==> x == s[0] || x in s[1..];
      if index > s[0] {
        InsertAscendingOk(index, s[1..]);
        var t := InsertAscending(index, s[1..]);
        forall i | 0 <= i < |t|
          ensures s[0] < t[i]
        {
          assert t[i] in t;
        }
      }
    }
  }

  lemma OneAdvances(p: Phase, events: seq<OutEvent>)
    requires |events| <= 1
    ensures Run(p, events) == if events == [] then p else Advance(p, events[0])
  {
    if events != [] {
      assert events[1..] == [];
      assert Run(Advance(p, events[0]), []) == Advance(p, events[0]);
    }
  }

  lemma AppendDeltaAdvances(st: State, index: nat, kind: Kind, delta: string, id: Option<string>, name: Option<string>)
    requires st.started && Ascending(st.openedBlocks) && (kind == Tool ==> index > 0)
    ensures var (out, st') := AppendDelta(Anthropic, st, index, kind, delta, id, name);
            Run(PhaseOf(st), out) == PhaseOf(st') && st'.started && Ascending(st'.openedBlocks)
  {
    InsertAscendingOk(index, st.openedBlocks);
    var st' := Open(st, index);
    assert Blocks(st') == Blocks(st) + {index};
    var start := if Opened(st, index) then [] else [BlockStart(index, BlockFor(kind, id, name))];
    var body := if delta == "" then [] else [BlockDelta(index, kind, delta)];
    OneAdvances(PhaseOf(st), start);
    OneAdvances(PhaseOf(st'), body);
    hide Run;
    RunConcat(PhaseOf(st), start, body);
  }

  lemma {:induction false} AppendToolsAdvances(st: State, tools: seq<ToolCall>)
    requires st.started && Ascending(st.openedBlocks)
    ensures var (out, st') := AppendTools(Anthropic, st, tools);
            Run(PhaseOf(st), out) == PhaseOf(st') && st'.started && Ascending(st'.openedBlocks)
    decreases |tools|
  {
    if tools != [] {
      var t := tools[0];
      AppendDeltaAdvances(st, t.index + 2, Tool, t.arguments, t.id, t.name);
      var (out, st1) := AppendDelta(Anthropic, st, t.index + 2, Tool, t.arguments, t.id, t.name);
      AppendToolsAdvances(st1, tools[1..]);
      RunConcat(PhaseOf(st), out, AppendTools(Anthropic, st1, tools[1..]).0);
    }
  }

  lemma TranslateDeltaAdvances(st: State, delta: Delta)
    requires st.started && Ascending(st.openedBlocks)
    ensures var (out, st') := TranslateDelta(Anthropic, st, delta);
            Run(PhaseOf(st), out) == PhaseOf(st') && st'.started && Ascending(st'.openedBlocks)
  {
    var (text, st1) := AppendSome(Anthropic, st, 0, Text, delta.content);
    if delta.content.Some? && delta.content.value != "" {
      AppendDeltaAdvances(st, 0, Text, delta.content.value, None, None);
    }
    var (reasoning, st2) := AppendSome(Anthropic, st1, 1, Reasoning, delta.reasoning);
    if delta.reasoning.Some? && delta.reasoning.value != "" {
      AppendDeltaAdvances(st1, 1, Reasoning, delta.reasoning.value, None, None);
    }
    var (tools, st3) := AppendTools(Anthropic, st2, delta.toolCalls);
    AppendToolsAdvances(st2, delta.toolCalls);
    RunConcat(PhaseOf(st), text, reasoning);
    RunConcat(PhaseOf(st), text + reasoning, tools);
  }

  /** Everything but [DONE] keeps the stream inside the grammar. */
  lemma TranslateAdvances(st: State, input: Input)
    requires Ascending(st.openedBlocks) && (!st.started ==> st.openedBlocks == []) && !input.DoneInput?
    ensures var (out, st') := Translate(Anthropic, st, input);
            Run(PhaseOf(st), out) == PhaseOf(st') && Ascending(st'.openedBlocks)
            && (!st'.started ==> st'.openedBlocks == []) && (st'.started <==> st.started || input.ChunkInput?)
  {
    if input.ChunkInput? {
      var (begin, st1) := Begin(Anthropic, st, input.chunk);
      assert Blocks(st1) == Blocks(st);
      assert Run(PhaseOf(st), begin) == PhaseOf(st1);
      if input.chunk.delta.Some? {
        TranslateDeltaAdvances(st1, input.chunk.delta.value);
        RunConcat(PhaseOf(st), begin, TranslateDelta(Anthropic, st1, input.chunk.delta.value).0);
      }
    }
  }

  predicate HasChunk(inputs: seq<Input>) {
    inputs != [] && (inputs[0].ChunkInput? || HasChunk(inputs[1..]))
  }

  lemma {:induction false} TranslateAllAdvances(st: State, inputs: seq<Input>)
    requires Ascending(st.openedBlocks) && (!st.started ==> st.openedBlocks == [])
    requires forall i :: 0 <= i < |inputs| ==> !inputs[i].DoneInput?
    ensures var (out, st') := TranslateAll(Anthropic, st, inputs);
            Run(PhaseOf(st), out) == PhaseOf(st') && Ascending(st'.openedBlocks)
            && (!st'.started ==> st'.openedBlocks == [])
            && (st'.started <==> st.started || HasChunk(inputs))
    decreases |inputs|
  {
    if inputs != [] {
      TranslateAdvances(st, inputs[0]);
      var (out, st1) := Translate(Anthropic, st, inputs[0]);
      TranslateAllAdvances(st1, inputs[1..]);
      RunConcat(PhaseOf(st), out, TranslateAll(Anthropic, st1, inputs[1..]).0);
    }
  }

  lemma AllClosed(p: Phase)
    requires (p.Inside? || p.Closing?) && p.open == {}
    ensures Run(p, [MessageDelta, MessageStop]) == Ended
  {
    var tail := [MessageDelta, MessageStop];
    assert tail[1..] == [MessageStop] && [MessageStop][1..] == [];
    assert Run(Ending, [MessageStop]) == Run(Ended, []);
  }

  lemma NoElements()
    ensures Elements<nat>([]) == {}
  {
  }

  lemma StopFirst(p: Phase, blocks: seq<nat>)
    requires (p.Inside? || p.Closing?) && Ascending(blocks) && p.open == Elements(blocks) && blocks != []
    ensures Advance(p, BlockStop(blocks[0])) == Closing(Elements(blocks[1..])) && Ascending(blocks[1..])
  {
    assert blocks[0] !in blocks[1..];
    assert Elements(blocks) - {blocks[0]} == Elements(blocks[1..]);
  }

  lemma {:induction false} StopsClose(p: Phase, blocks: seq<nat>)
    requires (p.Inside? || p.Closing?) && Ascending(blocks) && p.open == Elements(blocks)
    ensures Run(p, Stops(blocks) + [MessageDelta, MessageStop]) == Ended
    decreases |blocks|
  {
    hide Advance, Ascending, Elements;
    var tail := [MessageDelta, MessageStop];
    if blocks == [] {
      assert Stops(blocks) + tail == tail;
      NoElements();
      AllClosed(p);
    } else {
      StopFirst(p, blocks);
      var all := Stops(blocks) + tail;
      assert all[0] == BlockStop(blocks[0]) && all[1..] == Stops(blocks[1..]) + tail;
      StopsClose(Closing(Elements(blocks[1..])), blocks[1..]);
    }
  }

  lemma {:induction false} RejectedStays(events: seq<OutEvent>)
    ensures Run(Rejected, events) == Rejected
  {
    if events != [] {
      RejectedStays(events[1..]);
    }
  }

  lemma {:induction false} TranslateAllConcat(protocol: Protocol, st: State, a: seq<Input>, b: seq<Input>)
    ensures var (outA, stA) := TranslateAll(protocol, st, a);
            var (outB, stB) := TranslateAll(protocol, stA, b);
            TranslateAll(protocol, st, a + b) == (outA + outB, stB)
    decreases |a|
  {
    hide Translate;
    if a == [] {
      var outB := TranslateAll(protocol, st, b).0;
      assert a + b == b && [] + outB == outB;
    } else {
      assert (a + b)[1..] == a[1..] + b;
      var (out, st1) := Translate(protocol, st, a[0]);
      TranslateAllConcat(protocol, st1, a[1..], b);
      var (outA, stA) := TranslateAll(protocol, st1, a[1..]);
      var outB := TranslateAll(protocol, stA, b).0;
      assert out + (outA + outB) == out + outA + outB;
    }
  }

  /** A run of events closed by one [DONE] is a well-formed Anthropic message -
      message_start first, every block started once before its deltas and stopped
      once after them, message_stop last - exactly when at least one of the
      events was a JSON chunk. Decision events may stand anywhere. */
  lemma AnthropicStreamIsWellFormed(inputs: seq<Input>)
    requires forall i :: 0 <= i < |inputs| ==> !inputs[i].DoneInput?
    ensures Run(Idle, TranslateAll(Anthropic, Initial, inputs + [DoneInput]).0) == Ended
            <==> HasChunk(inputs)
  {
    var (out, st) := TranslateAll(Anthropic, Initial, inputs);
    TranslateAllAdvances(Initial, inputs);
    TranslateAllConcat(Anthropic, Initial, inputs, [DoneInput]);
    var finish := Finish(Anthropic, st);
    assert TranslateAll(Anthropic, st, [DoneInput]).0 == finish;
    RunConcat(Idle, out, finish);
    if st.started {
      StopsClose(PhaseOf(st), st.openedBlocks);
    } else {
      assert finish == [MessageDelta, MessageStop];
      assert Advance(Idle, MessageDelta) == Rejected;
      RejectedStays(finish[1..]);
    }
  }

  // Nothing of the content is lost, repeated or reordered.

  /** The text of the deltas of one block. */
  function TextOf(events: seq<OutEvent>, index: nat): string {
    if events == [] then ""
    else (if events[0].BlockDelta? && events[0].index == index then events[0].text else "") + TextOf(events[1..], index)
  }

  lemma {:induction false} TextOfConcat(a: seq<OutEvent>, b: seq<OutEvent>, index: nat)
    ensures TextOf(a + b, index) == TextOf(a, index) + TextOf(b, index)
  {
    if a == [] {
      assert a + b == b;
    } else {
      assert (a + b)[1..] == a[1..] + b;
      TextOfConcat(a[1..], b, index);
    }
  }

  /** What the upstream sent for a block: content for 0, reasoning for 1, and the
      arguments of tool i for i + 2. */
  function Upstream(inputs: seq<Input>, index: nat): string {
    if inputs == [] then "" else SentFor(inputs[0], index) + Upstream(inputs[1..], index)
  }

  function SentFor(input: Input, index: nat): string {
    if input.ChunkInput? && input.chunk.delta.Some? then DeltaText(input.chunk.delta.value, index) else ""
  }

  function DeltaText(delta: Delta, index: nat): string {
    if index == 0 then GetOr(delta.content, "")
    else if index == 1 then GetOr(delta.reasoning, "")
    else ToolText(delta.toolCalls, index - 2)
  }

  function ToolText(tools: seq<ToolCall>, i: nat): string {
    if tools == [] then ""
    else (if tools[0].index == i then tools[0].arguments else "") + ToolText(tools[1..], i)
  }

  lemma AppendDeltaText(st: State, index: nat, kind: Kind, delta: string, id: Option<string>, name: Option<string>, at: nat)
    requires kind == Tool ==> index > 0
    ensures TextOf(AppendDelta(Anthropic, st, index, kind, delta, id, name).0, at) == if at == index then delta else ""
  {
    var start := if Opened(st, index) then [] else [BlockStart(index, BlockFor(kind, id, name))];
    var body := if delta == "" then [] else [BlockDelta(index, kind, delta)];
    TextOfConcat(start, body, at);
    assert delta + "" == delta;
    assert delta != "" ==> body[1..] == [];
  }

  lemma {:induction false} AppendToolsText(st: State, tools: seq<ToolCall>, at: nat)
    ensures TextOf(AppendTools(Anthropic, st, tools).0, at) == if at < 2 then "" else ToolText(tools, at - 2)
    decreases |tools|
  {
    hide AppendDelta;
    if tools != [] {
      var t := tools[0];
      var (out, st1) := AppendDelta(Anthropic, st, t.index + 2, Tool, t.arguments, t.id, t.name);
      AppendDeltaText(st, t.index + 2, Tool, t.arguments, t.id, t.name, at);
      AppendToolsText(st1, tools[1..], at);
      TextOfConcat(out, AppendTools(Anthropic, st1, tools[1..]).0, at);
    }
  }

  lemma AppendSomeText(st: State, index: nat, kind: Kind, text: Option<string>, at: nat)
    requires kind != Tool
    ensures TextOf(AppendSome(Anthropic, st, index, kind, text).0, at) == if at == index then GetOr(text, "") else ""
  {
    if text.Some? && text.value != "" {
      AppendDeltaText(st, index, kind, text.value, None, None, at);
    }
  }

  lemma TranslateDeltaText(st: State, delta: Delta, at: nat)
    ensures TextOf(TranslateDelta(Anthropic, st, delta).0, at) == DeltaText(delta, at)
  {
    var (text, st1) := AppendSome(Anthropic, st, 0, Text, delta.content);
    var (reasoning, st2) := AppendSome(Anthropic, st1, 1, Reasoning, delta.reasoning);
    var (tools, st3) := AppendTools(Anthropic, st2, delta.toolCalls);
    AppendSomeText(st, 0, Text, delta.content, at);
    AppendSomeText(st1, 1, Reasoning, delta.reasoning, at);
    AppendToolsText(st2, delta.toolCalls, at);
    TextOfConcat(text, reasoning, at);
    TextOfConcat(text + reasoning, tools, at);
    var t := DeltaText(delta, at);
    assert "" + t == t && t + "" == t;
  }

  lemma TranslateText(st: State, input: Input, at: nat)
    ensures TextOf(Translate(Anthropic, st, input).0, at) == SentFor(input, at)
  {
    match input
    case ChunkInput(chunk) =>
      var (begin, st1) := Begin(Anthropic, st, chunk);
      assert TextOf(begin, at) == "";
      if chunk.delta.Some? {
        TranslateDeltaText(st1, chunk.delta.value, at);
        TextOfConcat(begin, TranslateDelta(Anthropic, st1, chunk.delta.value).0, at);
      }
    case DoneInput =>
      StopsText(st.openedBlocks, at);
      TextOfConcat(Stops(st.openedBlocks), [MessageDelta, MessageStop], at);
      assert [MessageDelta, MessageStop][1..] == [MessageStop] && [MessageStop][1..] == [];
      assert TextOf([MessageStop], at) == "";
    case _ =>
  }

  lemma {:induction false} StopsText(blocks: seq<nat>, at: nat)
    ensures TextOf(Stops(blocks), at) == ""
  {
    if blocks != [] {
      assert Stops(blocks)[1..] == Stops(blocks[1..]);
      StopsText(blocks[1..], at);
    }
  }

  /** The deltas of a block spell exactly what the upstream sent for it, on every
      stream of events. */
  lemma {:induction false} AnthropicTextIsUpstreamText(st: State, inputs: seq<Input>, at: nat)
    ensures TextOf(TranslateAll(Anthropic, st, inputs).0, at) == Upstream(inputs, at)
    decreases |inputs|
  {
    if inputs != [] {
      hide Translate, TextOf, DeltaText;
      var (out, st1) := Translate(Anthropic, st, inputs[0]);
      TranslateText(st, inputs[0], at);
      AnthropicTextIsUpstreamText(st1, inputs[1..], at);
      TextOfConcat(out, TranslateAll(Anthropic, st1, inputs[1..]).0, at);
    }
  }
}

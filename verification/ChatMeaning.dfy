/** What the client is told, over every stream of events, as a function of what
    the upstream sent and of nothing the translation remembers. */
module ChatMeaning {
  import opened Results
  import opened ChatTranslation

  /** One thing the upstream said: content is about block 0, reasoning about
      block 1, and a call of tool i about block i + 2. */
  datatype Piece = Piece(index: nat, id: Option<string>, name: Option<string>, text: string)

  function Spoken(index: nat, text: Option<string>): seq<Piece> {
    if text.Some? && text.value != "" then [Piece(index, None, None, text.value)] else []
  }

  function CallPieces(tools: seq<ToolCall>): seq<Piece> {
    if tools == [] then []
    else [Piece(tools[0].index + 2, tools[0].id, tools[0].name, tools[0].arguments)] + CallPieces(tools[1..])
  }

  function PiecesOf(input: Input): seq<Piece> {
    if input.ChunkInput? && input.chunk.delta.Some? then
      var delta := input.chunk.delta.value;
      Spoken(0, delta.content) + Spoken(1, delta.reasoning) + CallPieces(delta.toolCalls)
    else []
  }

  function Pieces(inputs: seq<Input>): seq<Piece> {
    if inputs == [] then [] else PiecesOf(inputs[0]) + Pieces(inputs[1..])
  }

  function IdsIn(input: Input): seq<string> {
    match input
    case ChunkInput(Chunk(Some(id), _)) => [id]
    case ChunkInput(Chunk(None, _)) => ["urouter-stream"]
    case _ => []
  }

  /** The ids of the chunks, in order. */
  function Ids(inputs: seq<Input>): seq<string> {
    if inputs == [] then [] else IdsIn(inputs[0]) + Ids(inputs[1..])
  }

  function FirstNonEmpty(ids: seq<string>): string {
    if ids == [] then "" else if ids[0] != "" then ids[0] else FirstNonEmpty(ids[1..])
  }

  // What a client should be told.

  /** The first piece about a block introduces the block. */
  function Introduction(protocol: Protocol, p: Piece): seq<OutEvent> {
    var id := if p.id.Some? then p.id.value else "call";
    var name := if p.name.Some? then p.name.value else "tool";
    match protocol
    case Anthropic =>
      [BlockStart(p.index, if p.index == 0 then TextBlock else if p.index == 1 then ThinkingBlock else ToolBlock(id, name))]
    case Responses => if p.index >= 2 then [ItemAdded(p.index - 1, id, name)] else []
    case _ => []
  }

  function Utterance(protocol: Protocol, p: Piece): seq<OutEvent> {
    if p.text == "" then []
    else
      match protocol
      case Anthropic =>
        [BlockDelta(p.index, if p.index == 0 then Text else if p.index == 1 then Reasoning else Tool, p.text)]
      case Responses =>
        if p.index == 0 then [OutputTextDelta(p.text)]
        else if p.index == 1 then [OutputReasoningDelta(p.text)]
        else [ArgumentsDelta(p.index - 1, p.text)]
      case _ => []
  }

  /** What one piece adds once the blocks in `told` are known. */
  function Told(protocol: Protocol, told: set<nat>, p: Piece): seq<OutEvent> {
    (if p.index in told then [] else Introduction(protocol, p)) + Utterance(protocol, p)
  }

  function Telling(protocol: Protocol, told: set<nat>, pieces: seq<Piece>): seq<OutEvent>
    decreases |pieces|
  {
    if pieces == [] then []
    else Told(protocol, told, pieces[0]) + Telling(protocol, told + {pieces[0].index}, pieces[1..])
  }

  // Kinds of events.

  function Only(events: seq<OutEvent>, keep: OutEvent -> bool): seq<OutEvent> {
    if events == [] then [] else (if keep(events[0]) then [events[0]] else []) + Only(events[1..], keep)
  }

  predicate IsContent(e: OutEvent) {
    e.BlockStart? || e.BlockDelta? || e.OutputTextDelta? || e.OutputReasoningDelta? || e.ItemAdded? || e.ArgumentsDelta?
  }

  predicate IsStart(e: OutEvent) {
    e.MessageStart? || e.ResponseCreated?
  }

  predicate IsEnd(e: OutEvent) {
    e.BlockStop? || e.MessageDelta? || e.MessageStop? || e.ResponseCompleted?
  }

  predicate IsDecision(e: OutEvent) {
    e.Decision?
  }

  /** About one block, or one output item of it. */
  predicate Concerns(e: OutEvent, index: nat) {
    match e
    case BlockStart(i, _) => i == index
    case BlockDelta(i, _, _) => i == index
    case OutputTextDelta(_) => index == 0
    case OutputReasoningDelta(_) => index == 1
    case ItemAdded(o, _, _) => o + 1 == index
    case ArgumentsDelta(o, _) => o + 1 == index
    case _ => false
  }

  lemma {:induction false} OnlyConcat(a: seq<OutEvent>, b: seq<OutEvent>, keep: OutEvent -> bool)
    ensures Only(a + b, keep) == Only(a, keep) + Only(b, keep)
  {
    if a == [] {
      assert a + b == b;
    } else {
      assert (a + b)[1..] == a[1..] + b;
      OnlyConcat(a[1..], b, keep);
      var (x, y, z) := (if keep(a[0]) then [a[0]] else [], Only(a[1..], keep), Only(b, keep));
      assert x + (y + z) == x + y + z;
    }
  }

  lemma NothingIsLeft(keep: OutEvent -> bool)
    ensures Only([], keep) == []
  {
  }

  lemma {:induction false} OnlyAll(events: seq<OutEvent>, keep: OutEvent -> bool)
    requires forall e :: e in events ==> keep(e)
    ensures Only(events, keep) == events
  {
    if events != [] {
      OnlyAll(events[1..], keep);
    }
  }

  lemma {:induction false} OnlyNone(events: seq<OutEvent>, keep: OutEvent -> bool)
    requires forall e :: e in events ==> !keep(e)
    ensures Only(events, keep) == []
  {
    if events != [] {
      OnlyNone(events[1..], keep);
    }
  }

  function Indices(pieces: seq<Piece>): set<nat> {
    if pieces == [] then {} else {pieces[0].index} + Indices(pieces[1..])
  }

  lemma {:induction false} IndicesAre(pieces: seq<Piece>)
    ensures forall i: nat :: i in Indices(pieces) <==> exists p :: p in pieces && p.index == i
  {
    if pieces != [] {
      IndicesAre(pieces[1..]);
      assert forall p :: p in pieces <==> p == pieces[0] || p in pieces[1..];
    }
  }

  lemma OneIndex(p: Piece)
    ensures Indices([p]) == {p.index}
  {
    assert [p][1..] == [];
  }

  lemma {:induction false} IndicesConcat(a: seq<Piece>, b: seq<Piece>)
    ensures Indices(a + b) == Indices(a) + Indices(b)
  {
    if a == [] {
      assert a + b == b;
    } else {
      assert (a + b)[1..] == a[1..] + b;
      IndicesConcat(a[1..], b);
    }
  }

  lemma TellingStep(protocol: Protocol, told: set<nat>, p: Piece, rest: seq<Piece>)
    ensures Telling(protocol, told, [p] + rest) == Told(protocol, told, p) + Telling(protocol, told + {p.index}, rest)
  {
    assert ([p] + rest)[1..] == rest;
  }

  lemma {:induction false} TellingConcat(protocol: Protocol, told: set<nat>, a: seq<Piece>, b: seq<Piece>)
    ensures Telling(protocol, told, a + b) == Telling(protocol, told, a) + Telling(protocol, told + Indices(a), b)
    decreases |a|
  {
    hide Told, Telling;
    if a == [] {
      NothingIsTold(protocol, told);
      assert a + b == b && told + Indices(a) == told;
    } else {
      var (p, rest) := (a[0], a[1..]);
      assert a == [p] + rest && a + b == [p] + (rest + b);
      TellingStep(protocol, told, p, rest);
      TellingStep(protocol, told, p, rest + b);
      TellingConcat(protocol, told + {p.index}, rest, b);
      assert told + {p.index} + Indices(rest) == told + Indices(a);
      var (x, y, z) :=
        (Told(protocol, told, p), Telling(protocol, told + {p.index}, rest), Telling(protocol, told + Indices(a), b));
      assert x + (y + z) == x + y + z;
    }
  }

  // The translation tells just that.

  /** The blocks told about are those the state has opened; to a Responses client
      the first two need no opening. */
  ghost predicate Tracks(protocol: Protocol, st: State, told: set<nat>) {
    Ascending(st.openedBlocks)
    && (protocol.Anthropic? ==> forall i: nat :: i in st.openedBlocks <==> i in told)
    && (protocol.Responses? ==> forall i: nat :: i >= 2 ==> (i in st.openedBlocks <==> i in told))
  }

  lemma PieceIsTold(protocol: Protocol, st: State, told: set<nat>, p: Piece)
    requires Tracks(protocol, st, told) && (p.index < 2 ==> p.text != "")
    ensures var kind := if p.index == 0 then Text else if p.index == 1 then Reasoning else Tool;
            var (out, st') := AppendDelta(protocol, st, p.index, kind, p.text, p.id, p.name);
            (p.index >= 2 || p.id == None == p.name ==> out == Telling(protocol, told, [p]))
            && Tracks(protocol, st', told + {p.index})
            && st'.started == st.started && st'.responseId == st.responseId
  {
    InsertAscendingOk(p.index, st.openedBlocks);
    assert [p][1..] == [];
    var rest := Telling(protocol, told + {p.index}, []);
    assert rest == [];
  }

  lemma SpokenIsTold(protocol: Protocol, st: State, told: set<nat>, index: nat, kind: Kind, text: Option<string>)
    requires Tracks(protocol, st, told)
    requires (index == 0 && kind == Text) || (index == 1 && kind == Reasoning)
    ensures var (out, st') := AppendSome(protocol, st, index, kind, text);
            out == Telling(protocol, told, Spoken(index, text))
            && Tracks(protocol, st', told + Indices(Spoken(index, text)))
            && st'.started == st.started && st'.responseId == st.responseId
  {
    hide AppendDelta, Telling, Tracks;
    if text.Some? && text.value != "" {
      var p := Piece(index, None, None, text.value);
      PieceIsTold(protocol, st, told, p);
      OneIndex(p);
      assert Spoken(index, text) == [p];
    } else {
      NothingIsTold(protocol, told);
      assert Spoken(index, text) == [];
      assert told + Indices([]) == told;
    }
  }

  lemma NothingIsTold(protocol: Protocol, told: set<nat>)
    ensures Telling(protocol, told, []) == []
  {
  }

  lemma {:induction false} CallsAreTold(protocol: Protocol, st: State, told: set<nat>, tools: seq<ToolCall>)
    requires Tracks(protocol, st, told)
    ensures var (out, st') := AppendTools(protocol, st, tools);
            out == Telling(protocol, told, CallPieces(tools))
            && Tracks(protocol, st', told + Indices(CallPieces(tools)))
            && st'.started == st.started && st'.responseId == st.responseId
    decreases |tools|
  {
    hide AppendDelta, Telling, Tracks;
    if tools == [] {
      NothingIsTold(protocol, told);
      assert told + Indices(CallPieces(tools)) == told;
    } else {
      var t := tools[0];
      var p := Piece(t.index + 2, t.id, t.name, t.arguments);
      PieceIsTold(protocol, st, told, p);
      var st1 := AppendDelta(protocol, st, t.index + 2, Tool, t.arguments, t.id, t.name).1;
      CallsAreTold(protocol, st1, told + {p.index}, tools[1..]);
      var rest := CallPieces(tools[1..]);
      assert CallPieces(tools) == [p] + rest;
      TellingConcat(protocol, told, [p], rest);
      IndicesConcat([p], rest);
      OneIndex(p);
      assert told + {p.index} + Indices(rest) == told + Indices(CallPieces(tools));
    }
  }

  lemma DeltaIsTold(protocol: Protocol, st: State, told: set<nat>, delta: Delta)
    requires Tracks(protocol, st, told)
    ensures var pieces := Spoken(0, delta.content) + Spoken(1, delta.reasoning) + CallPieces(delta.toolCalls);
            var (out, st') := TranslateDelta(protocol, st, delta);
            out == Telling(protocol, told, pieces)
            && Tracks(protocol, st', told + Indices(pieces))
            && st'.started == st.started && st'.responseId == st.responseId
  {
    hide AppendSome, AppendTools, Telling, Tracks, Spoken, CallPieces;
    var (a, b, c) := (Spoken(0, delta.content), Spoken(1, delta.reasoning), CallPieces(delta.toolCalls));
    var st1 := AppendSome(protocol, st, 0, Text, delta.content).1;
    var st2 := AppendSome(protocol, st1, 1, Reasoning, delta.reasoning).1;
    var told1 := told + Indices(a);
    var told2 := told1 + Indices(b);
    SpokenIsTold(protocol, st, told, 0, Text, delta.content);
    SpokenIsTold(protocol, st1, told1, 1, Reasoning, delta.reasoning);
    CallsAreTold(protocol, st2, told2, delta.toolCalls);
    TellingConcat(protocol, told, a, b);
    TellingConcat(protocol, told, a + b, c);
    IndicesConcat(a, b);
    IndicesConcat(a + b, c);
    assert told + Indices(a + b) == told2;
    assert told + Indices(a + b + c) == told2 + Indices(c);
  }

  /** Every event told is about a block. */
  lemma {:induction false} TellingIsContent(protocol: Protocol, told: set<nat>, pieces: seq<Piece>)
    ensures forall e :: e in Telling(protocol, told, pieces) ==> IsContent(e)
    decreases |pieces|
  {
    if pieces != [] {
      TellingIsContent(protocol, told + {pieces[0].index}, pieces[1..]);
    }
  }

  lemma InputIsTold(protocol: Protocol, st: State, told: set<nat>, input: Input)
    requires Tracks(protocol, st, told)
    ensures var (out, st') := Translate(protocol, st, input);
            Only(out, IsContent) == Telling(protocol, told, PiecesOf(input))
            && Tracks(protocol, st', told + Indices(PiecesOf(input)))
  {
    if input.ChunkInput? && input.chunk.delta.Some? {
      var (begin, st1) := Begin(protocol, st, input.chunk);
      assert Tracks(protocol, st1, told);
      hide TranslateDelta, Telling, Tracks, Only;
      DeltaIsTold(protocol, st1, told, input.chunk.delta.value);
      TellingIsContent(protocol, told, PiecesOf(input));
      SplitsInTwo(begin, TranslateDelta(protocol, st1, input.chunk.delta.value).0);
    } else {
      OtherIsSilent(protocol, st, input);
      hide Translate, Only;
      NothingIsTold(protocol, told);
      assert told + Indices(PiecesOf(input)) == told;
    }
  }

  lemma OtherIsSilent(protocol: Protocol, st: State, input: Input)
    requires !(input.ChunkInput? && input.chunk.delta.Some?)
    ensures var (out, st') := Translate(protocol, st, input);
            Only(out, IsContent) == [] && st'.openedBlocks == st.openedBlocks
  {
    if input.DoneInput? {
      StopsAre(st.openedBlocks);
    }
    hide Only;
    OnlyNone(Translate(protocol, st, input).0, IsContent);
  }

  lemma {:induction false} StopsAre(blocks: seq<nat>)
    ensures |Stops(blocks)| == |blocks| && forall k :: 0 <= k < |blocks| ==> Stops(blocks)[k] == BlockStop(blocks[k])
  {
    if blocks != [] {
      StopsAre(blocks[1..]);
    }
  }

  lemma {:induction false} InputsAreTold(protocol: Protocol, st: State, told: set<nat>, inputs: seq<Input>)
    requires Tracks(protocol, st, told)
    ensures var (out, st') := TranslateAll(protocol, st, inputs);
            Only(out, IsContent) == Telling(protocol, told, Pieces(inputs))
            && Tracks(protocol, st', told + Indices(Pieces(inputs)))
    decreases |inputs|
  {
    hide Translate, Telling, Tracks, PiecesOf;
    if inputs == [] {
      NothingIsTold(protocol, told);
      assert told + Indices(Pieces(inputs)) == told;
    } else {
      var (out, st1) := Translate(protocol, st, inputs[0]);
      var told1 := told + Indices(PiecesOf(inputs[0]));
      InputIsTold(protocol, st, told, inputs[0]);
      InputsAreTold(protocol, st1, told1, inputs[1..]);
      OnlyConcat(out, TranslateAll(protocol, st1, inputs[1..]).0, IsContent);
      TellingConcat(protocol, told, PiecesOf(inputs[0]), Pieces(inputs[1..]));
      IndicesConcat(PiecesOf(inputs[0]), Pieces(inputs[1..]));
      assert told1 + Indices(Pieces(inputs[1..])) == told + Indices(Pieces(inputs));
    }
  }

  /** Over every stream the content events a client is sent are exactly the
      upstream's pieces in their order: the first piece about a block, and no
      later one, introduces it, a tool by the id and name in that piece, and every
      text that is not empty follows as a delta of its block and of that block's
      kind. */
  lemma ContentIsExact(protocol: Protocol, inputs: seq<Input>)
    ensures Only(TranslateAll(protocol, Initial, inputs).0, IsContent) == Telling(protocol, {}, Pieces(inputs))
  {
    InputsAreTold(protocol, Initial, {}, inputs);
  }

  // One block of the stream.

  function About(pieces: seq<Piece>, index: nat): seq<Piece> {
    if pieces == [] then []
    else (if pieces[0].index == index then [pieces[0]] else []) + About(pieces[1..], index)
  }

  function Utterances(protocol: Protocol, pieces: seq<Piece>): seq<OutEvent> {
    if pieces == [] then [] else Utterance(protocol, pieces[0]) + Utterances(protocol, pieces[1..])
  }

  lemma PieceConcerns(protocol: Protocol, p: Piece, index: nat)
    ensures forall e :: e in Introduction(protocol, p) + Utterance(protocol, p) ==> (Concerns(e, index) <==> p.index == index)
  {
  }

  lemma ToldOfBlock(protocol: Protocol, told: set<nat>, p: Piece, index: nat)
    ensures Only(Told(protocol, told, p), e => Concerns(e, index)) == if p.index == index then Told(protocol, told, p) else []
  {
    PieceConcerns(protocol, p, index);
    hide Introduction, Utterance, Concerns, Only;
    var out := Told(protocol, told, p);
    if p.index == index {
      OnlyAll(out, e => Concerns(e, index));
    } else {
      OnlyNone(out, e => Concerns(e, index));
    }
  }

  /** The first of the pieces about a block follows its introduction. */
  function Story(protocol: Protocol, known: bool, mine: seq<Piece>): seq<OutEvent> {
    (if mine == [] || known then [] else Introduction(protocol, mine[0])) + Utterances(protocol, mine)
  }

  lemma StoryStep(protocol: Protocol, told: set<nat>, p: Piece, later: seq<Piece>)
    ensures Story(protocol, p.index in told, [p] + later) == Told(protocol, told, p) + Story(protocol, true, later)
  {
    assert ([p] + later)[1..] == later;
  }

  lemma {:induction false} TellingOfBlock(protocol: Protocol, told: set<nat>, pieces: seq<Piece>, index: nat)
    ensures Only(Telling(protocol, told, pieces), e => Concerns(e, index)) == Story(protocol, index in told, About(pieces, index))
    decreases |pieces|
  {
    hide Told, Concerns, Story, Only;
    if pieces == [] {
      NothingOfBlock(protocol, index in told, index);
    } else {
      var p := pieces[0];
      var rest := Telling(protocol, told + {p.index}, pieces[1..]);
      ToldOfBlock(protocol, told, p, index);
      OnlyConcat(Told(protocol, told, p), rest, e => Concerns(e, index));
      TellingOfBlock(protocol, told + {p.index}, pieces[1..], index);
      var later := About(pieces[1..], index);
      assert About(pieces, index) == if p.index == index then [p] + later else later;
      assert (index in told + {p.index}) == (index in told || p.index == index);
      StoryStep(protocol, told, p, later);
    }
  }

  lemma NothingOfBlock(protocol: Protocol, known: bool, index: nat)
    ensures Only([], e => Concerns(e, index)) == [] == Story(protocol, known, [])
  {
  }

  lemma {:induction false} OnlyOnly(events: seq<OutEvent>, index: nat)
    ensures Only(Only(events, IsContent), e => Concerns(e, index)) == Only(events, e => Concerns(e, index))
  {
    if events != [] {
      OnlyOnly(events[1..], index);
      var (head, rest) := (Only([events[0]], IsContent), Only(events[1..], IsContent));
      assert Only(events[1..][..0], IsContent) == [];
      assert [events[0]][1..] == [] && head == if IsContent(events[0]) then [events[0]] else [];
      OnlyConcat(head, rest, e => Concerns(e, index));
      if IsContent(events[0]) {
        assert Only(head, e => Concerns(e, index)) == if Concerns(events[0], index) then [events[0]] else [];
      }
    }
  }

  /** What a client is told about one block: nothing if the upstream said nothing
      about it, otherwise its introduction, by the first piece about it, once and
      before everything else, and then its texts. */
  lemma BlockIsExact(protocol: Protocol, inputs: seq<Input>, index: nat)
    ensures var mine := About(Pieces(inputs), index);
            Only(TranslateAll(protocol, Initial, inputs).0, e => Concerns(e, index))
            == if mine == [] then [] else Introduction(protocol, mine[0]) + Utterances(protocol, mine)
  {
    hide Telling, Introduction, Utterance, Only;
    ContentIsExact(protocol, inputs);
    OnlyOnly(TranslateAll(protocol, Initial, inputs).0, index);
    TellingOfBlock(protocol, {}, Pieces(inputs), index);
  }

  // The frame around the blocks.

  lemma {:induction false} StateRemembers(protocol: Protocol, st: State, inputs: seq<Input>)
    ensures var st' := TranslateAll(protocol, st, inputs).1;
            (st'.started <==> st.started || Ids(inputs) != [])
            && st'.responseId == if st.responseId != "" then st.responseId else FirstNonEmpty(Ids(inputs))
    decreases |inputs|
  {
    if inputs != [] {
      hide Translate, IdsIn;
      var st1 := Translate(protocol, st, inputs[0]).1;
      StepRemembers(protocol, st, inputs[0]);
      StateRemembers(protocol, st1, inputs[1..]);
      var (ids, rest) := (IdsIn(inputs[0]), Ids(inputs[1..]));
      assert ids == [] ==> ids + rest == rest;
      assert ids != [] ==> (ids + rest)[1..] == rest;
    }
  }

  lemma StepRemembers(protocol: Protocol, st: State, input: Input)
    ensures var (st', ids) := (Translate(protocol, st, input).1, IdsIn(input));
            (st'.started <==> st.started || ids != [])
            && |ids| <= 1
            && st'.responseId == if st.responseId == "" && ids != [] then ids[0] else st.responseId
  {
    if input.ChunkInput? && input.chunk.delta.Some? {
      var st1 := Begin(protocol, st, input.chunk).1;
      DeltaKeepsFrame(protocol, st1, input.chunk.delta.value);
    }
  }

  lemma {:induction false} ToolsKeepFrame(protocol: Protocol, st: State, tools: seq<ToolCall>)
    ensures var (out, st') := AppendTools(protocol, st, tools);
            st'.started == st.started && st'.responseId == st.responseId && forall e :: e in out ==> IsContent(e)
    decreases |tools|
  {
    if tools != [] {
      var t := tools[0];
      ToolsKeepFrame(protocol, AppendDelta(protocol, st, t.index + 2, Tool, t.arguments, t.id, t.name).1, tools[1..]);
    }
  }

  lemma DeltaKeepsFrame(protocol: Protocol, st: State, delta: Delta)
    ensures var (out, st') := TranslateDelta(protocol, st, delta);
            st'.started == st.started && st'.responseId == st.responseId && forall e :: e in out ==> IsContent(e)
  {
    var st1 := AppendSome(protocol, st, 0, Text, delta.content).1;
    var st2 := AppendSome(protocol, st1, 1, Reasoning, delta.reasoning).1;
    ToolsKeepFrame(protocol, st2, delta.toolCalls);
  }

  function StartFor(protocol: Protocol, ids: seq<string>): seq<OutEvent> {
    if ids == [] then []
    else
      match protocol
      case Anthropic => [MessageStart(ids[0])]
      case Responses => [ResponseCreated(ids[0])]
      case _ => []
  }

  lemma StepStarts(protocol: Protocol, st: State, input: Input)
    requires !st.started ==> st.responseId == ""
    ensures Only(Translate(protocol, st, input).0, IsStart) == if st.started then [] else StartFor(protocol, IdsIn(input))
  {
    var out := Translate(protocol, st, input).0;
    if input.ChunkInput? {
      var (begin, st1) := Begin(protocol, st, input.chunk);
      OnlyAll(begin, IsStart);
      if input.chunk.delta.Some? {
        DeltaKeepsFrame(protocol, st1, input.chunk.delta.value);
        var body := TranslateDelta(protocol, st1, input.chunk.delta.value).0;
        OnlyNone(body, IsStart);
        OnlyConcat(begin, body, IsStart);
      }
    } else {
      StopsAre(st.openedBlocks);
      OnlyNone(out, IsStart);
    }
  }

  lemma {:induction false} StreamStarts(protocol: Protocol, st: State, inputs: seq<Input>)
    requires !st.started ==> st.responseId == ""
    ensures Only(TranslateAll(protocol, st, inputs).0, IsStart) == if st.started then [] else StartFor(protocol, Ids(inputs))
    decreases |inputs|
  {
    hide Translate, IdsIn, Only;
    if inputs == [] {
      NothingIsLeft(IsStart);
    } else {
      var (out, st1) := Translate(protocol, st, inputs[0]);
      StepRemembers(protocol, st, inputs[0]);
      StepStarts(protocol, st, inputs[0]);
      StreamStarts(protocol, st1, inputs[1..]);
      OnlyConcat(out, TranslateAll(protocol, st1, inputs[1..]).0, IsStart);
      var (ids, rest) := (IdsIn(inputs[0]), Ids(inputs[1..]));
      assert ids == [] ==> ids + rest == rest;
      assert ids != [] ==> (ids + rest)[0] == ids[0];
    }
  }

  /** A stream starts once, under the id of its first chunk. */
  lemma StartIsExact(protocol: Protocol, inputs: seq<Input>)
    ensures var starts := Only(TranslateAll(protocol, Initial, inputs).0, IsStart);
            var ids := Ids(inputs);
            starts == if ids == [] then []
                      else match protocol
                           case Anthropic => [MessageStart(ids[0])]
                           case Responses => [ResponseCreated(ids[0])]
                           case _ => []
  {
    StreamStarts(protocol, Initial, inputs);
  }

  /** What [DONE] is answered with, after any stream: a Responses client is told
      that the response of the first id that is not empty is complete, an Anthropic
      client that every block the upstream said anything about stops, in ascending
      order, and that the message does. */
  lemma DoneIsExact(protocol: Protocol, inputs: seq<Input>, blocks: seq<nat>)
    requires Ascending(blocks) && forall i: nat :: i in blocks <==> exists p :: p in Pieces(inputs) && p.index == i
    ensures var out := Translate(protocol, TranslateAll(protocol, Initial, inputs).1, DoneInput).0;
            out == match protocol
                   case Responses => [ResponseCompleted(FirstNonEmpty(Ids(inputs)))]
                   case Anthropic => seq(|blocks|, k requires 0 <= k < |blocks| => BlockStop(blocks[k])) + [MessageDelta, MessageStop]
                   case _ => []
  {
    hide Telling, Pieces, Ids, FirstNonEmpty, TranslateAll, Ascending;
    StateRemembers(protocol, Initial, inputs);
    if protocol.Anthropic? {
      OpenedAreSpokenOf(inputs, blocks);
      StopsAre(blocks);
      assert Stops(blocks) == seq(|blocks|, k requires 0 <= k < |blocks| => BlockStop(blocks[k]));
    }
  }

  lemma OpenedAreSpokenOf(inputs: seq<Input>, blocks: seq<nat>)
    requires Ascending(blocks) && forall i: nat :: i in blocks <==> exists p :: p in Pieces(inputs) && p.index == i
    ensures TranslateAll(Anthropic, Initial, inputs).1.openedBlocks == blocks
  {
    hide Telling, Pieces, TranslateAll;
    InputsAreTold(Anthropic, Initial, {}, inputs);
    IndicesAre(Pieces(inputs));
    var known := TranslateAll(Anthropic, Initial, inputs).1.openedBlocks;
    assert {} + Indices(Pieces(inputs)) == Indices(Pieces(inputs));
    AscendingIsUnique(known, blocks);
  }

  lemma {:induction false} AscendingIsUnique(a: seq<nat>, b: seq<nat>)
    requires Ascending(a) && Ascending(b) && forall i: nat :: i in a <==> i in b
    ensures a == b
  {
    assert |a| == 0 || a[0] in a;
    assert |b| == 0 || b[0] in b;
    if a != [] {
      assert a[0] == b[0];
      var (a', b') := (a[1..], b[1..]);
      forall i: nat
        ensures i in a' <==> i in b'
      {
        assert i in a' <==> i in a && i != a[0];
        assert i in b' <==> i in b && i != b[0];
      }
      AscendingIsUnique(a', b');
    }
  }

  /** Only [DONE] ends anything. */
  lemma EndsOnDone(protocol: Protocol, st: State, input: Input)
    requires !input.DoneInput?
    ensures Only(Translate(protocol, st, input).0, IsEnd) == []
  {
    var out := Translate(protocol, st, input).0;
    if input.ChunkInput? && input.chunk.delta.Some? {
      DeltaKeepsFrame(protocol, Begin(protocol, st, input.chunk).1, input.chunk.delta.value);
    }
    OnlyNone(out, IsEnd);
  }

  /** Of what one event is answered with, the start comes before the content. */
  lemma StartComesFirst(protocol: Protocol, st: State, input: Input)
    requires input.ChunkInput?
    ensures var out := Translate(protocol, st, input).0;
            out == Only(out, IsStart) + Only(out, IsContent)
  {
    var (begin, st1) := Begin(protocol, st, input.chunk);
    var body := if input.chunk.delta.Some? then TranslateDelta(protocol, st1, input.chunk.delta.value).0 else [];
    if input.chunk.delta.Some? {
      DeltaKeepsFrame(protocol, st1, input.chunk.delta.value);
    }
    assert Translate(protocol, st, input).0 == begin + body;
    hide TranslateDelta, Translate;
    SplitsInTwo(begin, body);
  }

  lemma SplitsInTwo(begin: seq<OutEvent>, body: seq<OutEvent>)
    requires forall e :: e in begin ==> IsStart(e)
    requires forall e :: e in body ==> IsContent(e)
    ensures Only(begin + body, IsStart) == begin && Only(begin + body, IsContent) == body
  {
    OnlyAll(begin, IsStart);
    OnlyNone(begin, IsContent);
    OnlyNone(body, IsStart);
    OnlyAll(body, IsContent);
    hide Only;
    OnlyConcat(begin, body, IsStart);
    OnlyConcat(begin, body, IsContent);
    assert begin + [] == begin && [] + body == body;
  }

  function DecisionFor(protocol: Protocol, input: Input): seq<OutEvent> {
    match (protocol, input)
    case (Anthropic, DecisionInput(data)) => [Decision("urouter.decision", data)]
    case (Responses, DecisionInput(data)) => [Decision("response.urouter", data)]
    case _ => []
  }

  function DecisionsFor(protocol: Protocol, inputs: seq<Input>): seq<OutEvent> {
    if inputs == [] then [] else DecisionFor(protocol, inputs[0]) + DecisionsFor(protocol, inputs[1..])
  }

  lemma StepDecides(protocol: Protocol, st: State, input: Input)
    ensures Only(Translate(protocol, st, input).0, IsDecision) == DecisionFor(protocol, input)
  {
    var out := Translate(protocol, st, input).0;
    if input.DecisionInput? {
      OnlyAll(out, IsDecision);
    } else {
      if input.ChunkInput? && input.chunk.delta.Some? {
        DeltaKeepsFrame(protocol, Begin(protocol, st, input.chunk).1, input.chunk.delta.value);
      } else {
        StopsAre(st.openedBlocks);
      }
      OnlyNone(out, IsDecision);
    }
  }

  /** Each decision is passed on, in order and under the client's name for it. */
  lemma {:induction false} DecisionsAreExact(protocol: Protocol, st: State, inputs: seq<Input>)
    ensures Only(TranslateAll(protocol, st, inputs).0, IsDecision) == DecisionsFor(protocol, inputs)
    decreases |inputs|
  {
    hide Translate, DecisionFor;
    if inputs != [] {
      var (out, st1) := Translate(protocol, st, inputs[0]);
      StepDecides(protocol, st, inputs[0]);
      DecisionsAreExact(protocol, st1, inputs[1..]);
      OnlyConcat(out, TranslateAll(protocol, st1, inputs[1..]).0, IsDecision);
    }
  }

  // To a Responses client too every text arrives whole.

  function Deltas(events: seq<OutEvent>, index: nat): string {
    if events == [] then ""
    else
      (match events[0]
       case OutputTextDelta(text) => if index == 0 then text else ""
       case OutputReasoningDelta(text) => if index == 1 then text else ""
       case ArgumentsDelta(o, text) => if o + 1 == index then text else ""
       case _ => "")
      + Deltas(events[1..], index)
  }

  lemma {:induction false} DeltasConcat(a: seq<OutEvent>, b: seq<OutEvent>, index: nat)
    ensures Deltas(a + b, index) == Deltas(a, index) + Deltas(b, index)
  {
    if a == [] {
      assert a + b == b;
    } else {
      assert (a + b)[1..] == a[1..] + b;
      DeltasConcat(a[1..], b, index);
    }
  }

  function Said(pieces: seq<Piece>, index: nat): string {
    if pieces == [] then ""
    else (if pieces[0].index == index then pieces[0].text else "") + Said(pieces[1..], index)
  }

  lemma {:induction false} SaidConcat(a: seq<Piece>, b: seq<Piece>, index: nat)
    ensures Said(a + b, index) == Said(a, index) + Said(b, index)
  {
    if a == [] {
      assert a + b == b;
    } else {
      assert (a + b)[1..] == a[1..] + b;
      SaidConcat(a[1..], b, index);
    }
  }

  lemma {:induction false} CallsSay(tools: seq<ToolCall>, index: nat)
    ensures Said(CallPieces(tools), index) == if index < 2 then "" else ToolText(tools, index - 2)
  {
    if tools != [] {
      CallsSay(tools[1..], index);
      assert CallPieces(tools)[1..] == CallPieces(tools[1..]);
    }
  }

  lemma SpokenSays(at: nat, text: Option<string>, index: nat)
    ensures Said(Spoken(at, text), index) == if at == index then GetOr(text, "") else ""
  {
    if text.Some? && text.value != "" {
      assert Spoken(at, text)[1..] == [];
      assert text.value + "" == text.value;
    }
  }

  lemma {:induction false} PiecesSay(inputs: seq<Input>, index: nat)
    ensures Said(Pieces(inputs), index) == Upstream(inputs, index)
  {
    if inputs != [] {
      SaidConcat(PiecesOf(inputs[0]), Pieces(inputs[1..]), index);
      PiecesSay(inputs[1..], index);
      if inputs[0].ChunkInput? && inputs[0].chunk.delta.Some? {
        var delta := inputs[0].chunk.delta.value;
        SpokenSays(0, delta.content, index);
        SpokenSays(1, delta.reasoning, index);
        CallsSay(delta.toolCalls, index);
        SaidConcat(Spoken(0, delta.content), Spoken(1, delta.reasoning), index);
        SaidConcat(Spoken(0, delta.content) + Spoken(1, delta.reasoning), CallPieces(delta.toolCalls), index);
        var t := DeltaText(delta, index);
        assert "" + t == t && t + "" == t;
      }
    }
  }

  lemma PieceDeltas(p: Piece, index: nat)
    ensures Deltas(Introduction(Responses, p), index) == ""
    ensures Deltas(Utterance(Responses, p), index) == if p.index == index then p.text else ""
  {
    assert p.text + "" == p.text;
    var u := Utterance(Responses, p);
    if p.text != "" {
      assert |u| == 1 && u[1..] == [];
    }
    var i := Introduction(Responses, p);
    if i != [] {
      assert |i| == 1 && i[1..] == [];
    }
  }

  lemma {:induction false} TellingDeltas(told: set<nat>, pieces: seq<Piece>, index: nat)
    ensures Deltas(Telling(Responses, told, pieces), index) == Said(pieces, index)
    decreases |pieces|
  {
    hide Introduction, Utterance;
    if pieces != [] {
      var p := pieces[0];
      var a := if p.index in told then [] else Introduction(Responses, p);
      var rest := Telling(Responses, told + {p.index}, pieces[1..]);
      PieceDeltas(p, index);
      DeltasConcat(a, Utterance(Responses, p), index);
      DeltasConcat(a + Utterance(Responses, p), rest, index);
      TellingDeltas(told + {p.index}, pieces[1..], index);
      assert "" + Deltas(Utterance(Responses, p), index) == Deltas(Utterance(Responses, p), index);
    }
  }

  lemma {:induction false} ContentHasDeltas(events: seq<OutEvent>, index: nat)
    ensures Deltas(Only(events, IsContent), index) == Deltas(events, index)
  {
    if events != [] {
      ContentHasDeltas(events[1..], index);
      if IsContent(events[0]) {
        assert Only(events, IsContent)[1..] == Only(events[1..], IsContent);
      } else {
        assert Only(events, IsContent) == Only(events[1..], IsContent);
      }
    }
  }

  /** The text deltas spell the content, the reasoning deltas the reasoning, and
      the argument deltas of output item i + 1 the arguments of tool i. */
  lemma ResponsesTextIsUpstreamText(inputs: seq<Input>, index: nat)
    ensures Deltas(TranslateAll(Responses, Initial, inputs).0, index) == Upstream(inputs, index)
  {
    ContentIsExact(Responses, inputs);
    TellingDeltas({}, Pieces(inputs), index);
    ContentHasDeltas(TranslateAll(Responses, Initial, inputs).0, index);
    PiecesSay(inputs, index);
  }
}

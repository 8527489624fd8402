/** What a stream carries when it arrives in chunks, and for which texts the chunks matter. */
module SseChunks {
  import opened Results
  import opened Sequences
  import opened ChatTranslation
  import opened SseStream
  import opened CarriageReturns

  /** The events that a buffer and the chunks still to come amount to. */
  ghost function Feed(buffer: string, chunks: seq<string>, eof: bool, parse: Parser): seq<Input>
    decreases if eof then 0 else 1, |chunks|, |buffer|
  {
    var end := FindEventEnd(buffer);
    if end.Some? then
      Carried(Lines(buffer[..end.value]), parse) + Feed(StripNewlines(buffer[end.value..]), chunks, eof, parse)
    else if eof then []
    else if chunks != [] then Feed(buffer + chunks[0], chunks[1..], false, parse)
    else Feed(if buffer == "" then "" else buffer + "\n\n", [], true, parse)
  }

  ghost function Streamed(chunks: seq<string>, parse: Parser): seq<Input> {
    Feed("", chunks, false, parse)
  }

  /** At the end of the stream the buffer is empty or terminated. */
  predicate Terminated(buffer: string, chunks: seq<string>, eof: bool) {
    eof ==> chunks == [] && (buffer == "" || EndsBlank(buffer))
  }

  lemma NothingLeft(buffer: string, parse: Parser)
    requires NoBlank(buffer) && (buffer == "" || EndsBlank(buffer))
    ensures buffer == "" && Inputs("", parse) == []
  {
    EndingBlankIsBlank(buffer);
  }

  lemma EndingBlankIsBlank(buffer: string)
    ensures EndsBlank(buffer) ==> !NoBlank(buffer)
  {
    if EndsBlank(buffer) {
      assert BlankAt(buffer, |buffer| - 2);
    }
  }

  /** Draining the first event of a buffer. */
  lemma DrainIsSilent(buffer: string, end: nat, rest: string, parse: Parser)
    requires parse("") == None && NothingHidden(buffer + rest) && BlankAt(buffer, end)
    ensures var kept := StripNewlines(buffer[end..]);
            Inputs(kept + rest, parse) == Inputs(buffer[end + 2..] + rest, parse)
            && NothingHidden(kept + rest) && (EndsBlank(buffer) ==> kept == "" || EndsBlank(kept))
  {
    hide Inputs, NothingHidden;
    var s := buffer[end..];
    assert (buffer + rest)[end..] == s + rest;
    SuffixHidesNothing(buffer + rest, end);
    StrippingIsSilent(s, rest, parse);
    assert s + rest == "\n" + ("\n" + (buffer[end + 2..] + rest));
    LeadingLineFeed("\n" + (buffer[end + 2..] + rest), parse);
    LeadingLineFeed(buffer[end + 2..] + rest, parse);
    assert (s + rest)[LineEndRun(s)..] == StripNewlines(s) + rest;
    SuffixHidesNothing(s + rest, LineEndRun(s));
    if EndsBlank(buffer) {
      assert EndsBlank(s);
      StrippedEnds(s);
    }
  }

  /** Where nothing is hidden the chunks do not matter: the stream carries what its text does. */
  lemma {:induction false} FeedIsText(buffer: string, chunks: seq<string>, eof: bool, parse: Parser)
    requires parse("") == None && NothingHidden(buffer + Concat(chunks)) && Terminated(buffer, chunks, eof)
    ensures Feed(buffer, chunks, eof, parse) == Inputs(buffer + Concat(chunks), parse)
    decreases if eof then 0 else 1, |chunks|, |buffer|
  {
    hide Inputs, NothingHidden, Carried;
    var end := FindEventEnd(buffer);
    if end.Some? {
      DrainIsSilent(buffer, end.value, Concat(chunks), parse);
      CutAtFirstBlank(buffer, end.value, Concat(chunks), parse);
      FeedIsText(StripNewlines(buffer[end.value..]), chunks, eof, parse);
    } else if eof {
      NothingLeft(buffer, parse);
      assert buffer + Concat(chunks) == "";
    } else if chunks != [] {
      assert buffer + Concat(chunks) == buffer + chunks[0] + Concat(chunks[1..]);
      FeedIsText(buffer + chunks[0], chunks[1..], false, parse);
    } else {
      assert buffer + Concat(chunks) == buffer;
      FlushIsText(buffer, parse);
    }
  }

  lemma FlushIsText(buffer: string, parse: Parser)
    requires parse("") == None && NothingHidden(buffer) && NoBlank(buffer)
    ensures Feed(if buffer == "" then "" else buffer + "\n\n", [], true, parse) == Inputs(buffer, parse)
    decreases 0, 1, |buffer| + 1
  {
    hide Inputs, NothingHidden;
    if buffer == "" {
      NothingLeft("", parse);
    } else {
      var flushed := buffer + "\n\n";
      FlushHidesNothing(buffer);
      FlushIsSilent(buffer, parse);
      assert flushed + "" == flushed;
      FeedIsText(flushed, [], true, parse);
    }
  }

  // One character at a time nothing is ever drained too early.

  function Bytes(text: string): (chunks: seq<string>) {
    if text == "" then [] else [[text[0]]] + Bytes(text[1..])
  }

  lemma {:induction false} ConcatBytes(text: string)
    ensures Concat(Bytes(text)) == text
  {
    if text != "" {
      ConcatBytes(text[1..]);
      assert text == [text[0]] + text[1..];
    }
  }

  lemma {:induction false} ConcatAppends(a: seq<string>, b: seq<string>)
    ensures Concat(a + b) == Concat(a) + Concat(b)
  {
    if a == [] {
      assert a + b == b;
    } else {
      assert (a + b)[1..] == a[1..] + b;
      ConcatAppends(a[1..], b);
      Associative(a[0], Concat(a[1..]), Concat(b));
    }
  }

  lemma FeedPulls(buffer: string, chunk: string, more: seq<string>, parse: Parser)
    requires NoBlank(buffer)
    ensures Feed(buffer, [chunk] + more, false, parse) == Feed(buffer + chunk, more, false, parse)
  {
    assert ([chunk] + more)[1..] == more;
  }

  lemma FeedCuts(buffer: string, end: nat, chunks: seq<string>, parse: Parser)
    requires BlankAt(buffer, end) && forall i :: 0 <= i < end ==> !BlankAt(buffer, i)
    ensures Feed(buffer, chunks, false, parse)
            == Carried(Lines(buffer[..end]), parse) + Feed(StripNewlines(buffer[end..]), chunks, false, parse)
  {
    assert !NoBlank(buffer);
    var found := FindEventEnd(buffer);
    assert found.value == end;
  }

  /** What arrived by one character completes no event, or one that ends with it. */
  lemma OneMore(buffer: string, c: char)
    requires NoBlank(buffer)
    ensures var grown := buffer + [c];
            forall i :: 0 <= i < |grown| && BlankAt(grown, i) ==> i == |grown| - 2
  {
    var grown := buffer + [c];
    forall i | 0 <= i < |grown| && BlankAt(grown, i)
      ensures i == |grown| - 2
    {
      if i + 1 < |buffer| {
        assert BlankAt(buffer, i);
      }
    }
  }

  lemma Drained(s: string)
    requires forall i :: 0 <= i < |s| ==> Newline(s[i])
    ensures StripNewlines(s) == ""
  {
  }

  /** The buffer after one more character. */
  function Kept(buffer: string, c: char): (kept: string)
    ensures kept == "" || kept == buffer + [c]
  {
    if EndsBlank(buffer + [c]) then "" else buffer + [c]
  }

  /** The event that one more character completes. */
  function Completed(buffer: string, c: char): string {
    if EndsBlank(buffer + [c]) then buffer[..|buffer| - 1] else ""
  }

  lemma FeedOneMore(buffer: string, c: char, more: seq<string>, parse: Parser)
    requires NoBlank(buffer) && parse("") == None
    ensures NoBlank(Kept(buffer, c))
    ensures Feed(buffer, [[c]] + more, false, parse)
            == Carried(Lines(Completed(buffer, c)), parse) + Feed(Kept(buffer, c), more, false, parse)
  {
    var grown := buffer + [c];
    OneMore(buffer, c);
    FeedPulls(buffer, [c], more, parse);
    NothingCarried(parse);
    if EndsBlank(grown) {
      FeedCuts(grown, |grown| - 2, more, parse);
      Drained(grown[|grown| - 2..]);
      assert grown[..|grown| - 2] == buffer[..|buffer| - 1];
    } else {
      assert [] + Feed(grown, more, false, parse) == Feed(grown, more, false, parse);
    }
  }

  lemma TextOneMore(buffer: string, c: char, rest: string, parse: Parser)
    requires NoBlank(buffer) && parse("") == None
    ensures Inputs(buffer + ([c] + rest), parse)
            == Carried(Lines(Completed(buffer, c)), parse) + Inputs(Kept(buffer, c) + rest, parse)
  {
    hide Inputs, Carried, Lines;
    var grown := buffer + [c];
    assert buffer + ([c] + rest) == grown + rest;
    OneMore(buffer, c);
    NothingCarried(parse);
    if EndsBlank(grown) {
      CutAtFirstBlank(grown, |grown| - 2, rest, parse);
      assert grown[..|grown| - 2] == buffer[..|buffer| - 1] && grown[|grown| - 2 + 2..] == "";
    } else {
      assert [] + Inputs(grown + rest, parse) == Inputs(grown + rest, parse);
    }
  }

  /** Character by character, a stream always carries what its text does. */
  lemma {:induction false} BytewiseIsText(buffer: string, text: string, parse: Parser)
    requires NoBlank(buffer) && parse("") == None
    ensures Feed(buffer, Bytes(text), false, parse) == Inputs(buffer + text, parse)
    decreases |text|
  {
    hide Inputs, Feed;
    if text == "" {
      assert buffer + "" == buffer;
      EndOfBuffer(buffer, parse);
    } else {
      var c, rest := text[0], text[1..];
      FeedOneMore(buffer, c, Bytes(rest), parse);
      TextOneMore(buffer, c, rest, parse);
      BytewiseIsText(Kept(buffer, c), rest, parse);
      assert text == [c] + rest;
    }
  }

  /** At the end of the stream the flushed buffer holds no event but its last. */
  lemma EndOfBuffer(buffer: string, parse: Parser)
    requires NoBlank(buffer) && parse("") == None
    ensures Feed(buffer, [], false, parse) == Inputs(buffer, parse)
  {
    hide Inputs, Carried, Lines;
    if buffer == "" {
      NothingLeft("", parse);
    } else {
      var flushed := buffer + "\n\n";
      var end := FirstBlankOf(buffer);
      FirstBlankIsFirst(buffer);
      assert flushed + "" == flushed && flushed[end + 2..] + "" == flushed[end + 2..];
      FlushIsSilent(buffer, parse);
      CutAtFirstBlank(flushed, end, "", parse);
      Drained(flushed[end..]);
      NothingLeft("", parse);
      TailCarriesNothing(flushed[end + 2..], parse);
      FlushedFeed(buffer, end, parse);
    }
  }

  /** Where the terminated buffer is cut. */
  function FirstBlankOf(buffer: string): nat
    requires buffer != ""
  {
    if buffer[|buffer| - 1] == '\n' then |buffer| - 1 else |buffer|
  }

  lemma FirstBlankIsFirst(buffer: string)
    requires buffer != "" && NoBlank(buffer)
    ensures var end, flushed := FirstBlankOf(buffer), buffer + "\n\n";
            BlankAt(flushed, end) && (forall i :: 0 <= i < end ==> !BlankAt(flushed, i))
            && forall i :: end <= i < |flushed| ==> flushed[i] == '\n'
  {
    var end, flushed := FirstBlankOf(buffer), buffer + "\n\n";
    forall i | 0 <= i < end
      ensures !BlankAt(flushed, i)
    {
      assert !BlankAt(buffer, i);
    }
  }

  lemma TailCarriesNothing(tail: string, parse: Parser)
    requires |tail| <= 1 && forall i :: 0 <= i < |tail| ==> tail[i] == '\n'
    ensures Inputs(tail, parse) == Inputs("", parse)
  {
    hide Inputs;
    if tail != "" {
      assert tail == "\n" + "";
      LeadingLineFeed("", parse);
    }
  }

  lemma FlushedFeed(buffer: string, end: nat, parse: Parser)
    requires buffer != "" && NoBlank(buffer)
    requires var flushed := buffer + "\n\n";
             BlankAt(flushed, end) && (forall i :: 0 <= i < end ==> !BlankAt(flushed, i)) && StripNewlines(flushed[end..]) == ""
    ensures Feed(buffer, [], false, parse) == Carried(Lines((buffer + "\n\n")[..end]), parse) + []
  {
    hide Carried, Lines;
    var flushed := buffer + "\n\n";
    assert !NoBlank(flushed);
    assert FindEventEnd(flushed).value == end;
    assert NoBlank("");
    assert Feed("", [], true, parse) == [];
    assert Feed(flushed, [], true, parse) == Carried(Lines(flushed[..end]), parse) + Feed("", [], true, parse);
  }

  // Where the chunks matter.

  function KeptAfter(buffer: string, text: string): string
    decreases |text|
  {
    if text == "" then buffer else KeptAfter(Kept(buffer, text[0]), text[1..])
  }

  ghost function CarriedBefore(buffer: string, text: string, parse: Parser): seq<Input>
    decreases |text|
  {
    if text == "" then []
    else Carried(Lines(Completed(buffer, text[0])), parse) + CarriedBefore(Kept(buffer, text[0]), text[1..], parse)
  }

  lemma {:induction false} FeedPrefix(buffer: string, text: string, more: seq<string>, parse: Parser)
    requires NoBlank(buffer) && parse("") == None
    ensures var kept := KeptAfter(buffer, text);
            Feed(buffer, Bytes(text) + more, false, parse) == CarriedBefore(buffer, text, parse) + Feed(kept, more, false, parse)
            && NoBlank(kept) && (text == "" || kept == "" || kept[|kept| - 1] == text[|text| - 1])
    decreases |text|
  {
    hide Feed, Carried, Lines, Completed;
    if text == "" {
      assert [] + more == more && [] + Feed(buffer, more, false, parse) == Feed(buffer, more, false, parse);
    } else {
      var c, rest := text[0], text[1..];
      assert Bytes(text) + more == [[c]] + (Bytes(rest) + more);
      FeedOneMore(buffer, c, Bytes(rest) + more, parse);
      FeedPrefix(Kept(buffer, c), rest, more, parse);
    }
  }

  lemma {:induction false} BytesAppend(a: string, b: string)
    ensures Bytes(a + b) == Bytes(a) + Bytes(b)
  {
    if a == "" {
      assert a + b == b && [] + Bytes(b) == Bytes(b);
    } else {
      assert (a + b)[1..] == a[1..] + b;
      BytesAppend(a[1..], b);
    }
  }

  /** The blank line a drainable run starts with. */
  lemma EarliestBlank(text: string, j: nat, i: nat) returns (first: nat)
    requires DrainableAt(text, j, i)
    ensures DrainableAt(text, first, i) && (first == 0 || !BlankAt(text, first - 1))
    decreases j
  {
    first := j;
    if j > 0 && BlankAt(text, j - 1) {
      assert Newline(text[j - 1]);
      first := EarliestBlank(text, j - 1, i);
    }
  }

  lemma {:induction false} NewlinesAreSilent(w: string, v: string, parse: Parser)
    requires parse("") == None && v != "" && Newline(v[0]) && forall k :: 0 <= k < |w| ==> Newline(w[k])
    ensures Inputs(w + v, parse) == Inputs(v, parse)
  {
    hide Inputs;
    if w == "" {
      assert w + v == v;
    } else {
      var rest := w[1..] + v;
      assert w + v == [w[0]] + rest;
      NewlinesAreSilent(w[1..], v, parse);
      if w[0] == '\n' {
        assert [w[0]] == "\n";
        LeadingLineFeed(rest, parse);
      } else {
        assert [w[0]] == "\r";
        NewlineHidesNothing(rest);
        LeadingCarriageReturn(rest, parse);
      }
    }
  }

  /** The chunks that part: all single characters, but for one that brings a blank line
      and the carriage return in front of the hidden line. */
  function DrainingChunks(text: string, j: nat, i: nat): seq<string>
    requires j <= i < |text|
  {
    Bytes(text[..j]) + ([text[j..i + 1]] + Bytes(text[i + 1..]))
  }

  lemma DrainingChunksConcat(text: string, j: nat, i: nat)
    requires j <= i < |text|
    ensures Concat(DrainingChunks(text, j, i)) == text
  {
    hide Bytes;
    ConcatBytes(text[..j]);
    ConcatBytes(text[i + 1..]);
    ConcatAppends(Bytes(text[..j]), [text[j..i + 1]] + Bytes(text[i + 1..]));
    assert ([text[j..i + 1]] + Bytes(text[i + 1..]))[1..] == Bytes(text[i + 1..]);
    assert text == text[..j] + (text[j..i + 1] + text[i + 1..]);
  }

  lemma FirstBlankBehind(kept: string, d: string)
    requires NoBlank(kept) && (kept == "" || kept[|kept| - 1] != '\n') && BlankAt(d, 0)
    ensures BlankAt(kept + d, |kept|) && forall k :: 0 <= k < |kept| ==> !BlankAt(kept + d, k)
  {
    forall k | 0 <= k < |kept|
      ensures !BlankAt(kept + d, k)
    {
      assert !BlankAt(kept, k);
    }
  }

  lemma DrainedAtOnce(kept: string, d: string, u: string, parse: Parser)
    requires NoBlank(kept) && (kept == "" || kept[|kept| - 1] != '\n') && BlankAt(d, 0) && parse("") == None
    requires forall k :: 0 <= k < |d| ==> Newline(d[k])
    ensures Feed(kept, [d] + Bytes(u), false, parse) == Carried(Lines(kept), parse) + Inputs(u, parse)
  {
    hide Inputs, Carried, Lines;
    FirstBlankBehind(kept, d);
    FeedPulls(kept, d, Bytes(u), parse);
    FeedCuts(kept + d, |kept|, Bytes(u), parse);
    assert (kept + d)[..|kept|] == kept && (kept + d)[|kept|..] == d;
    Drained(d);
    BytewiseIsText("", u, parse);
    assert "" + u == u;
  }

  lemma BehindBlank(kept: string, d: string, u: string)
    requires |d| > 2 && d[|d| - 1] == '\r'
    ensures (kept + d)[..|kept|] == kept && kept + d + u == kept + (d + u)
    ensures (kept + d)[|kept| + 2..] + u == d[2..|d| - 1] + ("\r" + u)
  {
    assert (kept + d)[|kept| + 2..] == d[2..];
    assert d[2..] == d[2..|d| - 1] + "\r";
    assert d[2..|d| - 1] + "\r" + u == d[2..|d| - 1] + ("\r" + u);
  }

  lemma DrainedBytewise(kept: string, d: string, u: string, parse: Parser)
    requires NoBlank(kept) && (kept == "" || kept[|kept| - 1] != '\n') && BlankAt(d, 0) && parse("") == None
    requires forall k :: 0 <= k < |d| ==> Newline(d[k])
    requires |d| > 2 && d[|d| - 1] == '\r'
    ensures Feed(kept, Bytes(d + u), false, parse) == Carried(Lines(kept), parse) + Inputs("\r" + u, parse)
  {
    hide Inputs, Carried, Lines, Feed, NoBlank, Bytes;
    BytewiseIsText(kept, d + u, parse);
    FirstBlankBehind(kept, d);
    CutAtFirstBlank(kept + d, |kept|, u, parse);
    BehindBlank(kept, d, u);
    NewlinesAreSilent(d[2..|d| - 1], "\r" + u, parse);
  }

  /** The run from j to i as one chunk. */
  lemma RunAsChunk(text: string, j: nat, i: nat)
    requires DrainableAt(text, j, i)
    ensures var d := text[j..i + 1];
            BlankAt(d, 0) && |d| > 2 && d[|d| - 1] == '\r' && (forall k :: 0 <= k < |d| ==> Newline(d[k]))
            && text == text[..j] + (d + text[i + 1..])
  {
    hide Newline;
    var d := text[j..i + 1];
    forall k | 0 <= k < |d|
      ensures Newline(d[k])
    {
      assert Newline(text[j + k]);
    }
  }

  lemma HiddenLineParts(text: string, j: nat, i: nat)
    requires DrainableAt(text, j, i) && Hides(text[i + 1..]) && (j == 0 || !BlankAt(text, j - 1))
    ensures var parse := Witness(text[i + 1..]);
            parse("") == None && Streamed(DrainingChunks(text, j, i), parse) != Streamed(Bytes(text), parse)
  {
    hide Inputs, Carried, Lines, Feed, Hides, Witness, Bytes, CarriedBefore, KeptAfter, NoBlank, Newline;
    var head, d, u := text[..j], text[j..i + 1], text[i + 1..];
    var parse := Witness(u);
    HidingShows(u);
    EmptyHasNoBlank();
    var kept := KeptAfter("", head);
    FeedPrefix("", head, [d] + Bytes(u), parse);
    FeedPrefix("", head, Bytes(d + u), parse);
    RunAsChunk(text, j, i);
    BytesAppend(head, d + u);
    KeptAtStart(head);
    DrainedAtOnce(kept, d, u, parse);
    DrainedBytewise(kept, d, u, parse);
    AddFront(CarriedBefore("", head, parse), Carried(Lines(kept), parse), Inputs(u, parse), Inputs("\r" + u, parse));
  }

  lemma EmptyHasNoBlank()
    ensures NoBlank("")
  {
  }

  lemma KeptAtStart(head: string)
    ensures head == "" ==> KeptAfter("", head) == ""
  {
  }

  lemma AddFront<T>(p: seq<T>, q: seq<T>, a: seq<T>, b: seq<T>)
    ensures p + (q + a) == p + (q + b) ==> a == b
  {
    if p + (q + a) == p + (q + b) {
      var n := |p| + |q|;
      assert a == (p + (q + a))[n..] && b == (p + (q + b))[n..];
    }
  }

  /** A and b cut the same text into chunks. */
  ghost predicate Cuts(text: string, a: seq<string>, b: seq<string>) {
    Concat(a) == text && Concat(b) == text
  }

  lemma SameWhereNothingHidden(text: string, a: seq<string>, b: seq<string>, parse: Parser)
    requires NothingHidden(text) && Cuts(text, a, b) && parse("") == None
    ensures Streamed(a, parse) == Streamed(b, parse) == Inputs(text, parse)
  {
    hide Inputs, NothingHidden;
    assert "" + text == text;
    FeedIsText("", a, false, parse);
    FeedIsText("", b, false, parse);
  }

  /** Two ways to cut a text with a hidden line, and a parser that sees the difference. */
  lemma HiddenTextParts(text: string) returns (a: seq<string>, b: seq<string>, u: string)
    requires !NothingHidden(text)
    ensures Cuts(text, a, b) && Witness(u)("") == None && Streamed(a, Witness(u)) != Streamed(b, Witness(u))
  {
    hide Hides, Witness, Bytes, Concat, Streamed;
    var j: nat, i: nat :| DrainableAt(text, j, i) && Hides(text[i + 1..]);
    var first := EarliestBlank(text, j, i);
    a, b, u := DrainingChunks(text, first, i), Bytes(text), text[i + 1..];
    DrainingChunksConcat(text, first, i);
    ConcatBytes(text);
    HiddenLineParts(text, first, i);
  }

  /** The exact condition: what a stream carries depends on its text alone, however it is
      cut and whatever the parser, exactly when the text hides no line. */
  lemma WhenChunksMatter(text: string)
    ensures (forall a, b, parse: Parser | Cuts(text, a, b) && parse("") == None :: Streamed(a, parse) == Streamed(b, parse))
            <==> NothingHidden(text)
  {
    hide NothingHidden, Streamed, Cuts, Witness;
    if NothingHidden(text) {
      forall a, b, parse: Parser | Cuts(text, a, b) && parse("") == None
        ensures Streamed(a, parse) == Streamed(b, parse)
      {
        SameWhereNothingHidden(text, a, b, parse);
      }
    } else {
      var a, b, u := HiddenTextParts(text);
    }
  }

  // The same for what the client is sent.

  ghost function OutputOf(protocol: Protocol, chunks: seq<string>, parse: Parser): seq<OutEvent> {
    TranslateAll(protocol, Initial, Streamed(chunks, parse)).0
  }

  /** Events that a Responses client can tell apart. */
  predicate Plain(input: Input) {
    !input.OtherInput? && (input.ChunkInput? ==> input.chunk == Probe)
  }

  predicate AllPlain(inputs: seq<Input>) {
    forall i :: 0 <= i < |inputs| ==> Plain(inputs[i])
  }

  lemma ProbeShows(st: State)
    ensures Translate(Responses, st, ChunkInput(Probe)).0
            == (if st.started then [] else [ResponseCreated(if st.responseId == "" then "urouter-stream" else st.responseId)])
               + [OutputTextDelta("x")]
  {
  }

  lemma FirstShows(st: State, a: Input, b: Input)
    requires Plain(a) && Plain(b)
    ensures Translate(Responses, st, a).0 != []
    ensures Translate(Responses, st, a).0[0] == Translate(Responses, st, b).0[0] ==> a == b
  {
    hide Translate;
    PlainShows(st, a);
    PlainShows(st, b);
  }

  lemma PlainShows(st: State, a: Input)
    requires Plain(a)
    ensures var out := Translate(Responses, st, a).0;
            out != []
            && (a.DecisionInput? ==> out[0] == Decision("response.urouter", a.data))
            && (a.DoneInput? ==> out[0] == ResponseCompleted(st.responseId))
            && (a.ChunkInput? ==> out[0].ResponseCreated? || out[0] == OutputTextDelta("x"))
  {
    if a.ChunkInput? {
      ProbeShows(st);
    }
  }

  lemma {:induction false} OutputDetermines(st: State, a: seq<Input>, b: seq<Input>)
    requires AllPlain(a) && AllPlain(b) && TranslateAll(Responses, st, a).0 == TranslateAll(Responses, st, b).0
    ensures a == b
    decreases |a|
  {
    hide Translate, Plain;
    if a != [] && b != [] {
      FirstShows(st, a[0], b[0]);
      FirstShows(st, b[0], a[0]);
      var (out, next) := Translate(Responses, st, a[0]);
      var restA, restB := TranslateAll(Responses, next, a[1..]).0, TranslateAll(Responses, next, b[1..]).0;
      assert (out + restA)[0] == out[0];
      assert a[0] == b[0];
      assert restA == (out + restA)[|out|..] && restB == (out + restB)[|out|..];
      OutputDetermines(next, a[1..], b[1..]);
      assert a == [a[0]] + a[1..] && b == [b[0]] + b[1..];
    } else if a != [] {
      FirstShows(st, a[0], a[0]);
    } else if b != [] {
      FirstShows(st, b[0], b[0]);
    }
  }

  lemma CarriedIsPlain(lines: seq<string>, text: string)
    ensures AllPlain(Carried(lines, Only(text)))
  {
  }

  lemma {:induction false} FeedIsPlain(buffer: string, chunks: seq<string>, eof: bool, text: string)
    ensures AllPlain(Feed(buffer, chunks, eof, Only(text)))
    decreases if eof then 0 else 1, |chunks|, |buffer|
  {
    hide Carried, Plain, Lines, Only;
    var end := FindEventEnd(buffer);
    if end.Some? {
      CarriedIsPlain(Lines(buffer[..end.value]), text);
      FeedIsPlain(StripNewlines(buffer[end.value..]), chunks, eof, text);
    } else if eof {
    } else if chunks != [] {
      FeedIsPlain(buffer + chunks[0], chunks[1..], false, text);
    } else {
      FeedIsPlain(if buffer == "" then "" else buffer + "\n\n", [], true, text);
    }
  }

  /** The client's output depends on the text alone, for every way to cut it, every parser
      and every protocol, exactly when the text hides no line. */
  lemma WhenOutputDependsOnChunks(text: string)
    ensures (forall a, b, parse: Parser, protocol | Cuts(text, a, b) && parse("") == None ::
               OutputOf(protocol, a, parse) == OutputOf(protocol, b, parse))
            <==> NothingHidden(text)
  {
    hide NothingHidden, Cuts, Witness, TranslateAll, Feed;
    if NothingHidden(text) {
      forall a, b, parse: Parser, protocol | Cuts(text, a, b) && parse("") == None
        ensures OutputOf(protocol, a, parse) == OutputOf(protocol, b, parse)
      {
        SameWhereNothingHidden(text, a, b, parse);
      }
    } else {
      var a, b, u := HiddenTextParts(text);
      PlainWitness(a, u);
      PlainWitness(b, u);
      if OutputOf(Responses, a, Witness(u)) == OutputOf(Responses, b, Witness(u)) {
        OutputDetermines(Initial, Streamed(a, Witness(u)), Streamed(b, Witness(u)));
      }
    }
  }

  lemma PlainWitness(chunks: seq<string>, u: string)
    ensures AllPlain(Streamed(chunks, Witness(u)))
  {
    hide Feed, AllPlain;
    FeedIsPlain("", chunks, false, Join(DataLines(EventLines(FirstGroup(Lines(u))))));
  }

  /** An example: one text, cut before the carriage return and behind it. */
  lemma ChunksPart(field: string, parse: Parser)
    requires field == "data:[DONE]" && parse("") == None
    ensures Streamed(["\n\n", "\r" + field], parse) == [] && Streamed(["\n\n\r", field], parse) == [DoneInput]
  {
    hide Feed, Inputs, Carried;
    CarriageReturnHidesField(field, parse);
    TwoChunks("\n\n", "\r" + field, parse);
    TwoChunks("\n\n\r", field, parse);
  }

  lemma TwoChunks(d: string, u: string, parse: Parser)
    requires BlankAt(d, 0) && (forall k :: 0 <= k < |d| ==> Newline(d[k])) && parse("") == None
    requires forall k :: 0 <= k < |u| ==> u[k] != '\n'
    ensures Streamed([d, u], parse) == Inputs(u, parse)
  {
    hide Inputs, Carried;
    NothingCarried(parse);
    assert [d, u] == [d] + [u] && "" + d == d && NoBlank("");
    FeedPulls("", d, [u], parse);
    FeedCuts(d, 0, [u], parse);
    assert d[..0] == "" && d[0..] == d;
    Drained(d);
    assert Concat([]) == "" && [u][1..] == [] && "" + Concat([u]) == u;
    NoBlanksHideNothing(u);
    FeedIsText("", [u], false, parse);
    assert [] + Feed("", [u], false, parse) == Feed("", [u], false, parse);
  }

  lemma NoBlanksHideNothing(u: string)
    requires forall k :: 0 <= k < |u| ==> u[k] != '\n'
    ensures NothingHidden(u)
  {
    hide Hides;
  }
}

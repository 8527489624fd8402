/** The translator as the client pulls it: one buffer, one translation state, and
    a loop that cuts events, reads chunks and flushes at the end of the stream. */
module SseTranslator {
  import opened Results
  import opened ChatTranslation
  import opened SseStream
  import opened CarriageReturns
  import opened SseChunks

  class StreamTranslator {
    var upstream: seq<string>
    var buffer: string
    var eof: bool
    var translation: State
    const protocol: Protocol
    const parse: Parser

    constructor (chunks: seq<string>, protocol: Protocol, parse: Parser)
      ensures Valid() && this.protocol == protocol && this.parse == parse
      ensures Owed() == TranslateAll(protocol, Initial, Streamed(chunks, parse)) && Text() == Concat(chunks)
    {
      this.protocol, this.parse := protocol, parse;
      upstream, buffer, eof, translation := chunks, "", false, Initial;
      new;
      assert buffer + Concat(upstream) == Concat(chunks);
    }

    ghost predicate Valid()
      reads this
    {
      Terminated(buffer, upstream, eof)
    }

    /** The text not read yet. */
    ghost function Text(): string
      reads this
    {
      buffer + Concat(upstream)
    }

    /** The events still to be translated. */
    ghost function Pending(): seq<Input>
      reads this
    {
      Feed(buffer, upstream, eof, parse)
    }

    /** The output still to come, and the state it leaves. */
    ghost function Owed(): (seq<OutEvent>, State)
      reads this
    {
      TranslateAll(protocol, translation, Pending())
    }

    /** The parser rejects the empty text, and no line of what is left is hidden. */
    ghost predicate Plainly()
      reads this
    {
      parse("") == None && NothingHidden(Text())
    }

    /** Then the output still to come is the translation of the text that is left. */
    lemma OwedIsText()
      requires Valid() && Plainly()
      ensures Pending() == Inputs(Text(), parse) && Owed() == TranslateAll(protocol, translation, Inputs(Text(), parse))
    {
      FeedIsText(buffer, upstream, eof, parse);
    }

    ghost function Measure(): nat
      reads this
    {
      |Concat(upstream)| + |upstream| + |buffer| + if eof then 0 else 3
    }

    /** The next piece of output, or the end of the stream. */
    method Next() returns (out: Option<seq<OutEvent>>)
      requires Valid()
      modifies this
      ensures Valid() && (old(Plainly()) ==> Plainly())
      ensures out.Some? ==> out.value != [] && old(Owed()) == (out.value + Owed().0, Owed().1) && Measure() < old(Measure())
      ensures out.None? ==> old(Owed()) == ([], translation)
    {
      hide Translate, TranslateAll, NothingHidden, Feed;
      while true
        invariant Valid() && Owed() == old(Owed()) && Measure() <= old(Measure()) && (old(Plainly()) ==> Plainly())
        decreases Measure()
      {
        var end := FindEventEnd(buffer);
        if end.Some? {
          var event := TakeEvent(end.value);
          var bytes := TranslateEvent(event, Pending());
          if bytes != [] {
            return Some(bytes);
          }
          assert [] + Owed().0 == Owed().0;
        } else if eof {
          NothingFed(buffer, upstream, parse);
          TranslatesNothing(protocol, translation);
          return None;
        } else if upstream != [] {
          PullChunk();
        } else {
          Flush();
        }
      }
    }

    /** Drain the first event and the line ends behind it: nothing is lost, and where no
        line is hidden the text that is left carries the other events. */
    method TakeEvent(end: nat) returns (event: string)
      requires Valid() && BlankAt(buffer, end) && forall i :: 0 <= i < end ==> !BlankAt(buffer, i)
      modifies `buffer
      ensures Valid() && |buffer| < |old(buffer)|
      ensures Carried(Lines(event), parse) + Pending() == old(Pending())
      ensures old(Plainly()) ==> Plainly() && Carried(Lines(event), parse) + Inputs(Text(), parse) == old(Inputs(Text(), parse))
    {
      hide Inputs, Carried, Lines, NothingHidden;
      ghost var rest := Concat(upstream);
      event := buffer[..end];
      FeedTakes(buffer, end, upstream, eof, parse);
      if Plainly() {
        CutAtFirstBlank(buffer, end, rest, parse);
        DrainIsSilent(buffer, end, rest, parse);
      }
      DrainShortens(buffer, end);
      buffer := StripNewlines(buffer[end..]);
    }

    method TranslateEvent(event: string, ghost pending: seq<Input>) returns (bytes: seq<OutEvent>)
      modifies `translation
      ensures var after := TranslateAll(protocol, translation, pending);
              TranslateAll(protocol, old(translation), Carried(Lines(event), parse) + pending) == (bytes + after.0, after.1)
    {
      ghost var before := translation;
      TranslateAllConcat(protocol, before, Carried(Lines(event), parse), pending);
      var (out, next) := Translate(protocol, translation, Classify(EventLines(Lines(event)), parse));
      bytes, translation := out, next;
      OneEvent(protocol, before, event, parse);
    }

    method PullChunk()
      requires Valid() && upstream != [] && !eof && NoBlank(buffer)
      modifies `buffer, `upstream
      ensures Valid() && Text() == old(Text()) && Pending() == old(Pending()) && Measure() < old(Measure())
    {
      assert buffer + Concat(upstream) == buffer + upstream[0] + Concat(upstream[1..]);
      buffer, upstream := buffer + upstream[0], upstream[1..];
    }

    method Flush()
      requires Valid() && upstream == [] && !eof && NoBlank(buffer)
      modifies `buffer, `eof
      ensures Valid() && Pending() == old(Pending()) && Measure() < old(Measure()) && (old(Plainly()) ==> Plainly())
    {
      hide NothingHidden;
      assert buffer + Concat(upstream) == buffer && buffer + "\n\n" + "" == buffer + "\n\n";
      if Plainly() {
        FlushHidesNothing(buffer);
      }
      eof := true;
      if buffer != "" {
        buffer := buffer + "\n\n";
      }
    }
  }

  lemma FeedTakes(buffer: string, end: nat, chunks: seq<string>, eof: bool, parse: Parser)
    requires BlankAt(buffer, end) && forall i :: 0 <= i < end ==> !BlankAt(buffer, i)
    ensures Feed(buffer, chunks, eof, parse)
            == Carried(Lines(buffer[..end]), parse) + Feed(StripNewlines(buffer[end..]), chunks, eof, parse)
  {
    assert !NoBlank(buffer);
    assert FindEventEnd(buffer).value == end;
  }

  lemma DrainShortens(buffer: string, end: nat)
    requires BlankAt(buffer, end)
    ensures var kept := StripNewlines(buffer[end..]);
            |kept| < |buffer| && (EndsBlank(buffer) ==> kept == "" || EndsBlank(kept))
  {
    var s := buffer[end..];
    if EndsBlank(buffer) {
      assert EndsBlank(s);
      StrippedEnds(s);
    }
  }

  lemma OneEvent(protocol: Protocol, st: State, event: string, parse: Parser)
    ensures TranslateAll(protocol, st, Carried(Lines(event), parse))
            == Translate(protocol, st, Classify(EventLines(Lines(event)), parse))
  {
    var input := Classify(EventLines(Lines(event)), parse);
    var (out, next) := Translate(protocol, st, input);
    hide EventLines, Lines, Classify;
    assert [input][1..] == [] && out + [] == out;
  }

  lemma NothingFed(buffer: string, chunks: seq<string>, parse: Parser)
    requires NoBlank(buffer)
    ensures Feed(buffer, chunks, true, parse) == []
  {
  }

  lemma TranslatesNothing(protocol: Protocol, st: State)
    ensures TranslateAll(protocol, st, []) == ([], st)
  {
  }

  function Flatten(pieces: seq<seq<OutEvent>>): seq<OutEvent> {
    if pieces == [] then [] else Flatten(pieces[..|pieces| - 1]) + pieces[|pieces| - 1]
  }

  /** What is emitted in all is the translation of what the chunks carry. Where the text
      hides no line that is the translation of the text's events, however it is cut. */
  method TranslateStream(chunks: seq<string>, protocol: Protocol, parse: Parser) returns (pieces: seq<seq<OutEvent>>)
    ensures Flatten(pieces) == OutputOf(protocol, chunks, parse)
    ensures forall i :: 0 <= i < |pieces| ==> pieces[i] != []
    ensures parse("") == None && NothingHidden(Concat(chunks)) ==>
              Flatten(pieces) == TranslateAll(protocol, Initial, Inputs(Concat(chunks), parse)).0
  {
    hide Inputs, TranslateAll, NothingHidden, Streamed;
    var stream := new StreamTranslator(chunks, protocol, parse);
    if parse("") == None && NothingHidden(Concat(chunks)) {
      SameWhereNothingHidden(Concat(chunks), chunks, chunks, parse);
    }
    ghost var all := stream.Owed();
    pieces := [];
    assert [] + all.0 == all.0;
    while true
      invariant fresh(stream) && stream.Valid()
      invariant all == (Flatten(pieces) + stream.Owed().0, stream.Owed().1)
      invariant forall i :: 0 <= i < |pieces| ==> pieces[i] != []
      decreases stream.Measure()
    {
      ghost var before := stream.Owed().0;
      var out := stream.Next();
      if out.None? {
        assert Flatten(pieces) + [] == Flatten(pieces);
        return;
      }
      assert (pieces + [out.value])[..|pieces|] == pieces;
      assert Flatten(pieces) + (out.value + stream.Owed().0) == Flatten(pieces) + out.value + stream.Owed().0;
      pieces := pieces + [out.value];
    }
  }
}

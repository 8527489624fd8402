/** Reading what an upstream writes: a stream of messages, each an optional event
    name and a data text, comes back message by message. */
module SseReading {
  import opened Results
  import opened Sequences
  import opened Whitespace
  import opened ChatTranslation
  import opened SseStream

  datatype Message = Message(event: Option<string>, data: string)

  /** The pieces of a text between its line feeds. */
  function Parts(text: string): seq<string> {
    var n := LineEnd(text);
    if n == |text| then [text] else [text[..n]] + Parts(text[n + 1..])
  }

  lemma {:induction false} PartsJoin(text: string)
    ensures Parts(text) != [] && Join(Parts(text)) == text
  {
    var n := LineEnd(text);
    if n < |text| {
      var (head, rest) := (text[..n], text[n + 1..]);
      PartsJoin(rest);
      hide Parts, Join;
      CutApart(text, n);
      JoinFirst(head, Parts(rest));
    }
  }

  lemma CutApart(text: string, n: nat)
    requires n == LineEnd(text) < |text|
    ensures Parts(text) == [text[..n]] + Parts(text[n + 1..])
    ensures text == text[..n] + "\n" + text[n + 1..]
  {
    hide LineEnd;
    AtLineFeed(text, n);
  }

  lemma AtLineFeed(text: string, n: nat)
    requires n < |text| && text[n] == '\n'
    ensures text == text[..n] + "\n" + text[n + 1..]
  {
  }

  lemma JoinFirst(part: string, rest: seq<string>)
    requires rest != []
    ensures Join([part] + rest) == part + "\n" + Join(rest)
  {
    assert ([part] + rest)[1..] == rest;
  }

  /** One line, with nothing at its end that reading takes for its terminator. */
  predicate Writable(line: string) {
    (forall i :: 0 <= i < |line| ==> line[i] != '\n') && (line == "" || line[|line| - 1] != '\r')
  }

  /** Reading takes white space off both ends of a name and in front of data. */
  ghost predicate Plain(m: Message) {
    (m.event.Some? ==> Writable(m.event.value) && Trimmed(m.event.value))
    && forall part :: part in Parts(m.data) ==> Writable(part) && (part == "" || !White(part[0]))
  }

  function DataLinesOf(parts: seq<string>): seq<string> {
    if parts == [] then [] else ["data: " + parts[0]] + DataLinesOf(parts[1..])
  }

  function MessageLines(m: Message): seq<string> {
    (if m.event.Some? then ["event: " + m.event.value] else []) + DataLinesOf(Parts(m.data))
  }

  /** Every line followed by a line feed. */
  function Spell(lines: seq<string>): string {
    if lines == [] then "" else lines[0] + "\n" + Spell(lines[1..])
  }

  /** The messages as text, each closed by a blank line. */
  function Stream(messages: seq<Message>): string {
    if messages == [] then "" else Spell(MessageLines(messages[0])) + "\n" + Stream(messages[1..])
  }

  function Understanding(m: Message, parse: Parser): seq<Input> {
    if m.event == Some("urouter.decision") then [DecisionInput(m.data)]
    else if m.data == "[DONE]" then [DoneInput]
    else match parse(m.data) case Some(chunk) => [ChunkInput(chunk)] case None => []
  }

  function Understood(messages: seq<Message>, parse: Parser): seq<Input> {
    if messages == [] then [] else Understanding(messages[0], parse) + Understood(messages[1..], parse)
  }

  lemma SpellStep(lines: seq<string>, tail: string)
    requires lines != []
    ensures Spell(lines) + tail == lines[0] + "\n" + (Spell(lines[1..]) + tail)
  {
    var rest := Spell(lines[1..]);
    assert lines[0] + "\n" + rest + tail == lines[0] + "\n" + (rest + tail);
  }

  lemma {:induction false} SpelledLines(lines: seq<string>, tail: string)
    requires forall i :: 0 <= i < |lines| ==> Writable(lines[i])
    ensures Lines(Spell(lines) + tail) == lines + Lines(tail)
  {
    if lines == [] {
      assert Spell(lines) + tail == tail;
    } else {
      var (line, rest) := (lines[0], lines[1..]);
      SpelledLines(rest, tail);
      SpellStep(lines, tail);
      var more := Spell(rest) + tail;
      assert Writable(line);
      hide Spell, Lines;
      LinesCut(line, more);
      assert [line] + rest == lines;
      Associative([line], rest, Lines(tail));
    }
  }

  lemma {:induction false} WritableStays(lines: seq<string>)
    requires forall i :: 0 <= i < |lines| ==> Writable(lines[i])
    ensures EventLines(lines) == lines
  {
    if |lines| > 1 {
      WritableStays(lines[1..]);
    }
  }

  lemma BlankLineEnds(tail: string)
    ensures Lines("\n" + tail) == [""] + Lines(tail)
  {
    assert "" + "\n" + tail == "\n" + tail;
    LinesCut("", tail);
  }

  /** A group of lines that are not blank, closed by a blank one, is one event. */
  lemma SpelledEvent(lines: seq<string>, tail: string, parse: Parser)
    requires lines != [] && forall i :: 0 <= i < |lines| ==> Writable(lines[i]) && lines[i] != ""
    ensures Inputs(Spell(lines) + "\n" + tail, parse) == Carry(lines, parse) + Inputs(tail, parse)
  {
    hide Lines, Spell, Classify, Groups, EventLines;
    var text := Spell(lines) + "\n" + tail;
    Associative(Spell(lines), "\n", tail);
    BlankLineEnds(tail);
    SpelledLines(lines, "\n" + tail);
    GroupsOver(lines, Lines(tail), []);
    assert [] + lines == lines;
    var rest := Groups(Lines(tail), []);
    assert Groups(Lines(text), []) == [lines] + rest;
    WritableStays(lines);
    FirstGroup(lines, rest, parse);
  }

  lemma FirstGroup(lines: seq<string>, rest: seq<seq<string>>, parse: Parser)
    ensures CarriedByAll([lines] + rest, parse) == Carried(lines, parse) + CarriedByAll(rest, parse)
  {
    assert ([lines] + rest)[1..] == rest;
  }

  lemma {:induction false} DataLinesOfAre(parts: seq<string>)
    requires forall part :: part in parts ==> Writable(part)
    ensures |DataLinesOf(parts)| == |parts|
    ensures forall i :: 0 <= i < |parts| ==> Writable(DataLinesOf(parts)[i]) && DataLinesOf(parts)[i] != ""
  {
    if parts != [] {
      DataLinesOfAre(parts[1..]);
      WritableAfter("data: ", parts[0]);
    }
  }

  lemma WritableAfter(prefix: string, line: string)
    requires Writable(prefix) && prefix != "" && Writable(line)
    ensures Writable(prefix + line) && prefix + line != ""
  {
  }

  lemma MessageLinesAre(m: Message)
    requires Plain(m)
    ensures MessageLines(m) != [] && forall i :: 0 <= i < |MessageLines(m)| ==> Writable(MessageLines(m)[i]) && MessageLines(m)[i] != ""
  {
    PartsJoin(m.data);
    DataLinesOfAre(Parts(m.data));
    if m.event.Some? {
      WritableAfter("event: ", m.event.value);
    }
  }

  lemma PrefixIsTaken(prefix: string, part: string)
    requires part == "" || !White(part[0])
    ensures prefix <= prefix + " " + part && TrimStart((prefix + " " + part)[|prefix|..]) == part
  {
    assert (prefix + " " + part)[|prefix|..] == " " + part;
    TrimStartTakes(" ", part);
  }

  lemma {:induction false} DataIsRead(parts: seq<string>)
    requires forall part :: part in parts ==> part == "" || !White(part[0])
    ensures DataLines(DataLinesOf(parts)) == parts && EventName(DataLinesOf(parts)) == None
  {
    if parts != [] {
      DataIsRead(parts[1..]);
      assert DataLinesOf(parts) == ["data: " + parts[0]] + DataLinesOf(parts[1..]);
      hide DataLinesOf;
      DataLineIsRead(parts[0], DataLinesOf(parts[1..]));
      assert [parts[0]] + parts[1..] == parts;
    }
  }

  lemma DataLineIsRead(part: string, rest: seq<string>)
    requires part == "" || !White(part[0])
    ensures DataLines(["data: " + part] + rest) == [part] + DataLines(rest)
    ensures EventName(["data: " + part] + rest) == EventName(rest)
  {
    var line := "data: " + part;
    assert "data:" + " " == "data: ";
    PrefixIsTaken("data:", part);
    assert line[0] == 'd' && "event:"[0] == 'e';
    assert ([line] + rest)[1..] == rest;
  }

  lemma NameIsRead(name: string, rest: seq<string>)
    requires Trimmed(name)
    ensures EventName(["event: " + name] + rest) == Some(name)
    ensures DataLines(["event: " + name] + rest) == DataLines(rest)
  {
    var lines := ["event: " + name] + rest;
    assert "event:" + " " == "event: ";
    assert lines[0][6..] == " " + (name + "") && lines[1..] == rest;
    TrimFinds(" ", name, "");
    assert lines[0][0] == 'e' && "data:"[0] == 'd';
    assert [] + DataLines(rest) == DataLines(rest);
  }

  lemma MessageIsRead(m: Message)
    requires Plain(m)
    ensures EventName(MessageLines(m)) == m.event && Join(DataLines(MessageLines(m))) == m.data
  {
    PartsJoin(m.data);
    DataIsRead(Parts(m.data));
    var data := DataLinesOf(Parts(m.data));
    if m.event.Some? {
      NameIsRead(m.event.value, data);
    } else {
      assert [] + data == data;
    }
  }

  lemma MessageIsCarried(m: Message, parse: Parser)
    requires Plain(m)
    ensures Carry(MessageLines(m), parse) == Understanding(m, parse)
  {
    hide MessageLines, Plain, EventName, DataLines, Join;
    MessageIsRead(m);
  }

  /** Every stream of messages is read back as those messages, in order: a
      decision by its name, otherwise [DONE] by its data, otherwise whatever the
      JSON parser makes of the data, which may be nothing. */
  lemma {:induction false} WrittenStreamIsRead(messages: seq<Message>, parse: Parser)
    requires forall m :: m in messages ==> Plain(m)
    ensures Inputs(Stream(messages), parse) == Understood(messages, parse)
  {
    if messages != [] {
      var m := messages[0];
      var lines := MessageLines(m);
      MessageLinesAre(m);
      MessageIsCarried(m, parse);
      hide Spell, Inputs, Plain, MessageLines, Carry, Understanding, Writable;
      SpelledEvent(lines, Stream(messages[1..]), parse);
      WrittenStreamIsRead(messages[1..], parse);
    }
  }
}

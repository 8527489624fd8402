/** The lines and events of an SSE text, and how a buffer is cut at its blank lines. */
module SseStream {
  import opened Results
  import opened Sequences
  import opened ChatTranslation

  // What a byte stream means: blocks of lines between blank lines.

  function LineEnd(text: string): (n: nat)
    ensures n <= |text| && (n < |text| ==> text[n] == '\n')
    ensures forall i :: 0 <= i < n ==> text[i] != '\n'
  {
    if text == "" || text[0] == '\n' then 0 else 1 + LineEnd(text[1..])
  }

  /** A final line feed ends the last line and starts no other. */
  function Lines(text: string): seq<string> {
    if text == "" then []
    else
      var n := LineEnd(text);
      if n == |text| then [text] else [text[..n]] + Lines(text[n + 1..])
  }

  /** Maximal runs of non-blank lines; the end of the text ends the last run. */
  function Groups(lines: seq<string>, current: seq<string>): seq<seq<string>>
    decreases |lines|
  {
    if lines == [] then (if current == [] then [] else [current])
    else if lines[0] == "" then (if current == [] then [] else [current]) + Groups(lines[1..], [])
    else Groups(lines[1..], current + [lines[0]])
  }

  type Parser = string -> Option<Chunk>

  function WithoutCarriageReturn(line: string): string {
    if line != "" && line[|line| - 1] == '\r' then line[..|line| - 1] else line
  }

  /** The lines of an event, as str::lines cuts them: a carriage return before a line feed
      belongs to it, one at the very end does not. */
  function EventLines(lines: seq<string>): seq<string> {
    if |lines| <= 1 then lines else [WithoutCarriageReturn(lines[0])] + EventLines(lines[1..])
  }

  /** What an event carries; one that is not understood carries nothing. */
  function Carry(eventLines: seq<string>, parse: Parser): seq<Input> {
    var input := Classify(eventLines, parse);
    if input.OtherInput? then [] else [input]
  }

  function Carried(lines: seq<string>, parse: Parser): seq<Input> {
    Carry(EventLines(lines), parse)
  }

  function CarriedByAll(groups: seq<seq<string>>, parse: Parser): seq<Input> {
    if groups == [] then [] else Carried(groups[0], parse) + CarriedByAll(groups[1..], parse)
  }

  /** What the events of a text carry. */
  function Inputs(text: string, parse: Parser): seq<Input> {
    CarriedByAll(Groups(Lines(text), []), parse)
  }

  // Cutting the text at a blank line.

  predicate EndsLine(a: string) {
    a == "" || a[|a| - 1] == '\n'
  }

  predicate BlankAt(text: string, i: nat) {
    i + 1 < |text| && text[i] == '\n' && text[i + 1] == '\n'
  }

  ghost predicate NoBlank(text: string) {
    forall i :: 0 <= i < |text| ==> !BlankAt(text, i)
  }

  lemma LineEndOf(a: string, b: string)
    requires forall i :: 0 <= i < |a| ==> a[i] != '\n'
    ensures LineEnd(a + "\n" + b) == |a|
  {
    var s := a + "\n" + b;
    assert s[|a|] == '\n';
    assert forall i :: 0 <= i < |a| ==> s[i] == a[i];
  }

  lemma LinesCut(head: string, tail: string)
    requires forall i :: 0 <= i < |head| ==> head[i] != '\n'
    ensures Lines(head + "\n" + tail) == [head] + Lines(tail)
  {
    var s := head + "\n" + tail;
    LineEndOf(head, tail);
    assert s[..|head|] == head && s[|head| + 1..] == tail;
  }

  lemma Regroup(a: string, n: nat, b: string)
    requires n < |a| && a[n] == '\n'
    ensures a == a[..n] + "\n" + a[n + 1..]
    ensures a + "\n" + b == a[..n] + "\n" + (a[n + 1..] + "\n" + b)
    ensures !EndsLine(a) ==> !EndsLine(a[n + 1..])
  {
  }

  lemma {:induction false} LinesConcat(a: string, b: string)
    requires !EndsLine(a)
    ensures Lines(a + "\n" + b) == Lines(a) + Lines(b)
    decreases |a|
  {
    var n := LineEnd(a);
    if n == |a| {
      LinesCut(a, b);
    } else {
      hide *;
      var head, tail := a[..n], a[n + 1..];
      Regroup(a, n, b);
      LinesCut(head, tail);
      LinesCut(head, tail + "\n" + b);
      LinesConcat(tail, b);
      Associative([head], Lines(tail), Lines(b));
    }
  }

  /** Without a blank line inside, only the first line can be empty. */
  lemma {:induction false} OnlyFirstLineEmpty(a: string)
    requires !EndsLine(a) && NoBlank(a)
    ensures Lines(a) != [] && (Lines(a)[0] == "" <==> a[0] == '\n')
    ensures forall i :: 0 < i < |Lines(a)| ==> Lines(a)[i] != ""
    decreases |a|
  {
    var n := LineEnd(a);
    if n < |a| {
      var tail := a[n + 1..];
      assert !BlankAt(a, n) && tail[0] == a[n + 1];
      forall i | 0 <= i < |tail|
        ensures !BlankAt(tail, i)
      {
        assert !BlankAt(a, n + 1 + i);
      }
      OnlyFirstLineEmpty(tail);
    }
  }

  lemma {:induction false} GroupsOver(lines: seq<string>, more: seq<string>, current: seq<string>)
    requires forall i :: 0 <= i < |lines| ==> lines[i] != ""
    ensures Groups(lines + ([""] + more), current)
            == (if current + lines == [] then [] else [current + lines]) + Groups(more, [])
    decreases |lines|
  {
    var all := lines + ([""] + more);
    if lines == [] {
      assert all == [""] + more && all[1..] == more && current + lines == current;
    } else {
      assert all[0] == lines[0] && all[1..] == lines[1..] + ([""] + more);
      GroupsOver(lines[1..], more, current + [lines[0]]);
      assert current + [lines[0]] + lines[1..] == current + lines;
    }
  }

  /** Leading line feeds carry nothing. */
  lemma LeadingLineFeed(text: string, parse: Parser)
    ensures Inputs("\n" + text, parse) == Inputs(text, parse)
  {
    assert "" + "\n" + text == "\n" + text;
    LinesCut("", text);
    assert ([""] + Lines(text))[1..] == Lines(text);
    assert [] + Groups(Lines(text), []) == Groups(Lines(text), []);
  }

  lemma BlankLineSkipped(rest: seq<string>)
    ensures Groups([""] + rest, []) == Groups(rest, [])
  {
    assert ([""] + rest)[1..] == rest;
    assert [] + Groups(rest, []) == Groups(rest, []);
  }

  lemma GroupsOfEvent(lines: seq<string>, more: seq<string>)
    requires lines != [] && lines != [""] && forall i :: 0 < i < |lines| ==> lines[i] != ""
    ensures Groups(lines + ([""] + more), []) == [if lines[0] == "" then lines[1..] else lines] + Groups(more, [])
  {
    hide Groups;
    var block := if lines[0] == "" then lines[1..] else lines;
    GroupsOver(block, more, []);
    assert [] + block == block;
    if lines[0] == "" {
      assert lines + ([""] + more) == [""] + (block + ([""] + more));
      BlankLineSkipped(block + ([""] + more));
    }
  }

  lemma BlankLineFirst(lines: seq<string>, parse: Parser)
    requires lines != []
    ensures Carried([""] + lines, parse) == Carried(lines, parse)
  {
    assert ([""] + lines)[1..] == lines;
    BlankLineIsIgnored(EventLines(lines), parse);
  }

  /** Cutting the first event off at its blank line. */
  lemma FirstEvent(event: string, tail: string, parse: Parser)
    requires event != "" && !EndsLine(event) && NoBlank(event)
    ensures Inputs(event + "\n\n" + tail, parse) == Carried(Lines(event), parse) + Inputs(tail, parse)
  {
    var lines := Lines(event);
    assert event + "\n\n" + tail == event + "\n" + ("\n" + tail) && "" + "\n" + tail == "\n" + tail;
    LinesConcat(event, "\n" + tail);
    LinesCut("", tail);
    OnlyFirstLineEmpty(event);
    NotOnlyBlank(event);
    GroupsOfEvent(lines, Lines(tail));
    if lines[0] == "" {
      assert lines == [""] + lines[1..];
      BlankLineFirst(lines[1..], parse);
    }
    var rest := Groups(Lines(tail), []);
    hide Groups, Lines, Carried;
    assert Inputs(event + "\n\n" + tail, parse) == CarriedByAll([if lines[0] == "" then lines[1..] else lines] + rest, parse);
    assert ([if lines[0] == "" then lines[1..] else lines] + rest)[1..] == rest;
  }

  lemma NotOnlyBlank(a: string)
    requires !EndsLine(a)
    ensures Lines(a) != [""]
  {
    var n := LineEnd(a);
    if n < |a| {
      assert a[n + 1..] != "";
    }
  }

  /** The end-of-stream flush adds nothing but the missing terminator. */
  lemma FlushIsSilent(text: string, parse: Parser)
    ensures Inputs(text + "\n\n", parse) == Inputs(text, parse)
  {
    LinesWithTerminator(text);
    var lines := Lines(text);
    if |Lines(text + "\n\n")| == |lines| + 1 {
      BlankAtEnd(lines, []);
    } else {
      BlankAtEnd(lines, []);
      BlankAtEnd(lines + [""], []);
      assert lines + [""] + [""] == lines + ["", ""];
    }
  }

  lemma OneLine(text: string)
    requires LineEnd(text) == |text|
    ensures Lines(text) == if text == "" then [] else [text]
  {
  }

  lemma OneLineTerminated(text: string)
    requires forall i :: 0 <= i < |text| ==> text[i] != '\n'
    ensures Lines(text + "\n\n") == [text] + [""]
  {
    hide Lines;
    assert text + "\n\n" == text + "\n" + "\n";
    LinesCut(text, "\n");
    NewlineAlone();
  }

  lemma NewlineAlone()
    ensures Lines("\n") == [""]
  {
    hide LineEnd;
    LinesCut("", "");
    assert "" + "\n" + "" == "\n";
  }

  lemma {:induction false} LinesWithTerminator(text: string)
    ensures Lines(text + "\n\n") == Lines(text) + [""] || Lines(text + "\n\n") == Lines(text) + ["", ""]
    decreases |text|
  {
    hide Lines;
    var n := LineEnd(text);
    if n == |text| {
      OneLine(text);
      OneLineTerminated(text);
    } else {
      var head, tail := text[..n], text[n + 1..];
      assert text == head + "\n" + tail && text + "\n\n" == head + "\n" + (tail + "\n\n");
      LinesCut(head, tail);
      LinesCut(head, tail + "\n\n");
      LinesWithTerminator(tail);
    }
  }

  lemma {:induction false} BlankAtEnd(lines: seq<string>, current: seq<string>)
    ensures Groups(lines + [""], current) == Groups(lines, current)
    decreases |lines|
  {
    var all := lines + [""];
    if lines == [] {
      assert all == [""] && all[1..] == [];
      assert [current] + [] == [current];
    } else {
      assert all[0] == lines[0] && all[1..] == lines[1..] + [""];
      BlankAtEnd(lines[1..], if lines[0] == "" then [] else current + [lines[0]]);
    }
  }

  // The buffer.

  function FindEventEnd(buffer: string): (r: Option<nat>)
    ensures r.None? <==> NoBlank(buffer)
    ensures r.Some? ==> BlankAt(buffer, r.value) && forall i :: 0 <= i < r.value ==> !BlankAt(buffer, i)
  {
    FindEventEndFrom(buffer, 0)
  }

  function FindEventEndFrom(buffer: string, i: nat): (r: Option<nat>)
    requires i <= |buffer| && forall k :: 0 <= k < i ==> !BlankAt(buffer, k)
    ensures r.None? <==> NoBlank(buffer)
    ensures r.Some? ==> BlankAt(buffer, r.value) && forall k :: 0 <= k < r.value ==> !BlankAt(buffer, k)
    decreases |buffer| - i
  {
    if i == |buffer| then None
    else if BlankAt(buffer, i) then Some(i)
    else FindEventEndFrom(buffer, i + 1)
  }

  function Concat(chunks: seq<string>): string {
    if chunks == [] then "" else chunks[0] + Concat(chunks[1..])
  }

  function EndsBlank(s: string): bool {
    |s| >= 2 && BlankAt(s, |s| - 2)
  }

  /** The first event of a text, cut at its first blank line. */
  lemma CutAtFirstBlank(buffer: string, end: nat, rest: string, parse: Parser)
    requires BlankAt(buffer, end) && forall i :: 0 <= i < end ==> !BlankAt(buffer, i)
    requires parse("") == None
    ensures var event := buffer[..end];
            Carried(Lines(event), parse) + Inputs(buffer[end + 2..] + rest, parse) == Inputs(buffer + rest, parse)
  {
    NothingCarried(parse);
    hide Inputs, Carried, Lines;
    var event, tail := buffer[..end], buffer[end + 2..] + rest;
    assert buffer + rest == event + "\n\n" + tail;
    if event == "" {
      assert buffer + rest == "\n" + ("\n" + tail);
      LeadingLineFeed("\n" + tail, parse);
      LeadingLineFeed(tail, parse);
      assert [] + Inputs(tail, parse) == Inputs(tail, parse);
    } else {
      assert !BlankAt(buffer, end - 1);
      forall i | 0 <= i < |event|
        ensures !BlankAt(event, i)
      {
        assert !BlankAt(buffer, i);
      }
      FirstEvent(event, tail, parse);
    }
  }

  /** An event without lines carries nothing. */
  lemma NothingCarried(parse: Parser)
    requires parse("") == None
    ensures Carried(Lines(""), parse) == []
  {
  }

  // The first line, and what is in front of it.

  /** The lines of a text as its first line and the others. */
  function OtherLines(u: string): seq<string> {
    if LineEnd(u) == |u| then [] else Lines(u[LineEnd(u) + 1..])
  }

  lemma FirstLine(u: string)
    ensures Lines(u) == if u == "" then [] else [u[..LineEnd(u)]] + OtherLines(u)
  {
    assert u[..|u|] == u;
  }

  lemma FirstLineGrows(u: string, c: char)
    requires c != '\n'
    ensures Lines([c] + u) == [[c] + u[..LineEnd(u)]] + OtherLines(u)
  {
    hide Lines;
    var n := LineEnd(u);
    if n == |u| {
      assert u[..n] == u;
      NoLineEnd([c] + u);
      OneLine([c] + u);
    } else {
      assert [c] + u == ([c] + u[..n]) + "\n" + u[n + 1..];
      LinesCut([c] + u[..n], u[n + 1..]);
    }
  }

  lemma NoLineEnd(s: string)
    requires forall i :: 0 <= i < |s| ==> s[i] != '\n'
    ensures LineEnd(s) == |s|
  {
  }
}

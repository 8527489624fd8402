/** What a carriage return does to the line behind it: the translator drops those behind
    an event that have arrived by then, and reads the others as part of the line. */
module CarriageReturns {
  import opened Results
  import opened Whitespace
  import opened ChatTranslation
  import opened SseStream

  // One line of an event.

  predicate NamesDecision(name: Option<string>) {
    name == Some("urouter.decision")
  }

  /** Some parser reads an event differently with line x in front: x decides the event's
      name, or adds to its data. */
  predicate Matters(x: string, more: seq<string>) {
    ("event:" <= x && NamesDecision(Some(Trim(x[6..]))) != NamesDecision(EventName(more)))
    || ("data:" <= x && (TrimStart(x[5..]) != "" || DataLines(more) != []))
  }

  /** A chunk with one piece of text. */
  const Probe := Chunk(None, Some(Delta(Some("x"), None, [])))

  /** A parser that knows one text. */
  function Only(text: string): Parser {
    s => if s == text && s != "" then Some(Probe) else None
  }

  lemma InFront(x: string, more: seq<string>)
    ensures EventName([x] + more) == if "event:" <= x then Some(Trim(x[6..])) else EventName(more)
    ensures DataLines([x] + more) == (if "data:" <= x then [TrimStart(x[5..])] else []) + DataLines(more)
  {
    assert ([x] + more)[1..] == more;
  }

  lemma JoinLonger(d: string, parts: seq<string>)
    ensures Join([d] + parts) == if parts == [] then d else d + "\n" + Join(parts)
  {
    assert ([d] + parts)[1..] == parts;
  }

  lemma SameCarry(x: string, more: seq<string>, parse: Parser)
    requires !Matters(x, more)
    ensures Carry([x] + more, parse) == Carry(more, parse)
  {
    hide Trim, TrimStart, EventName, DataLines;
    InFront(x, more);
    if "data:" <= x {
      assert x[0] == 'd';
      JoinLonger("", []);
    } else {
      assert [] + DataLines(more) == DataLines(more);
    }
  }

  lemma DifferentCarry(x: string, more: seq<string>)
    requires Matters(x, more)
    ensures var parse := Only(Join(DataLines([x] + more)));
            parse("") == None && Carry([x] + more, parse) != Carry(more, parse)
  {
    hide Trim, TrimStart, EventName, DataLines;
    InFront(x, more);
    if "data:" <= x {
      assert x[0] == 'd';
      JoinLonger(TrimStart(x[5..]), DataLines(more));
      assert Join([]) == "";
    }
  }

  /** Exactly the lines that matter make a difference. */
  lemma WhenLineMatters(x: string, more: seq<string>)
    ensures (forall parse: Parser | parse("") == None :: Carry([x] + more, parse) == Carry(more, parse)) <==> !Matters(x, more)
  {
    hide Matters, Carry, Join, DataLines;
    if Matters(x, more) {
      DifferentCarry(x, more);
    } else {
      forall parse: Parser | parse("") == None
        ensures Carry([x] + more, parse) == Carry(more, parse)
      {
        SameCarry(x, more, parse);
      }
    }
  }

  // The first event of a text.

  /** The lines up to the first blank one. */
  function FirstGroup(lines: seq<string>): (group: seq<string>)
    ensures |group| <= |lines|
  {
    if lines == [] || lines[0] == "" then [] else [lines[0]] + FirstGroup(lines[1..])
  }

  lemma {:induction false} GroupsStart(lines: seq<string>, current: seq<string>)
    ensures var group := FirstGroup(lines);
            Groups(lines, current)
            == (if current + group == [] then [] else [current + group]) + Groups(lines[|group|..], [])
    decreases |lines|
  {
    if lines == [] || lines[0] == "" {
      assert current + [] == current && lines[0..] == lines;
      assert lines != [] ==> [] + Groups(lines[1..], []) == Groups(lines, []);
    } else {
      var rest := FirstGroup(lines[1..]);
      GroupsStart(lines[1..], current + [lines[0]]);
      assert current + ([lines[0]] + rest) == current + [lines[0]] + rest;
      assert lines[1..][|rest|..] == lines[|rest| + 1..];
    }
  }

  /** What the groups behind the first carry. */
  function CarriedLater(others: seq<string>, parse: Parser): seq<Input> {
    CarriedByAll(Groups(others[|FirstGroup(others)|..], []), parse)
  }

  /** A line as part of its event: the last one keeps its carriage return. */
  function AsEventLine(y: string, group: seq<string>): string {
    if group == [] then y else WithoutCarriageReturn(y)
  }

  lemma OneGroup(group: seq<string>, more: seq<seq<string>>, parse: Parser)
    requires parse("") == None
    ensures CarriedByAll((if group == [] then [] else [group]) + more, parse) == Carried(group, parse) + CarriedByAll(more, parse)
  {
    if group == [] {
      assert [] + more == more && Carried([], parse) == [];
      assert [] + CarriedByAll(more, parse) == CarriedByAll(more, parse);
    } else {
      hide Carried;
      assert ([group] + more)[1..] == more;
    }
  }

  lemma CarriedWithout(others: seq<string>, parse: Parser)
    requires parse("") == None
    ensures CarriedByAll(Groups(others, []), parse)
            == Carry(EventLines(FirstGroup(others)), parse) + CarriedLater(others, parse)
  {
    hide Groups, Carry, CarriedByAll, EventLines;
    var group := FirstGroup(others);
    GroupsStart(others, []);
    assert [] + group == group;
    OneGroup(group, Groups(others[|group|..], []), parse);
  }

  lemma CarriedWith(y: string, others: seq<string>, parse: Parser)
    requires parse("") == None && y != ""
    ensures var group := FirstGroup(others);
            CarriedByAll(Groups([y] + others, []), parse)
            == Carry([AsEventLine(y, group)] + EventLines(group), parse) + CarriedLater(others, parse)
  {
    hide Groups, Carry, CarriedByAll;
    var lines, group := [y] + others, FirstGroup(others);
    GroupsStart(lines, []);
    assert lines[1..] == others && lines[|group| + 1..] == others[|group|..];
    assert FirstGroup(lines) == [y] + group && [] + ([y] + group) == [y] + group;
    assert ([y] + group)[1..] == group;
    OneGroup([y] + group, Groups(others[|group|..], []), parse);
  }

  /** A carriage return in front of u hides a line that matters. */
  predicate Hides(u: string) {
    var lines := EventLines(FirstGroup(Lines(u)));
    lines != [] && Matters(lines[0], lines[1..])
  }

  lemma HidesFirstLine(u: string)
    ensures var x, group := u[..LineEnd(u)], FirstGroup(OtherLines(u));
            Hides(u) <==> x != "" && Matters(AsEventLine(x, group), EventLines(group))
  {
    hide Matters, LineEnd, OtherLines;
    var x, group := u[..LineEnd(u)], FirstGroup(OtherLines(u));
    FirstLine(u);
    if x != "" {
      var lines := [x] + OtherLines(u);
      assert lines[1..] == OtherLines(u) && FirstGroup(lines) == [x] + group && ([x] + group)[1..] == group;
      var all := [AsEventLine(x, group)] + EventLines(group);
      assert EventLines([x] + group) == all && all[1..] == EventLines(group);
    }
  }

  lemma CarriageLineIsSilent(x: string, group: seq<string>, more: seq<string>)
    ensures !Matters(AsEventLine(['\r'] + x, group), more)
  {
    assert (['\r'] + x)[0] == '\r';
  }

  lemma NoOtherLines()
    ensures OtherLines("") == [] && LineEnd("") == 0
  {
  }

  /** What a text carries, with a carriage return in front and without. */
  lemma InFrontOfText(u: string, parse: Parser)
    requires parse("") == None
    ensures var x, group := u[..LineEnd(u)], FirstGroup(OtherLines(u));
            var more := EventLines(group);
            var later := CarriedLater(OtherLines(u), parse);
            Inputs("\r" + u, parse) == Carry(more, parse) + later
            && Inputs(u, parse) == Carry(if x == "" then more else [AsEventLine(x, group)] + more, parse) + later
  {
    hide Groups, CarriedByAll, CarriedLater, EventLines, FirstGroup, Carry, LineEnd, OtherLines, Lines, AsEventLine;
    var x, others := u[..LineEnd(u)], OtherLines(u);
    FirstLine(u);
    FirstLineGrows(u, '\r');
    assert ['\r'] + u == "\r" + u;
    CarriedWith(['\r'] + x, others, parse);
    CarriageLineIsSilent(x, FirstGroup(others), EventLines(FirstGroup(others)));
    SameCarry(AsEventLine(['\r'] + x, FirstGroup(others)), EventLines(FirstGroup(others)), parse);
    if x == "" {
      CarriedWithout(others, parse);
      if u == "" {
        NoOtherLines();
      } else {
        BlankLineSkipped(others);
      }
    } else {
      CarriedWith(x, others, parse);
    }
  }

  lemma LeadingCarriageReturn(u: string, parse: Parser)
    requires !Hides(u) && parse("") == None
    ensures Inputs("\r" + u, parse) == Inputs(u, parse)
  {
    hide Inputs, Hides, Matters, Carry, CarriedLater, EventLines, FirstGroup, LineEnd, OtherLines, AsEventLine;
    var x, group := u[..LineEnd(u)], FirstGroup(OtherLines(u));
    HidesFirstLine(u);
    InFrontOfText(u, parse);
    if x != "" {
      SameCarry(AsEventLine(x, group), EventLines(group), parse);
    }
  }

  /** A parser that sees what is hidden. */
  function Witness(u: string): Parser {
    Only(Join(DataLines(EventLines(FirstGroup(Lines(u))))))
  }

  lemma HidingShows(u: string)
    requires Hides(u)
    ensures Witness(u)("") == None && Inputs("\r" + u, Witness(u)) != Inputs(u, Witness(u))
  {
    hide Inputs, Matters, Carry, CarriedLater, LineEnd, OtherLines, Only, Join, DataLines;
    var x, group := u[..LineEnd(u)], FirstGroup(OtherLines(u));
    HidesFirstLine(u);
    var more := EventLines(group);
    FirstLine(u);
    assert ([x] + OtherLines(u))[1..] == OtherLines(u) && ([x] + group)[1..] == group;
    assert EventLines(FirstGroup(Lines(u))) == [AsEventLine(x, group)] + more;
    DifferentCarry(AsEventLine(x, group), more);
    InFrontOfText(u, Witness(u));
    Cancel(Carry(more, Witness(u)), Carry([AsEventLine(x, group)] + more, Witness(u)), CarriedLater(OtherLines(u), Witness(u)));
  }

  lemma Cancel<T>(a: seq<T>, b: seq<T>, later: seq<T>)
    ensures a + later == b + later ==> a == b
  {
    if a + later == b + later {
      assert a == (a + later)[..|a|] && b == (b + later)[..|b|];
    }
  }

  /** A carriage return in front of a text carries nothing, whatever the parser, exactly
      when it hides no line that matters. */
  lemma WhenCarriageReturnHides(u: string)
    ensures (forall parse: Parser | parse("") == None :: Inputs("\r" + u, parse) == Inputs(u, parse)) <==> !Hides(u)
  {
    hide Inputs, Hides, Witness;
    if Hides(u) {
      HidingShows(u);
    } else {
      forall parse: Parser | parse("") == None
        ensures Inputs("\r" + u, parse) == Inputs(u, parse)
      {
        LeadingCarriageReturn(u, parse);
      }
    }
  }

  lemma NewlineHidesNothing(u: string)
    requires u == "" || Newline(u[0])
    ensures !Hides(u)
  {
    hide Matters;
    HidesFirstLine(u);
    var x := u[..LineEnd(u)];
    if x != "" {
      assert ['\r'] + x[1..] == x;
      CarriageLineIsSilent(x[1..], FirstGroup(OtherLines(u)), EventLines(FirstGroup(OtherLines(u))));
    }
  }

  // Draining the line ends behind an event, some of which may not have arrived yet.

  predicate Newline(c: char) {
    c == '\n' || c == '\r'
  }

  /** The line ends at the start of a text. */
  function LineEndRun(s: string): (n: nat)
    ensures n <= |s| && forall i :: 0 <= i < n ==> Newline(s[i])
    ensures n < |s| ==> !Newline(s[n])
  {
    if s == "" || !Newline(s[0]) then 0 else 1 + LineEndRun(s[1..])
  }

  function StripNewlines(s: string): (r: string)
    ensures |r| <= |s| && (s != "" && Newline(s[0]) ==> |r| < |s|)
  {
    s[LineEndRun(s)..]
  }

  ghost predicate NewlinesIn(text: string, j: nat, i: nat)
    requires i < |text|
  {
    forall k :: j <= k <= i ==> Newline(text[k])
  }

  /** Position i has a carriage return that may be drained with the line ends from j on. */
  ghost predicate DrainableAt(text: string, j: nat, i: nat) {
    BlankAt(text, j) && j + 2 <= i < |text| && text[i] == '\r' && NewlinesIn(text, j, i)
  }

  /** No carriage return that may be drained hides a line that matters. */
  ghost predicate NothingHidden(text: string) {
    forall j: nat, i: nat :: DrainableAt(text, j, i) ==> !Hides(text[i + 1..])
  }

  /** The first n line ends of a drained run carry nothing. */
  lemma {:induction false} RunIsSilent(u: string, n: nat, parse: Parser)
    requires parse("") == None && NothingHidden(u) && BlankAt(u, 0)
    requires n <= |u| && forall i :: 0 <= i < n ==> Newline(u[i])
    ensures Inputs(u[n..], parse) == Inputs(u, parse)
  {
    hide Inputs, Hides;
    if n == 0 {
      assert u[0..] == u;
    } else {
      RunIsSilent(u, n - 1, parse);
      assert u[n - 1..] == [u[n - 1]] + u[n..];
      if u[n - 1] == '\n' {
        assert [u[n - 1]] == "\n";
        LeadingLineFeed(u[n..], parse);
      } else {
        assert [u[n - 1]] == "\r";
        assert DrainableAt(u, 0, n - 1);
        LeadingCarriageReturn(u[n..], parse);
      }
    }
  }

  lemma SuffixHidesNothing(text: string, o: nat)
    requires NothingHidden(text) && o <= |text|
    ensures NothingHidden(text[o..])
  {
    hide Hides, Newline;
    var s := text[o..];
    forall j: nat, i: nat | DrainableAt(s, j, i)
      ensures !Hides(s[i + 1..])
    {
      assert BlankAt(text, o + j) && text[o + i] == s[i];
      forall k | o + j <= k <= o + i
        ensures Newline(text[k])
      {
        assert text[k] == s[k - o];
      }
      assert DrainableAt(text, o + j, o + i);
      assert s[i + 1..] == text[o + i + 1..];
    }
  }

  /** Draining a run that the buffer holds so far carries nothing away, unless it frees a
      hidden line. */
  lemma StrippingIsSilent(s: string, rest: string, parse: Parser)
    requires parse("") == None && BlankAt(s, 0) && NothingHidden(s + rest)
    ensures Inputs(StripNewlines(s) + rest, parse) == Inputs(s + rest, parse)
  {
    var n := LineEndRun(s);
    assert Newline(s[0]) && Newline(s[1]);
    assert (s + rest)[n..] == s[n..] + rest;
    assert BlankAt(s + rest, 0);
    RunIsSilent(s + rest, n, parse);
  }

  lemma StrippedEnds(s: string)
    requires EndsBlank(s)
    ensures StripNewlines(s) == "" || EndsBlank(StripNewlines(s))
  {
    var n, r := LineEndRun(s), StripNewlines(s);
    if n < |s| {
      assert s[|s| - 1] == '\n' && s[|s| - 2] == '\n';
      assert n < |s| - 2;
      assert r[|r| - 1] == s[|s| - 1] && r[|r| - 2] == s[|s| - 2];
    }
  }

  lemma {:induction false} FirstGroupEnds(lines: seq<string>, more: seq<string>)
    requires more != [] && more[0] == ""
    ensures FirstGroup(lines + more) == FirstGroup(lines)
    decreases |lines|
  {
    if lines == [] {
      assert lines + more == more;
    } else {
      assert (lines + more)[1..] == lines[1..] + more;
      FirstGroupEnds(lines[1..], more);
    }
  }

  /** The terminator appended at the end of the stream hides nothing. */
  lemma FlushHidesNothing(buffer: string)
    requires NothingHidden(buffer)
    ensures NothingHidden(buffer + "\n\n")
  {
    hide Newline, Hides;
    var s := buffer + "\n\n";
    forall j: nat, i: nat | DrainableAt(s, j, i)
      ensures !Hides(s[i + 1..])
    {
      assert i < |buffer| && BlankAt(buffer, j);
      forall k | j <= k <= i
        ensures Newline(buffer[k])
      {
        assert s[k] == buffer[k];
      }
      assert DrainableAt(buffer, j, i);
      assert s[i + 1..] == buffer[i + 1..] + "\n\n";
      FlushHides(buffer[i + 1..]);
    }
  }

  lemma FlushHides(u: string)
    ensures Hides(u + "\n\n") <==> Hides(u)
  {
    hide Matters, Lines;
    LinesWithTerminator(u);
    FirstGroupEnds(Lines(u), [""]);
    FirstGroupEnds(Lines(u), ["", ""]);
  }

  lemma OneLineHidden(x: string, parse: Parser)
    requires x != "" && parse("") == None && forall i :: 0 <= i < |x| ==> x[i] != '\n'
    ensures Inputs("\r" + x, parse) == [] && Inputs(x, parse) == Carry([x], parse)
  {
    NoLineEnd(x);
    assert OtherLines(x) == [] && x[..|x|] == x;
    hide Carry, OtherLines, Inputs;
    InFrontOfText(x, parse);
    assert EventLines([]) == [] && CarriedLater([], parse) == [];
    CarriesNothing(parse);
    assert [x] + [] == [x] && Carry([x], parse) + [] == Carry([x], parse);
  }

  /** An example: drained, this field is read; not drained, it is not. */
  lemma CarriageReturnHidesField(field: string, parse: Parser)
    requires field == "data:[DONE]" && parse("") == None
    ensures Inputs("\r" + field, parse) == [] && Inputs(field, parse) == [DoneInput]
  {
    hide Inputs, Carry;
    OneLineHidden(field, parse);
    DoneLine(field, parse);
  }

  lemma CarriesNothing(parse: Parser)
    requires parse("") == None
    ensures Carry([], parse) == []
  {
  }

  lemma DoneLine(field: string, parse: Parser)
    requires field == "data:[DONE]"
    ensures Carry([field], parse) == [DoneInput]
  {
    var data := field[5..];
    assert data == "[DONE]" && data[0] == '[' && field[0] == 'd';
    assert TrimStart(data) == data;
    InFront(field, []);
    hide DataLines, EventName;
    assert [field] + [] == [field] && [data] + [] == [data] && Join([data]) == data;
    NoLines();
  }

  lemma NoLines()
    ensures EventName([]) == None && DataLines([]) == []
  {
  }
}

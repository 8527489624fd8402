/** Endpoint templates (urouter-ai/src/endpoint.rs): the texts with {identifier} holes
    and the compiler that accepts them. */
module EndpointTemplates {
  import opened Results

  /** A template as literals and holes that alternate, which makes it unique. */
  datatype Template = End(tail: string) | Segment(literal: string, name: string, rest: Template)

  datatype TemplateError =
    | UnclosedVariable
    | EmptyVariable
    | InvalidVariable(name: string)
    | MissingVariable(name: string)
    | InvalidUrl
    | UnsupportedScheme

  predicate BraceFree(s: string) {
    '{' !in s && '}' !in s
  }

  predicate IdentifierChar(c: char) {
    'a' <= c <= 'z' || 'A' <= c <= 'Z' || '0' <= c <= '9' || c == '_'
  }

  predicate Identifier(s: string) {
    s != "" && forall i :: 0 <= i < |s| ==> IdentifierChar(s[i])
  }

  predicate WellFormed(t: Template) {
    match t
    case End(tail) => BraceFree(tail)
    case Segment(literal, name, rest) => BraceFree(literal) && Identifier(name) && WellFormed(rest)
  }

  function Hole(name: string): string {
    "{" + name + "}"
  }

  function Render(t: Template): string {
    match t
    case End(tail) => tail
    case Segment(literal, name, rest) => literal + (Hole(name) + Render(rest))
  }

  function Names(t: Template): set<string> {
    match t
    case End(_) => {}
    case Segment(_, name, rest) => {name} + Names(rest)
  }

  ghost predicate IsTemplate(t: Template, text: string) {
    WellFormed(t) && Render(t) == text
  }

  /** Every hole filled from `values` at once; names outside `filled` stay holes. */
  function Filled(t: Template, filled: set<string>, values: map<string, string>): string {
    match t
    case End(tail) => tail
    case Segment(literal, name, rest) =>
      literal + ((if name in filled && name in values then values[name] else Hole(name)) + Filled(rest, filled, values))
  }

  /** The position of the first c, or the length. */
  function Find(s: string, c: char): (i: nat)
    ensures i <= |s| && c !in s[..i] && (i < |s| ==> s[i] == c)
    ensures i == |s| <==> c !in s
  {
    if s == "" || s[0] == c then 0
    else
      assert forall k :: 0 < k < |s| ==> s[k] == s[1..][k - 1];
      var i := 1 + Find(s[1..], c);
      assert s[..i] == [s[0]] + s[1..][..i - 1];
      i
  }

  /** The start of a text: no brace at all, a fault, or a literal and a hole. */
  datatype Head = Plain | Fault(error: TemplateError) | Open(literal: string, name: string, tail: string)

  function ParseHead(s: string): (h: Head)
    ensures h.Open? ==> |h.tail| < |s|
  {
    var start := Find(s, '{');
    if '}' in s[..start] then Fault(UnclosedVariable)
    else if start == |s| then Plain
    else ParseHole(s[..start], s[start + 1..])
  }

  function ParseHole(literal: string, after: string): (h: Head)
    ensures !h.Plain? && (h.Open? ==> |h.tail| < |after|)
  {
    var end := Find(after, '}');
    if end == |after| then Fault(UnclosedVariable)
    else if after[..end] == "" then Fault(EmptyVariable)
    else if !Identifier(after[..end]) then Fault(InvalidVariable(after[..end]))
    else Open(literal, after[..end], after[end + 1..])
  }

  function Parse(s: string): Result<Template, TemplateError>
    decreases |s|
  {
    match ParseHead(s)
    case Plain => Ok(End(s))
    case Fault(error) => Err(error)
    case Open(literal, name, tail) =>
      var rest := Parse(tail);
      if rest.Ok? then Ok(Segment(literal, name, rest.value)) else Err(rest.error)
  }

  lemma IdentifierIsBraceFree(name: string)
    requires Identifier(name)
    ensures name != "" && BraceFree(name)
  {
    assert forall i :: 0 <= i < |name| ==> IdentifierChar(name[i]);
  }

  lemma {:induction false} FindInConcat(a: string, c: char, b: string)
    requires c !in a
    ensures Find(a + ([c] + b), c) == |a|
  {
    var s := a + ([c] + b);
    if a != "" {
      assert s[0] == a[0] && a[0] in a && s[1..] == a[1..] + ([c] + b);
      FindInConcat(a[1..], c, b);
    }
  }

  lemma HoleOf(literal: string, name: string, tail: string)
    requires Identifier(name)
    ensures ParseHole(literal, name + ("}" + tail)) == Open(literal, name, tail)
  {
    hide Identifier;
    var after := name + ("}" + tail);
    assert "}" == ['}'];
    IdentifierIsBraceFree(name);
    FindInConcat(name, '}', tail);
    assert after[..|name|] == name && after[|name| + 1..] == tail;
  }

  lemma HeadOf(literal: string, after: string)
    requires BraceFree(literal)
    ensures ParseHead(literal + ("{" + after)) == ParseHole(literal, after)
  {
    hide ParseHole;
    var s := literal + ("{" + after);
    assert "{" == ['{'];
    FindInConcat(literal, '{', after);
    assert s[..|literal|] == literal && s[|literal| + 1..] == after;
  }

  lemma Regroup(literal: string, name: string, tail: string)
    ensures literal + (Hole(name) + tail) == literal + ("{" + (name + ("}" + tail)))
  {
    assert Hole(name) + tail == "{" + (name + ("}" + tail));
  }

  lemma HoleSplits(literal: string, after: string)
    ensures var h := ParseHole(literal, after);
            h.Open? ==> h.literal == literal && Identifier(h.name) && after == h.name + ("}" + h.tail)
  {
    hide Identifier;
    var end := Find(after, '}');
    if end < |after| {
      assert after == after[..end] + ("}" + after[end + 1..]);
    }
  }

  lemma HeadSplits(s: string)
    ensures var h := ParseHead(s);
            (h.Plain? ==> BraceFree(s))
            && (h.Open? ==> BraceFree(h.literal) && Identifier(h.name) && s == h.literal + (Hole(h.name) + h.tail))
  {
    hide Identifier, ParseHole;
    var start := Find(s, '{');
    if start < |s| {
      var after := s[start + 1..];
      HoleSplits(s[..start], after);
      assert s == s[..start] + ("{" + after);
      var h := ParseHole(s[..start], after);
      if h.Open? {
        Regroup(s[..start], h.name, h.tail);
      }
    } else {
      assert s[..start] == s;
    }
  }

  lemma {:induction false} ParsedPrints(s: string)
    requires Parse(s).Ok?
    ensures IsTemplate(Parse(s).value, s)
    decreases |s|
  {
    hide ParseHead;
    HeadSplits(s);
    var h := ParseHead(s);
    if h.Open? {
      ParsedPrints(h.tail);
    }
  }

  lemma {:induction false} PrintedParses(t: Template)
    requires WellFormed(t)
    ensures Parse(Render(t)) == Ok(t)
  {
    hide ParseHead, ParseHole, Identifier;
    match t {
      case End(tail) =>
        PlainHead(tail);
      case Segment(literal, name, rest) =>
        PrintedParses(rest);
        Regroup(literal, name, Render(rest));
        HeadOf(literal, name + ("}" + Render(rest)));
        HoleOf(literal, name, Render(rest));
    }
  }

  /** Of the texts that are one hole, those are accepted whose name is made of ASCII letters,
      digits and underscores, and of at least one. */
  lemma WhichNames(name: string)
    requires '{' !in name && '}' !in name
    ensures Parse("{" + name + "}").Ok? <==>
            name != ""
            && forall i :: 0 <= i < |name| ==>
                 'a' <= name[i] <= 'z' || 'A' <= name[i] <= 'Z' || '0' <= name[i] <= '9' || name[i] == '_'
  {
    var s := "{" + name + "}";
    assert s == "" + ("{" + (name + ("}" + "")));
    HeadOf("", name + ("}" + ""));
    if Identifier(name) {
      HoleOf("", name, "");
      PlainHead("");
      assert Parse("") == Ok(End(""));
    } else {
      FindInConcat(name, '}', "");
      assert "}" == ['}'] && (name + ("}" + ""))[..|name|] == name;
    }
  }

  lemma PlainHead(s: string)
    requires BraceFree(s)
    ensures ParseHead(s) == Plain
  {
    assert s[..|s|] == s;
  }

  /** What is wrong with a text, at its start or after a brace-free literal. */
  ghost predicate FirstFault(s: string, error: TemplateError) {
    match error
    case UnclosedVariable =>
      (exists i :: 0 <= i < |s| && s[i] == '}' && '{' !in s[..i])
      || (exists i :: 0 <= i < |s| && s[i] == '{' && BraceFree(s[..i]) && '}' !in s[i..])
    case EmptyVariable => HasHole(s, "")
    case InvalidVariable(name) => name != "" && !Identifier(name) && '}' !in name && HasHole(s, name)
    case _ => false
  }

  ghost predicate HasHole(s: string, name: string) {
    exists i :: 0 <= i <= |s| && BraceFree(s[..i]) && Hole(name) <= s[i..]
  }

  ghost predicate FaultAfter(t: Template, s: string, error: TemplateError) {
    WellFormed(t) && Render(t) <= s && FirstFault(s[|Render(t)|..], error)
  }

  lemma FaultAtOnce(s: string, error: TemplateError)
    requires FirstFault(s, error)
    ensures FaultAfter(End(""), s, error)
  {
    assert s[0..] == s;
  }

  lemma StrayBrace(s: string)
    requires '}' in s[..Find(s, '{')]
    ensures FirstFault(s, UnclosedVariable)
  {
    var start := Find(s, '{');
    var i :| 0 <= i < start && s[..start][i] == '}';
    assert s[i] == '}' && s[..i] <= s[..start];
  }

  lemma OpenIsFault(literal: string, after: string)
    requires BraceFree(literal) && '}' !in after
    ensures FirstFault(literal + ("{" + after), UnclosedVariable)
  {
    var s := literal + ("{" + after);
    var i := |literal|;
    assert s[..i] == literal && s[i..] == "{" + after && s[i] == '{';
  }

  lemma NameIsFault(literal: string, name: string, tail: string)
    requires BraceFree(literal) && !Identifier(name) && '}' !in name
    ensures FirstFault(literal + (Hole(name) + tail), if name == "" then EmptyVariable else InvalidVariable(name))
  {
    hide Identifier, Hole;
    var s := literal + (Hole(name) + tail);
    assert s[..|literal|] == literal && s[|literal|..] == Hole(name) + tail;
    assert HasHole(s, name);
  }

  lemma HoleFault(literal: string, after: string)
    requires BraceFree(literal) && ParseHole(literal, after).Fault?
    ensures FirstFault(literal + ("{" + after), ParseHole(literal, after).error)
  {
    hide FirstFault, Hole;
    var end := Find(after, '}');
    if end < |after| {
      NameIsFault(literal, after[..end], after[end + 1..]);
      Regroup(literal, after[..end], after[end + 1..]);
      assert after == after[..end] + ("}" + after[end + 1..]);
    } else {
      OpenIsFault(literal, after);
    }
  }

  lemma HeadFault(s: string)
    requires ParseHead(s).Fault?
    ensures FirstFault(s, ParseHead(s).error)
  {
    hide Identifier, ParseHole, FirstFault;
    var start := Find(s, '{');
    if '}' in s[..start] {
      StrayBrace(s);
    } else if start < |s| {
      HoleFault(s[..start], s[start + 1..]);
      assert s == s[..start] + ("{" + s[start + 1..]);
    }
  }

  lemma FaultLater(literal: string, name: string, tail: string, rest: Template, error: TemplateError)
    requires BraceFree(literal) && Identifier(name) && FaultAfter(rest, tail, error)
    ensures FaultAfter(Segment(literal, name, rest), literal + (Hole(name) + tail), error)
  {
    var s := literal + (Hole(name) + tail);
    var before := literal + (Hole(name) + Render(rest));
    assert tail == Render(rest) + tail[|Render(rest)|..];
    assert s == before + tail[|Render(rest)|..];
    assert s[|before|..] == tail[|Render(rest)|..];
  }

  /** A rejected text is well formed up to the fault that is reported. */
  lemma {:induction false} FaultFound(s: string) returns (t: Template)
    requires Parse(s).Err?
    ensures FaultAfter(t, s, Parse(s).error)
    decreases |s|
  {
    hide FirstFault, FaultAfter, Hole, Render, Identifier, ParseHead;
    t := End("");
    var h := ParseHead(s);
    HeadSplits(s);
    if h.Fault? {
      HeadFault(s);
      FaultAtOnce(s, h.error);
    } else {
      var rest := FaultFound(h.tail);
      t := Segment(h.literal, h.name, rest);
      FaultLater(h.literal, h.name, h.tail, rest, Parse(s).error);
    }
  }

  function Collected(variables: set<string>, parsed: Result<Template, TemplateError>): Result<set<string>, TemplateError> {
    if parsed.Ok? then Ok(variables + Names(parsed.value)) else Err(parsed.error)
  }

  /** Accepts exactly the templates and returns exactly their names; a rejected
      text is well formed up to the reported fault. */
  method Compile(template: string) returns (r: Result<set<string>, TemplateError>)
    ensures r.Ok? <==> exists t :: IsTemplate(t, template)
    ensures forall t :: IsTemplate(t, template) ==> r == Ok(Names(t))
    ensures r.Err? ==> exists t :: FaultAfter(t, template, r.error)
  {
    hide Parse, Render, FaultAfter, Names, WellFormed;
    r := Scan(template);
    NoneBefore(Parse(template));
    forall t | IsTemplate(t, template)
      ensures r == Ok(Names(t))
    {
      PrintedParses(t);
    }
    if r.Ok? {
      ParsedPrints(template);
    } else {
      var fault := FaultFound(template);
    }
  }

  lemma NoneBefore(parsed: Result<Template, TemplateError>)
    ensures parsed.Ok? ==> Collected({}, parsed) == Ok(Names(parsed.value))
  {
    assert parsed.Ok? ==> {} + Names(parsed.value) == Names(parsed.value);
  }

  /** One round of the scan: the hole at the start of the remainder is collected. */
  lemma ScanRound(variables: set<string>, remainder: string)
    requires ParseHead(remainder).Open?
    ensures var h := ParseHead(remainder);
            Collected(variables, Parse(remainder)) == Collected(variables + {h.name}, Parse(h.tail))
  {
    hide ParseHead;
    var h := ParseHead(remainder);
    var rest := Parse(h.tail);
    if rest.Ok? {
      assert variables + ({h.name} + Names(rest.value)) == variables + {h.name} + Names(rest.value);
    }
  }

  lemma ScanEnd(variables: set<string>, remainder: string)
    ensures ParseHead(remainder).Plain? ==> Collected(variables, Parse(remainder)) == Ok(variables)
    ensures ParseHead(remainder).Fault? ==> Collected(variables, Parse(remainder)) == Err(ParseHead(remainder).error)
  {
    hide ParseHead;
    assert variables + {} == variables;
  }

  method Scan(template: string) returns (r: Result<set<string>, TemplateError>)
    ensures r == Collected({}, Parse(template))
  {
    hide Identifier, Parse, Collected, Find;
    var variables: set<string> := {};
    var remainder := template;
    while '{' in remainder
      invariant Collected({}, Parse(template)) == Collected(variables, Parse(remainder))
      decreases |remainder|
    {
      ScanEnd(variables, remainder);
      var start := Find(remainder, '{');
      if '}' in remainder[..start] {
        return Err(UnclosedVariable);
      }
      var after := remainder[start + 1..];
      var end := Find(after, '}');
      if end == |after| {
        return Err(UnclosedVariable);
      }
      var variable := after[..end];
      if variable == "" {
        return Err(EmptyVariable);
      }
      if !Identifier(variable) {
        return Err(InvalidVariable(variable));
      }
      ScanRound(variables, remainder);
      variables := variables + {variable};
      remainder := after[end + 1..];
    }
    ScanEnd(variables, remainder);
    assert remainder[..|remainder|] == remainder;
    if '}' in remainder {
      return Err(UnclosedVariable);
    }
    return Ok(variables);
  }
}

/** Filling endpoint templates (urouter-ai/src/endpoint.rs): one variable after the other
    is replaced in the text, values included, so a value can be read as a hole. */
module EndpointFilling {
  import opened Results
  import opened Sequences
  import opened Sets
  import opened EndpointTemplates

  /** Replaces the occurrences of a pattern from left to right. */
  function ReplaceAll(s: string, pattern: string, value: string): string
    requires pattern != ""
    decreases |s|
  {
    if s == "" then ""
    else if pattern <= s then value + ReplaceAll(s[|pattern|..], pattern, value)
    else [s[0]] + ReplaceAll(s[1..], pattern, value)
  }

  lemma {:induction false} ReplaceSkips(a: string, s: string, name: string, value: string)
    requires '{' !in a
    ensures ReplaceAll(a + s, Hole(name), value) == a + ReplaceAll(s, Hole(name), value)
    decreases |a|
  {
    if a == "" {
      assert a + s == s && a + ReplaceAll(s, Hole(name), value) == ReplaceAll(s, Hole(name), value);
    } else {
      assert (a + s)[0] == a[0] && Hole(name)[0] == '{';
      assert (a + s)[1..] == a[1..] + s;
      ReplaceSkips(a[1..], s, name, value);
      assert a == [a[0]] + a[1..];
    }
  }

  lemma ReplaceHits(s: string, name: string, value: string)
    ensures ReplaceAll(Hole(name) + s, Hole(name), value) == value + ReplaceAll(s, Hole(name), value)
  {
    assert (Hole(name) + s)[|Hole(name)|..] == s;
  }

  /** A hole of another name is no occurrence: its first closing brace is elsewhere. */
  lemma OtherHole(s: string, other: string, name: string, value: string)
    requires other != name && BraceFree(other) && BraceFree(name)
    ensures ReplaceAll(Hole(other) + s, Hole(name), value) == Hole(other) + ReplaceAll(s, Hole(name), value)
  {
    var text := Hole(other) + s;
    if Hole(name) <= text {
      SameHole(s, other, name);
    }
    assert text[0] == '{' && text[1..] == (other + "}") + s;
    ReplaceSkips(other + "}", s, name, value);
    assert Hole(other) == "{" + (other + "}");
  }

  lemma SameHole(s: string, other: string, name: string)
    requires BraceFree(other) && BraceFree(name) && Hole(name) <= Hole(other) + s
    ensures other == name
  {
    var text := Hole(other) + s;
    assert text[|other| + 1] == '}' && text[|name| + 1] == Hole(name)[|name| + 1] == '}';
    assert forall i :: 0 <= i < |other| ==> text[i + 1] == other[i];
    assert forall i :: 0 <= i < |name| ==> text[i + 1] == Hole(name)[i + 1] == name[i];
  }

  lemma ReplaceNothing(x: string, name: string, value: string)
    requires '{' !in x
    ensures ReplaceAll(x, Hole(name), value) == x
  {
    ReplaceSkips(x, "", name, value);
    assert x + "" == x;
  }

  // Occurrences.

  ghost predicate OccursAt(pattern: string, s: string, i: nat) {
    i + |pattern| <= |s| && s[i..i + |pattern|] == pattern
  }

  ghost predicate Occurs(pattern: string, s: string) {
    exists i :: 0 <= i <= |s| && OccursAt(pattern, s, i)
  }

  /** Text in which no occurrence starts is passed over. */
  lemma {:induction false} ReplacePasses(s: string, tail: string, pattern: string, value: string)
    requires pattern != "" && forall i :: 0 <= i < |s| ==> !OccursAt(pattern, s + tail, i)
    ensures ReplaceAll(s + tail, pattern, value) == s + ReplaceAll(tail, pattern, value)
  {
    hide OccursAt;
    if s == "" {
      assert s + tail == tail && s + ReplaceAll(tail, pattern, value) == ReplaceAll(tail, pattern, value);
    } else {
      var text := s + tail;
      assert text[1..] == s[1..] + tail && text[0] == s[0];
      assert !OccursAt(pattern, text, 0);
      NoPrefix(pattern, text);
      forall i | 0 <= i < |s[1..]|
        ensures !OccursAt(pattern, s[1..] + tail, i)
      {
        assert !OccursAt(pattern, text, i + 1);
        OneLater(pattern, text, i);
      }
      ReplacePasses(s[1..], tail, pattern, value);
      assert s == [s[0]] + s[1..];
    }
  }

  lemma NoPrefix(pattern: string, text: string)
    ensures pattern <= text <==> OccursAt(pattern, text, 0)
  {
    if pattern <= text {
      assert text[0..|pattern|] == pattern;
    }
  }

  lemma OneLater(pattern: string, text: string, i: nat)
    requires text != ""
    ensures OccursAt(pattern, text[1..], i) <==> OccursAt(pattern, text, i + 1)
  {
    if i + 1 + |pattern| <= |text| {
      assert text[1..][i..i + |pattern|] == text[i + 1..i + 1 + |pattern|];
    }
  }

  /** An occurrence of a hole opens where it starts, closes where it ends and has no brace between. */
  lemma HoleChars(s: string, b: string, i: nat)
    requires Identifier(b) && OccursAt(Hole(b), s, i)
    ensures s[i] == '{' && s[i + |b| + 1] == '}'
    ensures forall k :: i < k < i + |b| + 1 ==> s[k] != '{' && s[k] != '}'
  {
    IdentifierIsBraceFree(b);
    var hole := Hole(b);
    forall k | 0 <= k < |hole|
      ensures s[i + k] == hole[k]
    {
      assert s[i..i + |hole|][k] == s[i + k];
    }
    assert hole[0] == '{' && hole[|b| + 1] == '}';
    forall k | i < k < i + |b| + 1
      ensures s[k] != '{' && s[k] != '}'
    {
      assert s[i + (k - i)] == hole[k - i] == b[k - i - 1];
    }
  }

  /** A hole that starts in y and ends beyond it is closed by the first brace that follows y. */
  lemma ClosedBeyond(y: string, tail: string, b: string, i: nat)
    requires Identifier(b) && i < |y| && OccursAt(Hole(b), y + tail, i) && i + |b| + 2 > |y|
    ensures var k := i + |b| + 1 - |y|; k < |tail| && tail[k] == '}' && forall j :: 0 <= j < k ==> tail[j] != '{' && tail[j] != '}'
    ensures '}' in tail
  {
    var s := y + tail;
    assert |Hole(b)| == |b| + 2;
    HoleChars(s, b, i);
    var k := i + |b| + 1 - |y|;
    assert s[|y| + k] == tail[k] && tail[k] in tail;
    forall j | 0 <= j < k
      ensures tail[j] != '{' && tail[j] != '}'
    {
      assert s[|y| + j] == tail[j];
    }
  }

  lemma SamePlace(pattern: string, s: string, t: string, i: nat)
    requires OccursAt(pattern, s, i) && i + |pattern| <= |t| && s[..i + |pattern|] == t[..i + |pattern|]
    ensures OccursAt(pattern, t, i) && Occurs(pattern, t)
  {
    var n := i + |pattern|;
    assert s[i..n] == s[..n][i..] && t[i..n] == t[..n][i..];
    assert i <= |t| && OccursAt(pattern, t, i);
  }

  /** Where two values stand behind one another with some text between, they read as a hole
      of b: inside one of them, or from the first into the second. */
  ghost predicate ReadsAcross(y: string, z: string, b: string) {
    exists l :: BraceFree(l) && Occurs(Hole(b), y + (l + z))
  }

  /** No values put in so far read as a hole of b. */
  ghost predicate NothingReads(filled: set<string>, b: string, values: map<string, string>) {
    forall a, c :: a in filled && c in filled && a in values && c in values ==> !ReadsAcross(values[a], values[c], b)
  }

  /** No value put into a hole opens one. */
  ghost predicate NoneOpens(names: set<string>, values: map<string, string>) {
    forall n :: n in names && n in values ==> '{' !in values[n]
  }

  lemma HoleInValue(y: string, z: string, b: string)
    requires Occurs(Hole(b), y)
    ensures ReadsAcross(y, z, b)
  {
    hide Hole;
    var i :| 0 <= i <= |y| && OccursAt(Hole(b), y, i);
    var l := "";
    var text := y + (l + z);
    assert text[i..i + |Hole(b)|] == y[i..i + |Hole(b)|];
    assert OccursAt(Hole(b), text, i) && BraceFree(l);
  }

  lemma InValue(y: string, z: string, tail: string, b: string, i: nat)
    requires OccursAt(Hole(b), y + tail, i) && i + |b| + 2 <= |y|
    ensures ReadsAcross(y, z, b)
  {
    assert |Hole(b)| == |b| + 2;
    hide Hole;
    assert (y + tail)[..i + |Hole(b)|] == y[..i + |Hole(b)|];
    SamePlace(Hole(b), y + tail, y, i);
    HoleInValue(y, z, b);
  }

  lemma LiteralFirst(l: string, rest: string)
    requires BraceFree(l)
    ensures forall j :: 0 <= j < |l| ==> (l + rest)[j] != '}'
  {
    forall j | 0 <= j < |l|
      ensures (l + rest)[j] != '}'
    {
      assert l[j] in l;
    }
  }

  lemma AcrossValues(y: string, l: string, z: string, rest: string, b: string, i: nat)
    requires Identifier(b) && BraceFree(l) && i < |y| && OccursAt(Hole(b), y + (l + (z + rest)), i) && !BraceFree(z)
    ensures ReadsAcross(y, z, b)
  {
    var tail := l + (z + rest);
    if i + |b| + 2 <= |y| {
      InValue(y, z, tail, b, i);
    } else {
      LiteralFirst(l, z + rest);
      var j :| 0 <= j < |z| && (z[j] == '{' || z[j] == '}');
      assert tail[|l| + j] == z[j];
      ClosedBeyond(y, tail, b, i);
      var text := y + (l + z);
      assert text[..i + |b| + 2] == (y + tail)[..i + |b| + 2];
      SamePlace(Hole(b), y + tail, text, i);
    }
  }

  /** In a filled template no hole of b starts in a value y, with some text behind it,
      unless y and a value read as one. */
  lemma {:induction false} NothingStarts(
    t: Template, y: string, l: string, filled: set<string>, b: string, values: map<string, string>, i: nat)
    requires WellFormed(t) && BraceFree(l) && Identifier(b) && b !in filled
    requires i < |y| && OccursAt(Hole(b), y + (l + Filled(t, filled, values)), i)
    ensures ReadsAcross(y, y, b) || exists c :: c in filled && c in values && ReadsAcross(y, values[c], b)
    decreases t
  {
    hide ReadsAcross, OccursAt, Hole, Identifier;
    var text := Filled(t, filled, values);
    match t
    case End(tail) =>
      NoneBehind(y, l + tail, b, i);
    case Segment(literal, name, rest) =>
      var more := Filled(rest, filled, values);
      if name in filled && name in values {
        var z := values[name];
        assert l + text == l + literal + (z + more);
        BothFree(l, literal);
        if BraceFree(z) {
          BothFree(l + literal, z);
          assert l + literal + (z + more) == l + literal + z + more;
          NothingStarts(rest, y, l + literal + z, filled, b, values, i);
        } else {
          AcrossValues(y, l + literal, z, more, b, i);
        }
      } else {
        assert l + text == l + literal + (Hole(name) + more);
        BothFree(l, literal);
        HoleBehind(y, l + literal, name, more, b, i);
      }
  }

  lemma BothFree(l: string, m: string)
    requires BraceFree(l) && BraceFree(m)
    ensures BraceFree(l + m)
  {
  }

  lemma NoneBehind(y: string, l: string, b: string, i: nat)
    requires BraceFree(l) && Identifier(b) && i < |y| && OccursAt(Hole(b), y + l, i)
    ensures ReadsAcross(y, y, b)
  {
    hide Identifier;
    if i + |b| + 2 <= |y| {
      InValue(y, y, l, b, i);
    } else {
      ClosedBeyond(y, l, b, i);
    }
  }

  lemma HoleBehind(y: string, l: string, name: string, more: string, b: string, i: nat)
    requires BraceFree(l) && Identifier(b) && i < |y| && OccursAt(Hole(b), y + (l + (Hole(name) + more)), i)
    ensures ReadsAcross(y, y, b)
  {
    hide Identifier;
    var tail := l + (Hole(name) + more);
    if i + |b| + 2 <= |y| {
      InValue(y, y, tail, b, i);
    } else {
      LiteralFirst(l, Hole(name) + more);
      assert tail[|l|] == '{';
      ClosedBeyond(y, tail, b, i);
    }
  }

  /** Replacing one variable fills exactly its holes, whatever was filled before, unless
      that reads as a hole of it. */
  lemma {:induction false} ReplaceFills(t: Template, filled: set<string>, name: string, values: map<string, string>)
    requires WellFormed(t) && Identifier(name) && name !in filled && name in values
    requires NothingReads(filled, name, values)
    ensures ReplaceAll(Filled(t, filled, values), Hole(name), values[name]) == Filled(t, filled + {name}, values)
  {
    hide ReplaceAll, ReadsAcross, Identifier, Hole, OccursAt;
    IdentifierIsBraceFree(name);
    match t {
      case End(tail) =>
        ReplaceNothing(tail, name, values[name]);
      case Segment(literal, other, rest) =>
        ReplaceFills(rest, filled, name, values);
        IdentifierIsBraceFree(other);
        var tail := Filled(rest, filled, values);
        if other in filled && other in values {
          ValuePasses(rest, filled, name, values, other);
          ReplaceSkips(literal, values[other] + tail, name, values[name]);
        } else {
          ReplaceSkips(literal, Hole(other) + tail, name, values[name]);
          if other == name {
            ReplaceHits(tail, name, values[name]);
          } else {
            OtherHole(tail, other, name, values[name]);
          }
        }
    }
  }

  lemma HoleIsNotEmpty(name: string)
    ensures Hole(name) != ""
  {
  }

  lemma ValuePasses(rest: Template, filled: set<string>, name: string, values: map<string, string>, other: string)
    requires WellFormed(rest) && Identifier(name) && name !in filled && name in values && NothingReads(filled, name, values)
    requires other in filled && other in values
    ensures Hole(name) != ""
    ensures var tail := Filled(rest, filled, values);
            ReplaceAll(values[other] + tail, Hole(name), values[name]) == values[other] + ReplaceAll(tail, Hole(name), values[name])
  {
    hide ReplaceAll, ReadsAcross, Identifier, Hole, OccursAt;
    HoleIsNotEmpty(name);
    var y, tail := values[other], Filled(rest, filled, values);
    forall i | 0 <= i < |y|
      ensures !OccursAt(Hole(name), y + tail, i)
    {
      if OccursAt(Hole(name), y + tail, i) {
        assert "" + tail == tail && BraceFree("");
        NothingStarts(rest, y, "", filled, name, values, i);
      }
    }
    ReplacePasses(y, tail, Hole(name), values[name]);
  }

  lemma {:induction false} NothingFilled(t: Template, values: map<string, string>)
    ensures Filled(t, {}, values) == Render(t)
  {
    if t.Segment? {
      NothingFilled(t.rest, values);
    }
  }

  /** What the loop over the variables makes of a text. */
  function ReplaceEach(text: string, order: seq<string>, values: map<string, string>): string
    requires forall i :: 0 <= i < |order| ==> order[i] in values
  {
    if order == [] then text
    else
      var last := order[|order| - 1];
      ReplaceAll(ReplaceEach(text, order[..|order| - 1], values), Hole(last), values[last])
  }

  /** No variable is read from the values put in before it. */
  ghost predicate NeverReads(order: seq<string>, values: map<string, string>) {
    forall j :: 0 <= j < |order| ==> NothingReads(Elements(order[..j]), order[j], values)
  }

  ghost predicate Fillable(order: seq<string>, values: map<string, string>) {
    (forall i :: 0 <= i < |order| ==> order[i] in values && Identifier(order[i]))
    && forall i, j :: 0 <= i < j < |order| ==> order[i] != order[j]
  }

  lemma FrontIsFillable(order: seq<string>, values: map<string, string>)
    requires Fillable(order, values) && order != []
    ensures var front, last := order[..|order| - 1], order[|order| - 1];
            Fillable(front, values) && last !in Elements(front) && Elements(order) == Elements(front) + {last}
            && (NeverReads(order, values) <==> NeverReads(front, values) && NothingReads(Elements(front), last, values))
  {
    hide NothingReads, Identifier;
    var front, last := order[..|order| - 1], order[|order| - 1];
    assert order == front + [last];
    forall j | 0 <= j < |front|
      ensures front[..j] == order[..j] && front[j] == order[j]
    {
    }
    assert order[..|front|] == front;
    if NeverReads(order, values) {
      assert NothingReads(Elements(order[..|front|]), order[|front|], values);
      forall j | 0 <= j < |front|
        ensures NothingReads(Elements(front[..j]), front[j], values)
      {
        assert NothingReads(Elements(order[..j]), order[j], values);
      }
    }
    if NeverReads(front, values) && NothingReads(Elements(front), last, values) {
      forall j | 0 <= j < |order|
        ensures NothingReads(Elements(order[..j]), order[j], values)
      {
        if j < |front| {
          assert NothingReads(Elements(front[..j]), front[j], values);
        }
      }
    }
  }

  /** Then the loop, in the order given, fills all holes at once. */
  lemma {:induction false} ReplaceEachFills(t: Template, order: seq<string>, values: map<string, string>)
    requires WellFormed(t) && Fillable(order, values) && NeverReads(order, values)
    ensures ReplaceEach(Render(t), order, values) == Filled(t, Elements(order), values)
  {
    hide ReplaceAll, Filled, Identifier, WellFormed, NeverReads, NothingReads, Elements;
    NothingFilled(t, values);
    if order != [] {
      var front, last := order[..|order| - 1], order[|order| - 1];
      FrontIsFillable(order, values);
      ReplaceEachFills(t, front, values);
      ReplaceFills(t, Elements(front), last, values);
    } else {
      NoNames();
    }
  }

  lemma NoNames()
    ensures Elements<string>([]) == {}
  {
  }

  /** Values without an opening brace are never read, in any order. */
  lemma NoneOpensNeverReads(order: seq<string>, values: map<string, string>)
    requires Fillable(order, values) && NoneOpens(Elements(order), values)
    ensures NeverReads(order, values)
  {
    hide ReadsAcross, Identifier;
    forall j, a, c | 0 <= j < |order| && a in Elements(order[..j]) && c in Elements(order[..j])
      ensures !ReadsAcross(values[a], values[c], order[j])
    {
      assert a in Elements(order) && c in Elements(order);
      ReadsNothing(values[a], values[c], order[j]);
    }
  }

  lemma NoBraceNoHole(s: string, b: string)
    requires '{' !in s
    ensures !Occurs(Hole(b), s)
  {
    forall i | 0 <= i <= |s|
      ensures !OccursAt(Hole(b), s, i)
    {
      if i + |Hole(b)| <= |s| {
        assert s[i..i + |Hole(b)|][0] == s[i] && s[i] in s;
      }
    }
  }

  lemma ReadsNothing(y: string, z: string, b: string)
    requires '{' !in y && '{' !in z
    ensures !ReadsAcross(y, z, b)
  {
    hide Occurs;
    forall l | BraceFree(l)
      ensures !Occurs(Hole(b), y + (l + z))
    {
      NoBraceNoHole(y + (l + z), b);
    }
  }

  lemma {:induction false} NamesAreIdentifiers(t: Template)
    requires WellFormed(t)
    ensures forall n :: n in Names(t) ==> Identifier(n)
  {
    if t.Segment? {
      NamesAreIdentifiers(t.rest);
    }
  }

  ghost predicate Lists(order: seq<string>, names: set<string>) {
    (forall i, j :: 0 <= i < j < |order| ==> order[i] != order[j])
    && (forall n :: n in order <==> n in names)
  }

  /** What the URL library makes of a text: the scheme, if it is a URL at all. */
  type SchemeOf = string -> Option<string>

  /** The filled text is returned if it is a URL that can be called. */
  function Checked(text: string, schemeOf: SchemeOf): (r: Result<string, TemplateError>)
    ensures r == Ok(text) <==> schemeOf(text) == Some("http") || schemeOf(text) == Some("https")
    ensures r == Err(InvalidUrl) <==> schemeOf(text) == None
    ensures r.Ok? ==> r.value == text
    ensures r.Err? ==> r.error == InvalidUrl || r.error == UnsupportedScheme
  {
    if schemeOf(text).None? then Err(InvalidUrl)
    else if schemeOf(text).value in {"http", "https"} then Ok(text)
    else Err(UnsupportedScheme)
  }

  /** Fills the variables one after the other, in the order given. When no value put in
      reads as a hole of a later variable, all holes are filled at once; so in any order
      when no value opens a brace. */
  method Materialize(template: string, order: seq<string>, values: map<string, string>, schemeOf: SchemeOf, ghost t: Template)
    returns (r: Result<string, TemplateError>)
    requires IsTemplate(t, template) && Lists(order, Names(t))
    ensures Names(t) <= values.Keys ==> r == Checked(ReplaceEach(template, order, values), schemeOf)
    ensures !(Names(t) <= values.Keys) ==>
              exists i :: 0 <= i < |order| && r == Err(MissingVariable(order[i])) && order[i] !in values
                          && forall k :: 0 <= k < i ==> order[k] in values
    ensures Names(t) <= values.Keys && (NeverReads(order, values) || NoneOpens(Names(t), values)) ==>
              r == Checked(Filled(t, Names(t), values), schemeOf)
  {
    hide ReplaceAll, Filled, Render, WellFormed, Names, Identifier, Checked, NeverReads;
    var result := template;
    for i := 0 to |order|
      invariant forall k :: 0 <= k < i ==> order[k] in values
      invariant result == ReplaceEach(template, order[..i], values)
    {
      assert order[i] in order;
      if order[i] !in values {
        return Err(MissingVariable(order[i]));
      }
      assert order[..i + 1][..i] == order[..i];
      result := ReplaceAll(result, Hole(order[i]), values[order[i]]);
    }
    assert order[..|order|] == order;
    assert forall n :: n in order ==> n in values;
    r := Checked(result, schemeOf);
    FilledWhenListed(order, values, t);
  }

  lemma FilledWhenListed(order: seq<string>, values: map<string, string>, t: Template)
    requires WellFormed(t) && Lists(order, Names(t)) && forall n :: n in order ==> n in values
    ensures NeverReads(order, values) || NoneOpens(Names(t), values) ==>
              ReplaceEach(Render(t), order, values) == Filled(t, Names(t), values)
  {
    hide ReplaceEach, Filled, Render, WellFormed, Names, Identifier, NeverReads;
    NamesAreIdentifiers(t);
    assert forall i :: 0 <= i < |order| ==> order[i] in order;
    assert Elements(order) == Names(t);
    assert Fillable(order, values);
    if NeverReads(order, values) {
      ReplaceEachFills(t, order, values);
    } else if NoneOpens(Names(t), values) {
      NoneOpensNeverReads(order, values);
    }
  }

  /** The filled text is free of braces exactly when every value put into it is. */
  lemma {:induction false} FilledIsBraceFree(t: Template, names: set<string>, values: map<string, string>)
    requires WellFormed(t) && Names(t) <= names && names <= values.Keys
    ensures BraceFree(Filled(t, names, values)) <==> forall n :: n in Names(t) ==> BraceFree(values[n])
  {
    if t.Segment? {
      FilledIsBraceFree(t.rest, names, values);
      assert t.name in Names(t) && Names(t.rest) <= Names(t);
    }
  }

  lemma ReplaceOne(name: string, other: string, value: string)
    requires BraceFree(name) && BraceFree(other)
    ensures ReplaceAll(Hole(other), Hole(name), value) == if other == name then value else Hole(other)
  {
    assert Hole(other) + "" == Hole(other) && value + "" == value;
    if other == name {
      ReplaceHits("", name, value);
    } else {
      OtherHole("", other, name, value);
    }
  }

  /** A value that is itself a hole is filled a second time when its variable comes
      later, so the order of the variables then decides the result. */
  lemma ValueWithHoleIsFilledAgain(a: string, b: string, x: string)
    requires Identifier(a) && Identifier(b) && a != b && '{' !in x
    ensures var values := map[a := Hole(b), b := x];
            ReplaceEach(Hole(a) + Hole(b), [a, b], values) == x + x
            && ReplaceEach(Hole(a) + Hole(b), [b, a], values) == Hole(b) + x
  {
    hide ReplaceAll;
    IdentifierIsBraceFree(a);
    IdentifierIsBraceFree(b);
    var values := map[a := Hole(b), b := x];
    var text := Hole(a) + Hole(b);
    EachOfTwo(text, a, b, values);
    EachOfTwo(text, b, a, values);
    ReplaceHits(Hole(b), a, Hole(b));
    ReplaceOne(a, b, Hole(b));
    ReplaceHits(Hole(b), b, x);
    ReplaceOne(b, b, x);
    OtherHole(Hole(b), a, b, x);
    ReplaceHits(x, a, Hole(b));
    ReplaceNothing(x, a, Hole(b));
  }

  lemma EachOfTwo(text: string, first: string, second: string, values: map<string, string>)
    requires first in values && second in values
    ensures ReplaceEach(text, [first, second], values)
            == ReplaceAll(ReplaceAll(text, Hole(first), values[first]), Hole(second), values[second])
  {
    hide ReplaceAll;
    var order := [first, second];
    assert order[..1] == [first] && [first][..0] == [] && order[1] == second;
    assert ReplaceEach(text, [], values) == text;
    assert ReplaceEach(text, [first], values) == ReplaceAll(text, Hole(first), values[first]);
  }

  // For which values the order matters.

  function Braces(s: string): nat {
    multiset(s)['{']
  }

  lemma BracesOf(s: string, t: string)
    ensures Braces(s + t) == Braces(s) + Braces(t)
    ensures Braces(s) > 0 <==> '{' in s
  {
    assert multiset(s + t) == multiset(s) + multiset(t);
  }

  /** Each replacement takes an opening brace away, if the value brings none. */
  lemma {:induction false} FewerBraces(s: string, b: string, x: string)
    requires Identifier(b) && '{' !in x
    ensures Braces(ReplaceAll(s, Hole(b), x)) <= Braces(s)
    ensures Occurs(Hole(b), s) ==> Braces(ReplaceAll(s, Hole(b), x)) < Braces(s)
    decreases |s|
  {
    var hole := Hole(b);
    assert hole[0] == '{' && hole != "";
    ReplaceEmpty(hole, x);
    hide Braces, Hole, Identifier, OccursAt, Occurs, ReplaceAll;
    if hole <= s {
      var rest := s[|hole|..];
      assert s == hole + rest;
      FewerBraces(rest, b, x);
      ReplaceMatch(hole, rest, x);
      BracesOf(hole, rest);
      BracesOf(x, ReplaceAll(rest, hole, x));
    } else if s != "" {
      var c, rest := s[0], s[1..];
      assert s == [c] + rest;
      FewerBraces(rest, b, x);
      ReplaceMiss(c, rest, hole, x);
      BracesOf([c], rest);
      BracesOf([c], ReplaceAll(rest, hole, x));
      LaterOccurrence(hole, s);
    } else {
      NowhereInNothing(hole);
    }
  }

  lemma LaterOccurrence(pattern: string, s: string)
    requires s != "" && !(pattern <= s)
    ensures Occurs(pattern, s) ==> Occurs(pattern, s[1..])
  {
    if i :| 0 <= i <= |s| && OccursAt(pattern, s, i) {
      NoPrefix(pattern, s);
      OneLater(pattern, s, i - 1);
    }
  }

  lemma NowhereInNothing(pattern: string)
    requires pattern != ""
    ensures !Occurs(pattern, "")
  {
  }

  lemma PrefixStays(p: string, s: string, t: string)
    ensures p <= s ==> p <= s + t
  {
  }

  lemma HoleFitsFront(s: string, b: string)
    requires Identifier(b) && s != "" && Hole(b) <= s + Hole(b)
    ensures Hole(b) <= s
  {
    var hole, text := Hole(b), s + Hole(b);
    assert text[|s|] == hole[0] == '{';
    NoPrefix(hole, text);
    HoleChars(text, b, 0);
  }

  lemma ReplaceMatch(pattern: string, rest: string, value: string)
    requires pattern != ""
    ensures ReplaceAll(pattern + rest, pattern, value) == value + ReplaceAll(rest, pattern, value)
  {
    assert (pattern + rest)[|pattern|..] == rest;
  }

  lemma ReplaceMiss(c: char, rest: string, pattern: string, value: string)
    requires pattern != "" && !(pattern <= [c] + rest)
    ensures ReplaceAll([c] + rest, pattern, value) == [c] + ReplaceAll(rest, pattern, value)
  {
    assert ([c] + rest)[1..] == rest;
  }

  lemma MatchBeforeHole(rest: string, hole: string, x: string)
    requires hole != "" && ReplaceAll(rest + hole, hole, x) == ReplaceAll(rest, hole, x) + x
    ensures ReplaceAll(hole + rest + hole, hole, x) == ReplaceAll(hole + rest, hole, x) + x
  {
    ReplaceMatch(hole, rest, x);
    ReplaceMatch(hole, rest + hole, x);
    hide ReplaceAll;
    Associative(hole, rest, hole);
    Associative(x, ReplaceAll(rest, hole, x), x);
  }

  lemma MissBeforeHole(c: char, rest: string, hole: string, x: string)
    requires hole != "" && ReplaceAll(rest + hole, hole, x) == ReplaceAll(rest, hole, x) + x
    requires !(hole <= [c] + rest + hole)
    ensures ReplaceAll([c] + rest + hole, hole, x) == ReplaceAll([c] + rest, hole, x) + x
  {
    PrefixStays(hole, [c] + rest, hole);
    Associative([c], rest, hole);
    ReplaceMiss(c, rest, hole, x);
    ReplaceMiss(c, rest + hole, hole, x);
    hide ReplaceAll;
    Associative([c], ReplaceAll(rest, hole, x), x);
  }

  lemma {:induction false} ReplaceBeforeHole(s: string, b: string, x: string)
    requires Identifier(b)
    ensures ReplaceAll(s + Hole(b), Hole(b), x) == ReplaceAll(s, Hole(b), x) + x
    decreases |s|
  {
    HoleIsNotEmpty(b);
    hide Hole, Identifier, ReplaceAll;
    var hole := Hole(b);
    if s == "" {
      ReplaceEmpty(hole, x);
      ReplaceMatch(hole, "", x);
      assert s + hole == hole + "" && x + "" == "" + x;
    } else if hole <= s + hole {
      HoleFitsFront(s, b);
      var rest := s[|hole|..];
      assert s == hole + rest;
      ReplaceBeforeHole(rest, b, x);
      MatchBeforeHole(rest, hole, x);
    } else {
      assert s == [s[0]] + s[1..];
      ReplaceBeforeHole(s[1..], b, x);
      MissBeforeHole(s[0], s[1..], hole, x);
    }
  }

  lemma ReplaceEmpty(pattern: string, value: string)
    requires pattern != ""
    ensures ReplaceAll("", pattern, value) == ""
  {
  }

  lemma AppendSame(p: string, q: string, x: string)
    ensures p + x == q + x ==> p == q
  {
    if p + x == q + x {
      assert |p| == |q| && p == (p + x)[..|p|] && q == (q + x)[..|q|];
    }
  }

  // The exact condition.

  function AllOf(names: seq<string>, last: Template): Template {
    if names == [] then last else Segment("", names[0], AllOf(names[1..], last))
  }

  lemma {:induction false} AllOfIsTemplate(names: seq<string>, last: Template)
    requires WellFormed(last) && forall i :: 0 <= i < |names| ==> Identifier(names[i])
    ensures WellFormed(AllOf(names, last)) && Names(AllOf(names, last)) == Elements(names) + Names(last)
  {
    hide Identifier;
    if names != [] {
      AllOfIsTemplate(names[1..], last);
      assert names == [names[0]] + names[1..];
    } else {
      NoNames();
    }
  }

  lemma {:induction false} AllOfFilled(names: seq<string>, b: string, filled: set<string>, values: map<string, string>) returns (s: string)
    requires b in values && b !in filled && b !in names
    ensures var t := AllOf(names, Segment("", b, End("")));
            Filled(t, filled, values) == s + Hole(b) && Filled(t, filled + {b}, values) == s + values[b]
  {
    hide Hole;
    if names == [] {
      s := "";
      FilledLast(b, filled, values);
      FilledLast(b, filled + {b}, values);
    } else {
      var rest := AllOfFilled(names[1..], b, filled, values);
      var name := names[0];
      var put := if name in filled && name in values then values[name] else Hole(name);
      s := put + rest;
      var more := AllOf(names[1..], Segment("", b, End("")));
      assert Filled(AllOf(names, Segment("", b, End(""))), filled, values) == put + Filled(more, filled, values);
      assert Filled(AllOf(names, Segment("", b, End(""))), filled + {b}, values) == put + Filled(more, filled + {b}, values);
    }
  }

  lemma FilledLast(b: string, filled: set<string>, values: map<string, string>)
    requires b in values
    ensures Filled(Segment("", b, End("")), filled, values) == if b in filled then values[b] else Hole(b)
  {
    var put := if b in filled then values[b] else Hole(b);
    assert Filled(End(""), filled, values) == "" && put + "" == put && "" + put == put;
  }

  /** The template that shows it: holes of a and c with a text between, then every name. */
  function Between(a: string, l: string, c: string, names: seq<string>, b: string): Template {
    Segment("", a, Segment(l, c, AllOf(names, Segment("", b, End("")))))
  }

  lemma BetweenIsTemplate(a: string, l: string, c: string, names: seq<string>, b: string)
    requires a in names && c in names && BraceFree(l) && Identifier(b) && forall i :: 0 <= i < |names| ==> Identifier(names[i])
    ensures WellFormed(Between(a, l, c, names, b)) && Names(Between(a, l, c, names, b)) == Elements(names) + {b}
  {
    hide Identifier;
    var last := Segment("", b, End(""));
    assert Names(End("")) == {} && Names(last) == {b} + Names(End(""));
    assert WellFormed(End("")) && WellFormed(last) && Names(last) == {b};
    AllOfIsTemplate(names, last);
    var middle := Segment(l, c, AllOf(names, last));
    assert WellFormed(middle) && Names(middle) == {c} + Names(AllOf(names, last));
  }

  lemma BetweenFilled(a: string, l: string, c: string, names: seq<string>, b: string, values: map<string, string>) returns (s: string)
    requires a in names && c in names && a in values && c in values && b in values && b !in names
    ensures var t, y, filled := Between(a, l, c, names, b), values[a] + (l + values[c]), Elements(names);
            Filled(t, filled, values) == y + s + Hole(b) && Filled(t, filled + {b}, values) == y + s + values[b]
  {
    hide Hole;
    var filled := Elements(names);
    s := AllOfFilled(names, b, filled, values);
    var rest := AllOf(names, Segment("", b, End("")));
    var middle := Segment(l, c, rest);
    assert Filled(middle, filled, values) == l + (values[c] + Filled(rest, filled, values));
    assert Filled(middle, filled + {b}, values) == l + (values[c] + Filled(rest, filled + {b}, values));
  }

  lemma OccursFurther(pattern: string, y: string, s: string)
    requires Occurs(pattern, y)
    ensures Occurs(pattern, y + s)
  {
    var i :| 0 <= i <= |y| && OccursAt(pattern, y, i);
    var n := i + |pattern|;
    assert (y + s)[..n] == y[..n];
    SamePlace(pattern, y, y + s, i);
  }

  /** What has been filled in reads as a hole of the last variable: on some template with
      these variables the loop then gives another result. */
  lemma ReadHoleShows(front: seq<string>, b: string, values: map<string, string>) returns (t: Template)
    requires b in values && Fillable(front + [b], values) && NeverReads(front, values) && '{' !in values[b]
    requires !NothingReads(Elements(front), b, values)
    ensures WellFormed(t) && Names(t) == Elements(front + [b])
    ensures ReplaceEach(Render(t), front + [b], values) != Filled(t, Elements(front + [b]), values)
  {
    hide ReplaceAll, Occurs, ReplaceEach, Filled, Identifier, WellFormed, Names, Between, NeverReads, Braces, Render;
    var order, x := front + [b], values[b];
    assert order[..|order| - 1] == front && order[|order| - 1] == b;
    FrontIsFillable(order, values);
    var a, c :| a in Elements(front) && c in Elements(front) && a in values && c in values && ReadsAcross(values[a], values[c], b);
    var l :| BraceFree(l) && Occurs(Hole(b), values[a] + (l + values[c]));
    NamesOf(order, values);
    t := Between(a, l, c, front, b);
    BetweenIsTemplate(a, l, c, front, b);
    var more := BetweenFilled(a, l, c, front, b, values);
    var s := values[a] + (l + values[c]) + more;
    ReplaceEachFills(t, front, values);
    OccursFurther(Hole(b), values[a] + (l + values[c]), more);
    ReplaceBeforeHole(s, b, x);
    FewerBraces(s, b, x);
    assert ReplaceAll(s, Hole(b), x) != s;
    AppendSame(ReplaceAll(s, Hole(b), x), s, x);
    LastReplaced(Render(t), order, values);
  }

  lemma NamesOf(order: seq<string>, values: map<string, string>)
    requires Fillable(order, values)
    ensures forall i :: 0 <= i < |order| ==> Identifier(order[i]) && order[i] in values
  {
  }

  lemma LastReplaced(text: string, order: seq<string>, values: map<string, string>)
    requires Fillable(order, values) && order != []
    ensures var front, b := order[..|order| - 1], order[|order| - 1];
            Fillable(front, values)
            && ReplaceEach(text, order, values) == ReplaceAll(ReplaceEach(text, front, values), Hole(b), values[b])
  {
    hide ReplaceAll, Identifier;
  }

  /** The exact condition, for any number of variables of which the earlier are read from no
      value and the last one's value opens no brace: the loop fills all holes at once, on
      all templates with these variables, exactly when the last is read from none either. */
  lemma WhenLastIsFilled(front: seq<string>, b: string, values: map<string, string>)
    requires b in values && Fillable(front + [b], values) && NeverReads(front, values) && '{' !in values[b]
    ensures (forall t | WellFormed(t) && Names(t) == Elements(front + [b]) ::
               ReplaceEach(Render(t), front + [b], values) == Filled(t, Elements(front + [b]), values))
            <==> NothingReads(Elements(front), b, values)
  {
    hide ReplaceEach, Filled, WellFormed, Names, Render, NeverReads, NothingReads, Identifier;
    var order := front + [b];
    assert order[..|order| - 1] == front && order[|order| - 1] == b;
    FrontIsFillable(order, values);
    if NothingReads(Elements(front), b, values) {
      forall t | WellFormed(t) && Names(t) == Elements(order)
        ensures ReplaceEach(Render(t), order, values) == Filled(t, Elements(order), values)
      {
        ReplaceEachFills(t, order, values);
      }
    } else {
      var t := ReadHoleShows(front, b, values);
    }
  }

  ghost predicate OrderMatters(t: Template, a: string, b: string, values: map<string, string>)
    requires a in values && b in values
  {
    ReplaceEach(Render(t), [a, b], values) != ReplaceEach(Render(t), [b, a], values)
  }

  /** For two variables: the order matters on some template exactly when the first one's
      value reads as a hole of the second, which it does whenever it contains one. */
  lemma WhenOrderMatters(a: string, b: string, values: map<string, string>)
    requires a != b && Identifier(a) && Identifier(b) && a in values && b in values && '{' !in values[b]
    ensures (exists t :: WellFormed(t) && Names(t) == {a, b} && OrderMatters(t, a, b, values))
            <==> ReadsAcross(values[a], values[a], b)
    ensures Occurs(Hole(b), values[a]) ==> ReadsAcross(values[a], values[a], b)
  {
    hide ReplaceEach, Filled, Render, WellFormed, Names, NeverReads, Occurs, Hole, ReadsAcross, Identifier;
    TwoVariables(a, b, values);
    TwoVariables(b, a, values);
    ReadsNothing(values[b], values[b], a);
    assert [a] + [b] == [a, b] && [b] + [a] == [b, a];
    assert {b, a} == {a, b};
    WhenLastIsFilled([a], b, values);
    forall t | WellFormed(t) && Names(t) == {a, b}
      ensures ReplaceEach(Render(t), [b, a], values) == Filled(t, {a, b}, values)
    {
      ReplaceEachFills(t, [b, a], values);
    }
    if Occurs(Hole(b), values[a]) {
      HoleInValue(values[a], values[a], b);
    }
  }

  lemma TwoVariables(a: string, b: string, values: map<string, string>)
    requires a != b && Identifier(a) && Identifier(b) && a in values && b in values
    ensures Fillable([a, b], values) && NeverReads([a], values) && Elements([a, b]) == {a, b} && Elements([a]) == {a}
    ensures NothingReads({a}, b, values) <==> !ReadsAcross(values[a], values[a], b)
    ensures NeverReads([a, b], values) <==> NothingReads({a}, b, values)
  {
    hide ReadsAcross, Identifier;
    var order := [a, b];
    assert order[..|order| - 1] == [a] && order[|order| - 1] == b && [a][..0] == [];
    FrontIsFillable(order, values);
  }
}

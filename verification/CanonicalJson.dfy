/** Canonical JSON: object keys sorted, no whitespace. Two values print alike
    exactly when they are equal up to the order of object keys, so the text (and
    any collision-free hash of it) identifies the value. */
module CanonicalJson {
  import opened Sorting
  import opened StringOrder
  import opened Sequences

  /** A number is identified with the text the library prints for it. */
  type NumberText = t: string | IsNumberText(t) witness "0"

  predicate IsNumberText(t: string) {
    t != "" && forall i :: 0 <= i < |t| ==> IsNumberChar(t[i])
  }

  predicate IsNumberChar(c: char) {
    '0' <= c <= '9' || c == '-' || c == '+' || c == '.' || c == 'e' || c == 'E'
  }

  datatype Entry = Entry(key: string, value: Value)

  datatype Value =
    | Null
    | Bool(b: bool)
    | Number(text: NumberText)
    | String(s: string)
    | Array(items: seq<Value>)
    | Object(entries: seq<Entry>)

  const ByKey: Order<Entry> := (x: Entry, y: Entry) => AtMost(x.key, y.key)

  // Printing.

  function Hex(n: nat): char
    requires n < 16
  {
    if n < 10 then '0' + n as char else 'a' + (n - 10) as char
  }

  function EscapeChar(c: char): (e: string)
    ensures |e| > 0
  {
    if c == '"' then "\\\""
    else if c == '\\' then "\\\\"
    else if c == '\n' then "\\n"
    else if c == '\r' then "\\r"
    else if c == '\t' then "\\t"
    else if c as int == 8 then "\\b"
    else if c as int == 12 then "\\f"
    else if c as int < 32 then "\\u00" + [Hex(c as int / 16), Hex(c as int % 16)]
    else [c]
  }

  function Escape(s: string): string {
    if s == "" then "" else EscapeChar(s[0]) + Escape(s[1..])
  }

  function PrintString(s: string): string {
    "\"" + Escape(s) + "\""
  }

  function Print(v: Value): string
    decreases v, 1, 0
  {
    match v
    case Null => "null"
    case Bool(b) => if b then "true" else "false"
    case Number(text) => text
    case String(s) => PrintString(s)
    case Array(items) => "[" + PrintItems(items) + "]"
    case Object(entries) => "{" + PrintEntries(v, SortedEntries(entries)) + "}"
  }

  function PrintItems(items: seq<Value>): string
    decreases items, 0, 0
  {
    if items == [] then "" else Print(items[0]) + PrintMoreItems(items[1..])
  }

  function PrintMoreItems(items: seq<Value>): string
    decreases items, 0, 0
  {
    if items == [] then "" else "," + Print(items[0]) + PrintMoreItems(items[1..])
  }

  function SortedEntries(entries: seq<Entry>): (sorted: seq<Entry>)
    ensures forall e :: e in sorted <==> e in entries
    ensures |sorted| == |entries|
  {
    SortKeepsElements(ByKey, entries);
    Sort(ByKey, entries)
  }

  /** The entries all come from the object `v`. */
  ghost predicate PartsOf(v: Value, entries: seq<Entry>) {
    v.Object? && forall e :: e in entries ==> e in v.entries
  }

  function PrintEntry(v: Value, e: Entry): string
    requires PartsOf(v, [e])
    decreases v, 0, 0
  {
    assert e in [e];
    PrintString(e.key) + ":" + Print(e.value)
  }

  function PrintEntries(v: Value, entries: seq<Entry>): string
    requires PartsOf(v, entries)
    decreases v, 0, |entries| + 1
  {
    if entries == [] then "" else PrintEntry(v, entries[0]) + PrintMoreEntries(v, entries[1..])
  }

  function PrintMoreEntries(v: Value, entries: seq<Entry>): string
    requires PartsOf(v, entries)
    decreases v, 0, |entries| + 1
  {
    if entries == [] then "" else "," + PrintEntry(v, entries[0]) + PrintMoreEntries(v, entries[1..])
  }

  // Equality up to the order of object keys.

  /** No key occurs twice in any object. */
  ghost predicate WellFormed(v: Value) {
    match v
    case Array(items) => forall i :: 0 <= i < |items| ==> WellFormed(items[i])
    case Object(entries) =>
      (forall i, j :: 0 <= i < j < |entries| ==> entries[i].key != entries[j].key)
      && forall i :: 0 <= i < |entries| ==> WellFormed(entries[i].value)
    case _ => true
  }

  ghost predicate Same(a: Value, b: Value) {
    match (a, b)
    case (Array(x), Array(y)) => |x| == |y| && forall i :: 0 <= i < |x| ==> Same(x[i], y[i])
    case (Object(x), Object(y)) =>
      |x| == |y|
      && forall i :: 0 <= i < |x| ==> exists j :: 0 <= j < |y| && x[i].key == y[j].key && Same(x[i].value, y[j].value)
    case _ => a == b
  }

  // Same values print alike.

  function Keys(entries: seq<Entry>): (keys: seq<string>)
    ensures |keys| == |entries|
    ensures forall i :: 0 <= i < |entries| ==> keys[i] == entries[i].key
  {
    seq(|entries|, i requires 0 <= i < |entries| => entries[i].key)
  }

  const ByText: Order<string> := (x: string, y: string) => AtMost(x, y)

  lemma SortedKeys(entries: seq<Entry>)
    requires forall i, j :: 0 <= i < j < |entries| ==> entries[i].key != entries[j].key
    ensures StrictlySorted(ByText, Keys(SortedEntries(entries)))
    ensures forall k :: k in Keys(SortedEntries(entries)) <==> k in Keys(entries)
  {
    ByKeyIsOrder((e: Entry) => e.key, ByKey);
    forall i, j | 0 <= i < j < |entries| && AtMost(entries[i].key, entries[j].key) && AtMost(entries[j].key, entries[i].key)
      ensures false
    {
      AtMostIsAntisymmetric(entries[i].key, entries[j].key);
    }
    SortSorts(ByKey, entries);
    var sorted := SortedEntries(entries);
    forall k
      ensures k in Keys(sorted) <==> k in Keys(entries)
    {
      if k in Keys(sorted) {
        var i :| 0 <= i < |sorted| && sorted[i].key == k;
        assert sorted[i] in entries;
      }
      if k in Keys(entries) {
        var i :| 0 <= i < |entries| && entries[i].key == k;
        assert entries[i] in sorted;
      }
    }
  }

  /** The sorted entries of two same objects carry the same keys in step. */
  lemma SameObjectsAlign(x: seq<Entry>, y: seq<Entry>)
    requires WellFormed(Object(x)) && WellFormed(Object(y)) && Same(Object(x), Object(y))
    ensures Keys(SortedEntries(x)) == Keys(SortedEntries(y))
  {
    SortedKeys(x);
    SortedKeys(y);
    assert forall k :: k in Keys(x) ==> k in Keys(y);
    SameSizeSubset(Keys(x), Keys(y));
    SortedIsUnique(ByText, Keys(SortedEntries(x)), Keys(SortedEntries(y)));
  }

  /** Distinct elements of a sequence that all occur in an equally long one
      leave no room for others. */
  lemma {:induction false} SameSizeSubset(x: seq<string>, y: seq<string>)
    requires |x| == |y| && forall i, j :: 0 <= i < j < |x| ==> x[i] != x[j]
    requires forall k :: k in x ==> k in y
    ensures forall k :: k in y ==> k in x
  {
    if x != [] {
      assert x[0] in x;
      var i :| 0 <= i < |y| && y[i] == x[0];
      var rest := y[..i] + y[i + 1..];
      forall k | k in x[1..]
        ensures k in rest
      {
        var j :| 0 <= j < |x| - 1 && x[1..][j] == k;
        assert x[j + 1] in y;
        var m :| 0 <= m < |y| && y[m] == k;
        assert m < i || m > i;
        assert rest[if m < i then m else m - 1] == k;
      }
      SameSizeSubset(x[1..], rest);
      forall k | k in y
        ensures k in x
      {
        var m :| 0 <= m < |y| && y[m] == k;
        if m != i {
          assert rest[if m < i then m else m - 1] == k;
          assert k in x[1..];
          assert forall e :: e in x[1..] ==> e in x;
        }
      }
    }
  }

  /** The value under a key is the same on both sides. */
  lemma SameUnderKey(x: seq<Entry>, y: seq<Entry>, e: Entry, f: Entry)
    requires WellFormed(Object(y)) && Same(Object(x), Object(y))
    requires e in x && f in y && e.key == f.key
    ensures Same(e.value, f.value)
  {
    var i :| 0 <= i < |x| && x[i] == e;
    var j :| 0 <= j < |y| && x[i].key == y[j].key && Same(x[i].value, y[j].value);
    var k :| 0 <= k < |y| && y[k] == f;
    assert j == k;
  }

  /** Pairwise the same, under the same keys. */
  ghost predicate Aligned(xs: seq<Entry>, ys: seq<Entry>) {
    |xs| == |ys|
    && forall i :: 0 <= i < |xs| ==> xs[i].key == ys[i].key && Same(xs[i].value, ys[i].value)
                                     && WellFormed(xs[i].value) && WellFormed(ys[i].value)
  }

  lemma SameObjectsAreAligned(x: seq<Entry>, y: seq<Entry>)
    requires WellFormed(Object(x)) && WellFormed(Object(y)) && Same(Object(x), Object(y))
    ensures Aligned(SortedEntries(x), SortedEntries(y))
  {
    SameObjectsAlign(x, y);
    var xs, ys := SortedEntries(x), SortedEntries(y);
    forall i | 0 <= i < |xs|
      ensures xs[i].key == ys[i].key && Same(xs[i].value, ys[i].value)
              && WellFormed(xs[i].value) && WellFormed(ys[i].value)
    {
      assert Keys(xs)[i] == Keys(ys)[i];
      assert xs[i] in x && ys[i] in y;
      SameUnderKey(x, y, xs[i], ys[i]);
    }
  }

  lemma EntriesByMore(v: Value, entries: seq<Entry>)
    requires PartsOf(v, entries)
    ensures PrintEntries(v, entries) == if entries == [] then "" else PrintMoreEntries(v, entries)[1..]
  {
  }

  /** Reordering object keys, at any depth, does not change the text. */
  lemma {:induction false} SamePrintsAlike(a: Value, b: Value)
    requires WellFormed(a) && WellFormed(b) && Same(a, b)
    ensures Print(a) == Print(b)
    decreases a, 1, 0
  {
    match (a, b)
    case (Array(x), Array(y)) =>
      if x != [] {
        SamePrintsAlike(x[0], y[0]);
        SameItemsPrintAlike(x[1..], y[1..]);
      }
    case (Object(x), Object(y)) =>
      var xs, ys := SortedEntries(x), SortedEntries(y);
      SameObjectsAreAligned(x, y);
      SameEntriesPrintAlike(a, xs, b, ys);
      EntriesByMore(a, xs);
      EntriesByMore(b, ys);
    case _ =>
  }

  lemma {:induction false} SameItemsPrintAlike(x: seq<Value>, y: seq<Value>)
    requires |x| == |y| && forall i :: 0 <= i < |x| ==> WellFormed(x[i]) && WellFormed(y[i]) && Same(x[i], y[i])
    ensures PrintMoreItems(x) == PrintMoreItems(y)
    decreases x, 0, 0
  {
    if x != [] {
      SamePrintsAlike(x[0], y[0]);
      SameItemsPrintAlike(x[1..], y[1..]);
    }
  }

  lemma {:induction false} SameEntriesPrintAlike(a: Value, xs: seq<Entry>, b: Value, ys: seq<Entry>)
    requires PartsOf(a, xs) && PartsOf(b, ys) && Aligned(xs, ys)
    ensures PrintMoreEntries(a, xs) == PrintMoreEntries(b, ys)
    decreases a, 0, |xs|
  {
    if xs != [] {
      assert xs[0] in xs;
      SamePrintsAlike(xs[0].value, ys[0].value);
      SameEntriesPrintAlike(a, xs[1..], b, ys[1..]);
    }
  }

  // Values that print alike are the same: each text has only one reading.

  /** What may follow a value in a text. */
  predicate Delimited(r: string) {
    r == "" || r[0] in ",]}"
  }

  lemma EscapeCharIsPrefixFree(c: char, x: string, d: char, y: string)
    requires EscapeChar(c) + x == EscapeChar(d) + y
    ensures c == d && x == y
  {
    var s, t := EscapeChar(c), EscapeChar(d);
    assert (s + x)[0] == s[0] && (t + y)[0] == t[0];
    if |s| > 1 && |t| > 1 {
      assert (s + x)[1] == s[1] && (t + y)[1] == t[1];
    }
    EscapeCharByText(c, d);
    if |s| == 6 && |t| == 6 {
      assert (s + x)[4] == s[4] && (t + y)[4] == t[4];
      assert (s + x)[5] == s[5] && (t + y)[5] == t[5];
    }
    assert |s| == |t|;
    assert x == (s + x)[|s|..] && y == (t + y)[|t|..];
  }

  lemma EscapeCharByText(c: char, d: char)
    requires EscapeChar(c)[0] == EscapeChar(d)[0]
    requires |EscapeChar(c)| > 1 && |EscapeChar(d)| > 1 ==> EscapeChar(c)[1] == EscapeChar(d)[1]
    ensures |EscapeChar(c)| == |EscapeChar(d)|
    ensures |EscapeChar(c)| == 6 && EscapeChar(c)[4] == EscapeChar(d)[4] && EscapeChar(c)[5] == EscapeChar(d)[5] ==> c == d
    ensures |EscapeChar(c)| != 6 ==> c == d
  {
  }

  lemma EscapeCharStart(c: char)
    ensures EscapeChar(c)[0] != '"'
  {
  }

  lemma EscapeStarts(s: string, r: string)
    ensures var x := Escape(s) + ("\"" + r);
            x != "" && (x[0] == '"' <==> s == "") && (s == "" ==> r == x[1..])
            && (s != "" ==> x == EscapeChar(s[0]) + (Escape(s[1..]) + ("\"" + r)))
  {
    hide EscapeChar;
    if s != "" {
      EscapeCharStart(s[0]);
      Associative(EscapeChar(s[0]), Escape(s[1..]), "\"" + r);
    } else {
      assert Escape(s) + ("\"" + r) == "\"" + r;
    }
  }

  lemma {:induction false} EscapeDetermines(s: string, r: string, t: string, u: string)
    requires Escape(s) + ("\"" + r) == Escape(t) + ("\"" + u)
    ensures s == t && r == u
    decreases |s|
  {
    hide Escape, EscapeChar;
    EscapeStarts(s, r);
    EscapeStarts(t, u);
    if s != "" {
      EscapeCharIsPrefixFree(s[0], Escape(s[1..]) + ("\"" + r), t[0], Escape(t[1..]) + ("\"" + u));
      EscapeDetermines(s[1..], r, t[1..], u);
      assert s == [s[0]] + s[1..] && t == [t[0]] + t[1..];
    }
  }

  lemma StringDetermines(s: string, r: string, t: string, u: string)
    requires PrintString(s) + r == PrintString(t) + u
    ensures s == t && r == u
  {
    hide Escape;
    assert (PrintString(s) + r)[1..] == Escape(s) + ("\"" + r);
    assert (PrintString(t) + u)[1..] == Escape(t) + ("\"" + u);
    EscapeDetermines(s, r, t, u);
  }

  lemma NumberDetermines(x: NumberText, r: string, y: NumberText, u: string)
    requires x + r == y + u && Delimited(r) && Delimited(u)
    ensures x == y && r == u
  {
    var s, t := x + r, y + u;
    assert |x| < |s| ==> s[|x|] == r[0] && !IsNumberChar(s[|x|]);
    assert |y| < |t| ==> t[|y|] == u[0] && !IsNumberChar(t[|y|]);
    assert forall i :: 0 <= i < |x| ==> s[i] == x[i];
    assert forall i :: 0 <= i < |y| ==> t[i] == y[i];
    assert |x| == |y|;
    assert x == s[..|x|] && r == s[|x|..] && y == t[..|x|] && u == t[|x|..];
  }

  /** The first character of a value's text tells its kind. */
  function KindOf(c: char): nat {
    if c == 'n' then 0 else if c == 't' then 1 else if c == 'f' then 2 else if IsNumberChar(c) then 3
    else if c == '"' then 4 else if c == '[' then 5 else if c == '{' then 6 else 7
  }

  function Kind(v: Value): nat {
    match v
    case Null => 0 case Bool(b) => if b then 1 else 2 case Number(_) => 3
    case String(_) => 4 case Array(_) => 5 case Object(_) => 6
  }

  lemma TextShowsKind(v: Value)
    ensures Print(v) != "" && KindOf(Print(v)[0]) == Kind(v)
  {
  }

  /** Pairwise the same under the same keys: what equal texts of entries give. */
  ghost predicate InStep(xs: seq<Entry>, ys: seq<Entry>) {
    |xs| == |ys| && forall i :: 0 <= i < |xs| ==> xs[i].key == ys[i].key && Same(xs[i].value, ys[i].value)
  }

  lemma InStepObjects(x: seq<Entry>, y: seq<Entry>)
    requires InStep(SortedEntries(x), SortedEntries(y))
    ensures Same(Object(x), Object(y))
  {
    var xs, ys := SortedEntries(x), SortedEntries(y);
    forall i | 0 <= i < |x|
      ensures exists j :: 0 <= j < |y| && x[i].key == y[j].key && Same(x[i].value, y[j].value)
    {
      assert x[i] in xs;
      var k :| 0 <= k < |xs| && xs[k] == x[i];
      assert ys[k] in y;
      var j :| 0 <= j < |y| && y[j] == ys[k];
    }
  }

  /** A text followed by a delimiter has only one reading. */
  lemma {:induction false} TextDetermines(a: Value, r: string, b: Value, u: string)
    requires Print(a) + r == Print(b) + u && Delimited(r) && Delimited(u)
    ensures Same(a, b) && r == u
    decreases a, 1, 0
  {
    TextShowsKind(a);
    TextShowsKind(b);
    assert (Print(a) + r)[0] == Print(a)[0] && (Print(b) + u)[0] == Print(b)[0];
    assert Kind(a) == Kind(b);
    match a
    case Number(x) => NumberDetermines(x, r, b.text, u);
    case String(s) => StringDetermines(s, r, b.s, u);
    case Array(x) => ArrayDetermines(a, r, b, u);
    case Object(x) => ObjectDetermines(a, r, b, u);
    case _ =>
      assert Print(a) == Print(b);
      assert r == (Print(a) + r)[|Print(a)|..] && u == (Print(b) + u)[|Print(b)|..];
  }

  lemma ArrayText(v: Value, r: string)
    requires v.Array?
    ensures var text := PrintItems(v.items) + ("]" + r);
            (Print(v) + r)[1..] == text
            && (v.items == [] ==> r == text[1..])
            && (v.items != [] ==> text == Print(v.items[0]) + (PrintMoreItems(v.items[1..]) + ("]" + r)))
  {
    assert Print(v) + r == "[" + (PrintItems(v.items) + ("]" + r));
  }

  lemma SameArrays(x: seq<Value>, y: seq<Value>)
    requires x != [] && y != [] && |x| == |y| && Same(x[0], y[0])
    requires forall i :: 0 <= i < |x[1..]| ==> Same(x[1..][i], y[1..][i])
    ensures Same(Array(x), Array(y))
  {
    forall i | 0 < i < |x|
      ensures Same(x[i], y[i])
    {
      assert x[1..][i - 1] == x[i] && y[1..][i - 1] == y[i];
    }
  }

  lemma {:induction false} ArrayDetermines(a: Value, r: string, b: Value, u: string)
    requires a.Array? && b.Array? && Print(a) + r == Print(b) + u
    ensures Same(a, b) && r == u
    decreases a, 0, 0
  {
    var x, y := a.items, b.items;
    ArrayText(a, r);
    ArrayText(b, u);
    hide Print, PrintItems, PrintMoreItems;
    if x != [] && y != [] {
      hide Same;
      TextDetermines(x[0], PrintMoreItems(x[1..]) + ("]" + r), y[0], PrintMoreItems(y[1..]) + ("]" + u));
      ItemsDetermine(x[1..], r, y[1..], u);
      SameArrays(x, y);
    } else {
      EmptyOrNot(x, "]" + r);
      EmptyOrNot(y, "]" + u);
    }
  }

  /** "]" starts no value. */
  lemma EmptyOrNot(items: seq<Value>, rest: string)
    requires rest != "" && rest[0] == ']'
    ensures PrintItems(items) + rest != "" && ((PrintItems(items) + rest)[0] == ']' <==> items == [])
  {
    if items != [] {
      TextShowsKind(items[0]);
      assert (PrintItems(items) + rest)[0] == Print(items[0])[0];
    }
  }

  lemma MoreItemsText(items: seq<Value>, r: string)
    ensures var text := PrintMoreItems(items) + ("]" + r);
            Delimited(text) && text != "" && text[0] == (if items == [] then ']' else ',')
            && text[1..] == if items == [] then r else Print(items[0]) + (PrintMoreItems(items[1..]) + ("]" + r))
  {
    hide Print;
    var text := PrintMoreItems(items) + ("]" + r);
    if items == [] {
      assert text == "]" + r;
    } else {
      assert text == "," + (Print(items[0]) + (PrintMoreItems(items[1..]) + ("]" + r)));
    }
  }

  lemma {:induction false} ItemsDetermine(x: seq<Value>, r: string, y: seq<Value>, u: string)
    requires PrintMoreItems(x) + ("]" + r) == PrintMoreItems(y) + ("]" + u)
    ensures |x| == |y| && (forall i :: 0 <= i < |x| ==> Same(x[i], y[i])) && r == u
    decreases x, 0, 0
  {
    hide Print, PrintMoreItems, Same;
    MoreItemsText(x, r);
    MoreItemsText(y, u);
    if x != [] {
      MoreItemsText(x[1..], r);
      MoreItemsText(y[1..], u);
      TextDetermines(x[0], PrintMoreItems(x[1..]) + ("]" + r), y[0], PrintMoreItems(y[1..]) + ("]" + u));
      ItemsDetermine(x[1..], r, y[1..], u);
      forall i | 0 < i < |x|
        ensures Same(x[i], y[i])
      {
        assert x[1..][i - 1] == x[i] && y[1..][i - 1] == y[i];
      }
    }
  }

  /** "}" starts no entry. */
  lemma NoEntryOrSome(v: Value, entries: seq<Entry>, rest: string)
    requires PartsOf(v, entries) && rest != "" && rest[0] == '}'
    ensures PrintEntries(v, entries) + rest != ""
    ensures (PrintEntries(v, entries) + rest)[0] == '}' <==> entries == []
  {
    if entries != [] {
      assert (PrintEntries(v, entries) + rest)[0] == PrintString(entries[0].key)[0] == '"';
    }
  }

  lemma ObjectText(v: Value, r: string)
    requires v.Object?
    ensures var sorted := SortedEntries(v.entries);
            (Print(v) + r)[1..] == PrintEntries(v, sorted) + ("}" + r)
            && (sorted != [] ==> PrintMoreEntries(v, sorted) + ("}" + r) == "," + (PrintEntries(v, sorted) + ("}" + r)))
            && (sorted == [] ==> r == (PrintEntries(v, sorted) + ("}" + r))[1..])
  {
    hide SortedEntries, PrintEntry;
    var sorted := SortedEntries(v.entries);
    EntriesByMore(v, sorted);
    assert Print(v) + r == "{" + (PrintEntries(v, sorted) + ("}" + r));
  }

  lemma {:induction false} ObjectDetermines(a: Value, r: string, b: Value, u: string)
    requires a.Object? && b.Object? && Print(a) + r == Print(b) + u
    ensures Same(a, b) && r == u
    decreases a, 0, |SortedEntries(a.entries)| + 1
  {
    var xs, ys := SortedEntries(a.entries), SortedEntries(b.entries);
    var s, t := PrintEntries(a, xs) + ("}" + r), PrintEntries(b, ys) + ("}" + u);
    ObjectText(a, r);
    ObjectText(b, u);
    hide Print, PrintEntries, PrintMoreEntries, Same;
    assert s == t;
    if xs != [] && ys != [] {
      EntriesDetermine(a, xs, r, b, ys, u);
      InStepObjects(a.entries, b.entries);
    } else {
      NoEntryOrSome(a, xs, "}" + r);
      NoEntryOrSome(b, ys, "}" + u);
      InStepObjects(a.entries, b.entries);
    }
  }

  lemma {:induction false} EntriesDetermine(a: Value, xs: seq<Entry>, r: string, b: Value, ys: seq<Entry>, u: string)
    requires PartsOf(a, xs) && PartsOf(b, ys)
    requires PrintMoreEntries(a, xs) + ("}" + r) == PrintMoreEntries(b, ys) + ("}" + u)
    ensures InStep(xs, ys) && r == u
    decreases a, 0, |xs|
  {
    MoreEntriesText(a, xs, r);
    MoreEntriesText(b, ys, u);
    var s, t := PrintMoreEntries(a, xs) + ("}" + r), PrintMoreEntries(b, ys) + ("}" + u);
    assert s[0] == t[0];
    if xs == [] {
      assert r == s[1..] && u == t[1..];
    } else {
      assert xs[0] in xs;
      var rest, rest' := PrintMoreEntries(a, xs[1..]) + ("}" + r), PrintMoreEntries(b, ys[1..]) + ("}" + u);
      EntryDetermines(xs[0], rest, ys[0], rest', s, t);
      TextDetermines(xs[0].value, rest, ys[0].value, rest');
      EntriesDetermine(a, xs[1..], r, b, ys[1..], u);
      InStepFurther(xs, ys);
    }
  }

  lemma InStepFurther(xs: seq<Entry>, ys: seq<Entry>)
    requires xs != [] && ys != [] && InStep(xs[1..], ys[1..])
    requires xs[0].key == ys[0].key && Same(xs[0].value, ys[0].value)
    ensures InStep(xs, ys)
  {
    hide Same;
    forall i | 0 < i < |xs|
      ensures xs[i].key == ys[i].key && Same(xs[i].value, ys[i].value)
    {
      assert xs[1..][i - 1] == xs[i] && ys[1..][i - 1] == ys[i];
    }
  }

  /** The text of one more entry before `rest`. */
  function EntryText(e: Entry, rest: string): string {
    "," + (PrintString(e.key) + (":" + (Print(e.value) + rest)))
  }

  lemma EntryTextIs(v: Value, e: Entry, more: string, rest: string)
    requires PartsOf(v, [e])
    ensures "," + PrintEntry(v, e) + more + rest == EntryText(e, more + rest)
  {
    hide PrintString, Print;
    var key, text := PrintString(e.key), Print(e.value);
    Associative(",", PrintEntry(v, e), more + rest);
    Associative(key + ":", text, more + rest);
    Associative(key, ":", text + (more + rest));
    Associative("," + PrintEntry(v, e), more, rest);
  }

  lemma MoreEntriesText(v: Value, entries: seq<Entry>, r: string)
    requires PartsOf(v, entries)
    ensures PrintMoreEntries(v, entries) + ("}" + r)
            == if entries == [] then "}" + r else EntryText(entries[0], PrintMoreEntries(v, entries[1..]) + ("}" + r))
    ensures Delimited(PrintMoreEntries(v, entries) + ("}" + r))
  {
    hide PrintString, Print, PrintEntry, EntryText;
    if entries == [] {
      assert PrintMoreEntries(v, entries) + ("}" + r) == "}" + r;
    } else {
      assert PartsOf(v, [entries[0]]);
      EntryTextIs(v, entries[0], PrintMoreEntries(v, entries[1..]), "}" + r);
      assert ("," + PrintEntry(v, entries[0]) + PrintMoreEntries(v, entries[1..]))[0] == ',';
    }
  }

  lemma EntryDetermines(e: Entry, rest: string, f: Entry, rest': string, s: string, t: string)
    requires s == EntryText(e, rest) && t == EntryText(f, rest') && s == t
    ensures e.key == f.key && Print(e.value) + rest == Print(f.value) + rest'
  {
    var v, v' := ":" + (Print(e.value) + rest), ":" + (Print(f.value) + rest');
    assert s[1..] == PrintString(e.key) + v && t[1..] == PrintString(f.key) + v';
    StringDetermines(e.key, v, f.key, v');
    assert Print(e.value) + rest == v[1..] && Print(f.value) + rest' == v'[1..];
  }

  /** The canonical text identifies a value up to the order of object keys. */
  lemma CanonicalTextIdentifies(a: Value, b: Value)
    requires WellFormed(a) && WellFormed(b)
    ensures Print(a) == Print(b) <==> Same(a, b)
  {
    if Same(a, b) {
      SamePrintsAlike(a, b);
    }
    if Print(a) == Print(b) {
      assert Print(a) + "" == Print(b) + "";
      TextDetermines(a, "", b, "");
    }
  }

  // The writer, which appends to one growing string.

  class JsonWriter {
    var output: string

    constructor ()
      ensures output == ""
    {
      output := "";
    }

    method Write(v: Value)
      modifies this
      ensures output == old(output) + Print(v)
      decreases v, 1
    {
      hide PrintItems, PrintEntries, PrintString, SortedEntries;
      match v {
        case Null => output := output + "null";
        case Bool(b) => output := output + if b then "true" else "false";
        case Number(text) => output := output + text;
        case String(s) => output := output + PrintString(s);
        case Array(items) =>
          output := output + "[";
          WriteItems(items);
          output := output + "]";
        case Object(entries) =>
          output := output + "{";
          WriteEntries(v, SortedEntries(entries));
          output := output + "}";
      }
    }

    method WriteItems(items: seq<Value>)
      modifies this
      ensures output == old(output) + PrintItems(items)
      decreases items, 0
    {
      hide Print, PrintItems, PrintMoreItems, ItemsFrom;
      ItemsFromEnds(items);
      var i := 0;
      while i < |items|
        invariant i <= |items|
        invariant output + ItemsFrom(items, i) == old(output) + PrintItems(items)
      {
        ItemsFromStep(items, i);
        if i > 0 {
          output := output + ",";
        }
        Write(items[i]);
        i := i + 1;
      }
    }

    method WriteEntries(v: Value, entries: seq<Entry>)
      requires PartsOf(v, entries)
      modifies this
      ensures output == old(output) + PrintEntries(v, entries)
      decreases v, 0
    {
      hide Print, PrintString, PrintEntries, PrintMoreEntries, EntriesFrom;
      EntriesFromEnds(v, entries);
      var i := 0;
      while i < |entries|
        invariant i <= |entries|
        invariant output + EntriesFrom(v, entries, i) == old(output) + PrintEntries(v, entries)
      {
        EntriesFromStep(v, entries, i);
        if i > 0 {
          output := output + ",";
        }
        assert entries[i] in entries;
        output := output + PrintString(entries[i].key) + ":";
        Write(entries[i].value);
        i := i + 1;
      }
    }
  }

  /** What is still to be written after i items. */
  ghost function ItemsFrom(items: seq<Value>, i: nat): string
    requires i <= |items|
  {
    if i == 0 then PrintItems(items) else PrintMoreItems(items[i..])
  }

  ghost function EntriesFrom(v: Value, entries: seq<Entry>, i: nat): string
    requires PartsOf(v, entries) && i <= |entries|
  {
    if i == 0 then PrintEntries(v, entries) else PrintMoreEntries(v, entries[i..])
  }

  lemma ItemsFromEnds(items: seq<Value>)
    ensures ItemsFrom(items, 0) == PrintItems(items) && ItemsFrom(items, |items|) == ""
  {
  }

  lemma EntriesFromEnds(v: Value, entries: seq<Entry>)
    requires PartsOf(v, entries)
    ensures EntriesFrom(v, entries, 0) == PrintEntries(v, entries) && EntriesFrom(v, entries, |entries|) == ""
  {
  }

  lemma ItemsFromStep(items: seq<Value>, i: nat)
    requires i < |items|
    ensures ItemsFrom(items, i) == (if i > 0 then "," else "") + Print(items[i]) + ItemsFrom(items, i + 1)
  {
    assert items[i..][0] == items[i] && items[i..][1..] == items[i + 1..];
  }

  lemma EntriesFromStep(v: Value, entries: seq<Entry>, i: nat)
    requires PartsOf(v, entries) && i < |entries|
    ensures EntriesFrom(v, entries, i)
            == (if i > 0 then "," else "") + (PrintString(entries[i].key) + ":" + Print(entries[i].value))
               + EntriesFrom(v, entries, i + 1)
  {
    hide Print, PrintString;
    assert entries[i..][0] == entries[i] && entries[i..][1..] == entries[i + 1..];
    assert entries[i] in entries;
    assert "" + PrintEntry(v, entries[i]) == PrintEntry(v, entries[i]);
  }

  // Prompt profiles.

  function Field(v: Value, name: string): Value {
    if v.Object? then FindField(v.entries, name) else Null
  }

  function FindField(entries: seq<Entry>, name: string): Value {
    if entries == [] then Null
    else if entries[0].key == name then entries[0].value
    else FindField(entries[1..], name)
  }

  predicate IsInstruction(message: Value) {
    Field(message, "role") == String("system") || Field(message, "role") == String("developer")
  }

  function Instructions(messages: seq<Value>): seq<Value> {
    if messages == [] then []
    else (if IsInstruction(messages[0]) then [messages[0]] else []) + Instructions(messages[1..])
  }

  /** The system and developer messages of a request, in order. */
  function PromptProfile(request: Value): seq<Value> {
    match Field(request, "messages")
    case Array(messages) => Instructions(messages)
    case _ => []
  }

  lemma {:induction false} InstructionsWellFormed(messages: seq<Value>)
    requires forall i :: 0 <= i < |messages| ==> WellFormed(messages[i])
    ensures WellFormed(Array(Instructions(messages)))
  {
    if messages != [] {
      InstructionsWellFormed(messages[1..]);
    }
  }

  lemma {:induction false} FieldWellFormed(entries: seq<Entry>, name: string)
    requires forall i :: 0 <= i < |entries| ==> WellFormed(entries[i].value)
    ensures WellFormed(FindField(entries, name))
  {
    if entries != [] && entries[0].key != name {
      FieldWellFormed(entries[1..], name);
    }
  }

  lemma ProfileWellFormed(request: Value)
    requires WellFormed(request)
    ensures WellFormed(Array(PromptProfile(request)))
  {
    if request.Object? {
      FieldWellFormed(request.entries, "messages");
    }
    if Field(request, "messages").Array? {
      InstructionsWellFormed(Field(request, "messages").items);
    }
  }

  lemma {:induction false} FieldIs(entries: seq<Entry>, name: string)
    requires forall i, j :: 0 <= i < j < |entries| ==> entries[i].key != entries[j].key
    ensures forall v :: Entry(name, v) in entries ==> FindField(entries, name) == v
    ensures (forall e :: e in entries ==> e.key != name) ==> FindField(entries, name) == Null
  {
    if entries != [] {
      FieldIs(entries[1..], name);
      assert forall e :: e in entries <==> e == entries[0] || e in entries[1..];
    }
  }

  /** A message whose role is written as system or as developer. */
  predicate Instructs(message: Value) {
    message.Object?
    && (Entry("role", String("system")) in message.entries || Entry("role", String("developer")) in message.entries)
  }

  function Instructing(messages: seq<Value>): seq<Value> {
    if messages == [] then []
    else if Instructs(messages[0]) then [messages[0]] + Instructing(messages[1..])
    else Instructing(messages[1..])
  }

  lemma {:induction false} FieldIsWritten(entries: seq<Entry>, name: string, v: Value)
    requires FindField(entries, name) == v && v != Null
    ensures Entry(name, v) in entries
  {
    if entries[0].key != name {
      FieldIsWritten(entries[1..], name, v);
    } else {
      assert entries[0] == Entry(name, v);
    }
  }

  lemma RoleInstructs(message: Value)
    requires WellFormed(message)
    ensures IsInstruction(message) <==> Instructs(message)
  {
    var (system, developer) := (String("system"), String("developer"));
    if message.Object? {
      FieldIs(message.entries, "role");
      var role := FindField(message.entries, "role");
      if role == system || role == developer {
        FieldIsWritten(message.entries, "role", role);
      }
    }
  }

  lemma {:induction false} InstructionsInstruct(messages: seq<Value>)
    requires forall i :: 0 <= i < |messages| ==> WellFormed(messages[i])
    ensures Instructions(messages) == Instructing(messages)
  {
    if messages != [] {
      hide IsInstruction, Instructs, WellFormed;
      RoleInstructs(messages[0]);
      InstructionsInstruct(messages[1..]);
      assert [] + Instructing(messages[1..]) == Instructing(messages[1..]);
    }
  }

  /** The profile has the messages of the roles system and developer, in order, and
      nothing when the request has no list of messages. */
  lemma ProfileIsByRole(entries: seq<Entry>)
    requires WellFormed(Object(entries))
    ensures forall messages :: Entry("messages", Array(messages)) in entries ==>
              PromptProfile(Object(entries)) == Instructing(messages)
    ensures (forall e :: e in entries && e.key == "messages" ==> !e.value.Array?) ==> PromptProfile(Object(entries)) == []
  {
    var name := "messages";
    hide Instructions, Instructing;
    FieldIs(entries, name);
    var found := FindField(entries, name);
    if found.Array? {
      FieldIsWritten(entries, name, found);
      FieldWellFormed(entries, name);
      InstructionsInstruct(found.items);
    }
  }

  /** Two requests have the same profile text exactly when their system and
      developer messages agree one by one, up to the order of object keys. */
  lemma ProfileTextIdentifiesInstructions(a: Value, b: Value)
    requires WellFormed(a) && WellFormed(b)
    ensures Print(Array(PromptProfile(a))) == Print(Array(PromptProfile(b)))
            <==> (|PromptProfile(a)| == |PromptProfile(b)|
                  && forall i :: 0 <= i < |PromptProfile(a)| ==> Same(PromptProfile(a)[i], PromptProfile(b)[i]))
  {
    ProfileWellFormed(a);
    ProfileWellFormed(b);
    CanonicalTextIdentifies(Array(PromptProfile(a)), Array(PromptProfile(b)));
  }
}

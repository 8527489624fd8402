/** Reading JSON text (RFC 8259) back: the canonical text of every value is a JSON text of
    that value. */
module JsonReading {
  import opened Sequences
  import opened StringOrder
  import opened CanonicalJson

  datatype Reading<T> = Read(what: T, rest: string) | Unreadable

  // Section 7 of RFC 8259: strings.

  function HexValue(c: char): nat {
    if '0' <= c <= '9' then c as nat - '0' as nat
    else if 'a' <= c <= 'f' then c as nat - 'a' as nat + 10
    else if 'A' <= c <= 'F' then c as nat - 'A' as nat + 10
    else 0x11_0000
  }

  /** The character that four hexadecimal digits spell, outside the surrogates. */
  function ReadHex(t: string): Reading<char> {
    if |t| < 4 then Unreadable
    else
      var code := ((HexValue(t[0]) * 16 + HexValue(t[1])) * 16 + HexValue(t[2])) * 16 + HexValue(t[3]);
      if code < 0xD800 || 0xE000 <= code < 0x1_0000 then Read(code as char, t[4..]) else Unreadable
  }

  /** One character of a string, escaped or not. */
  function ReadChar(t: string): (r: Reading<char>)
    ensures r.Read? ==> |r.rest| < |t|
  {
    if t == "" || t[0] == '"' || t[0] as nat < 0x20 then Unreadable
    else if t[0] != '\\' then Read(t[0], t[1..])
    else if |t| == 1 then Unreadable
    else if t[1] == '"' || t[1] == '\\' || t[1] == '/' then Read(t[1], t[2..])
    else if t[1] == 'b' then Read(8 as char, t[2..])
    else if t[1] == 'f' then Read(12 as char, t[2..])
    else if t[1] == 'n' then Read(10 as char, t[2..])
    else if t[1] == 'r' then Read(13 as char, t[2..])
    else if t[1] == 't' then Read(9 as char, t[2..])
    else if t[1] == 'u' then ReadHex(t[2..])
    else Unreadable
  }

  /** The characters up to the closing quote, which is read as well. */
  function ReadChars(t: string): (r: Reading<string>)
    ensures r.Read? ==> |r.rest| < |t|
    decreases |t|
  {
    if t != "" && t[0] == '"' then Read("", t[1..])
    else
      match ReadChar(t)
      case Unreadable => Unreadable
      case Read(c, rest) =>
        match ReadChars(rest)
        case Unreadable => Unreadable
        case Read(s, end) => Read([c] + s, end)
  }

  function ReadString(t: string): (r: Reading<string>)
    ensures r.Read? ==> |r.rest| < |t|
  {
    if t != "" && t[0] == '"' then ReadChars(t[1..]) else Unreadable
  }

  // Sections 3 to 6: values.

  function NumberEnd(t: string): (n: nat)
    ensures n <= |t| && (forall i :: 0 <= i < n ==> IsNumberChar(t[i])) && (n < |t| ==> !IsNumberChar(t[n]))
  {
    if t == "" || !IsNumberChar(t[0]) then 0 else 1 + NumberEnd(t[1..])
  }

  function ReadValue(t: string): (r: Reading<Value>)
    ensures r.Read? ==> |r.rest| < |t|
    decreases |t|, 0
  {
    if t == "" then Unreadable
    else if t[0] == '"' then
      match ReadString(t) case Unreadable => Unreadable case Read(s, rest) => Read(String(s), rest)
    else if t[0] == '[' then
      match ReadItems(t[1..], true) case Unreadable => Unreadable case Read(items, rest) => Read(Array(items), rest)
    else if t[0] == '{' then
      match ReadEntries(t[1..], true) case Unreadable => Unreadable case Read(entries, rest) => Read(Object(entries), rest)
    else if IsNumberChar(t[0]) then Read(Number(t[..NumberEnd(t)]), t[NumberEnd(t)..])
    else if "null" <= t then Read(Null, t[4..])
    else if "true" <= t then Read(Bool(true), t[4..])
    else if "false" <= t then Read(Bool(false), t[5..])
    else Unreadable
  }

  /** Items up to the closing bracket; all but the first follow a comma. */
  function ReadItems(t: string, first: bool): (r: Reading<seq<Value>>)
    ensures r.Read? ==> |r.rest| < |t|
    decreases |t|, 1
  {
    if t == "" then Unreadable
    else if t[0] == ']' then Read([], t[1..])
    else if !first && t[0] != ',' then Unreadable
    else
      match ReadValue(if first then t else t[1..])
      case Unreadable => Unreadable
      case Read(v, rest) =>
        match ReadItems(rest, false)
        case Unreadable => Unreadable
        case Read(items, end) => Read([v] + items, end)
  }

  function ReadEntry(t: string): (r: Reading<Entry>)
    ensures r.Read? ==> |r.rest| < |t|
    decreases |t|, 0
  {
    match ReadString(t)
    case Unreadable => Unreadable
    case Read(key, rest) =>
      if rest == "" || rest[0] != ':' then Unreadable
      else
        match ReadValue(rest[1..]) case Unreadable => Unreadable case Read(v, end) => Read(Entry(key, v), end)
  }

  function ReadEntries(t: string, first: bool): (r: Reading<seq<Entry>>)
    ensures r.Read? ==> |r.rest| < |t|
    decreases |t|, 1
  {
    if t == "" then Unreadable
    else if t[0] == '}' then Read([], t[1..])
    else if !first && t[0] != ',' then Unreadable
    else
      match ReadEntry(if first then t else t[1..])
      case Unreadable => Unreadable
      case Read(e, rest) =>
        match ReadEntries(rest, false)
        case Unreadable => Unreadable
        case Read(entries, end) => Read([e] + entries, end)
  }

  // Reading what was printed.

  lemma HexIsRead(n: nat)
    requires n < 16
    ensures HexValue(Hex(n)) == n
  {
  }

  lemma EscapedIsRead(c: char, x: string)
    ensures ReadChar(EscapeChar(c) + x) == Read(c, x)
  {
    var e := EscapeChar(c);
    var t := e + x;
    assert t[|e|..] == x && forall i :: 0 <= i < |e| ==> t[i] == e[i];
    if |e| == 6 {
      HexIsRead(c as nat / 16);
      HexIsRead(c as nat % 16);
      assert t[2..][4..] == x;
    }
  }

  lemma {:induction false} CharsAreRead(s: string, r: string)
    ensures ReadChars(Escape(s) + ("\"" + r)) == Read(s, r)
  {
    hide EscapeChar, ReadChar;
    EscapeStarts(s, r);
    if s != "" {
      EscapedIsRead(s[0], Escape(s[1..]) + ("\"" + r));
      CharsAreRead(s[1..], r);
      assert s == [s[0]] + s[1..];
    }
  }

  lemma StringIsRead(s: string, r: string)
    ensures ReadString(PrintString(s) + r) == Read(s, r)
  {
    hide Escape, ReadChars;
    assert PrintString(s) + r == "\"" + (Escape(s) + ("\"" + r));
    assert (PrintString(s) + r)[1..] == Escape(s) + ("\"" + r);
    CharsAreRead(s, r);
  }

  lemma NumberIsRead(x: NumberText, r: string)
    requires Delimited(r)
    ensures ReadValue(x + r) == Read(Number(x), r)
  {
    hide NumberEnd;
    var t := x + r;
    var n := NumberEnd(t);
    assert forall i :: 0 <= i < |x| ==> t[i] == x[i];
    assert r != "" ==> t[|x|] == r[0];
    assert n == |x|;
    assert t[..n] == x && t[n..] == r;
  }

  lemma WordIsRead(v: Value, r: string)
    requires v.Null? || v.Bool?
    ensures ReadValue(Print(v) + r) == Read(v, r)
  {
    var word := Print(v);
    var t := word + r;
    assert word <= t && t[|word|..] == r && t[0] == word[0];
  }

  /** Every value, before any delimiter, is read back up to the order of object keys, and
      nothing after it is touched. */
  lemma {:induction false} PrintedIsRead(v: Value, r: string)
    requires Delimited(r)
    ensures var read := ReadValue(Print(v) + r);
            read.Read? && Same(v, read.what) && read.rest == r
    decreases v, 1, 0
  {
    match v
    case Number(x) => NumberIsRead(x, r);
    case String(s) =>
      StringIsRead(s, r);
      assert (Print(v) + r)[0] == '"';
    case Array(items) =>
      ArrayText(v, r);
      assert (Print(v) + r)[0] == '[';
      hide Print, PrintItems, PrintMoreItems, Same, ReadItems;
      ItemsAreRead(items, r, true);
      var read := ReadItems((Print(v) + r)[1..], true);
      SameItems(items, read.what);
    case Object(entries) =>
      var sorted := SortedEntries(entries);
      ObjectText(v, r);
      assert (Print(v) + r)[0] == '{';
      hide Print, PrintEntries, PrintMoreEntries, Same, ReadEntries;
      EntriesAreRead(v, sorted, r, true);
      var read := ReadEntries((Print(v) + r)[1..], true);
      SameEntries(entries, read.what);
    case _ => WordIsRead(v, r);
  }

  lemma SameItems(x: seq<Value>, y: seq<Value>)
    requires |x| == |y| && forall i :: 0 <= i < |x| ==> Same(x[i], y[i])
    ensures Same(Array(x), Array(y))
  {
  }

  lemma SameEntries(x: seq<Entry>, ys: seq<Entry>)
    requires InStep(SortedEntries(x), ys)
    ensures Same(Object(x), Object(ys))
  {
    var xs := SortedEntries(x);
    forall i | 0 <= i < |x|
      ensures exists j :: 0 <= j < |ys| && x[i].key == ys[j].key && Same(x[i].value, ys[j].value)
    {
      assert x[i] in xs;
      var k :| 0 <= k < |xs| && xs[k] == x[i];
      assert x[i].key == ys[k].key && Same(x[i].value, ys[k].value);
    }
  }

  /** What `items` print to up to their closing bracket, behind a comma unless first. */
  function ItemsText(items: seq<Value>, first: bool, r: string): string {
    (if first then PrintItems(items) else PrintMoreItems(items)) + ("]" + r)
  }

  lemma ItemsTextStarts(items: seq<Value>, first: bool, r: string)
    ensures var t := ItemsText(items, first, r);
            t != "" && (t[0] == ']' <==> items == [])
            && (items == [] ==> t[1..] == r)
            && (items != [] ==>
                  (first || t[0] == ',')
                  && (if first then t else t[1..]) == Print(items[0]) + ItemsText(items[1..], false, r))
  {
    hide Print;
    if first {
      EmptyOrNot(items, "]" + r);
      if items != [] {
        Associative(Print(items[0]), PrintMoreItems(items[1..]), "]" + r);
      }
    } else {
      MoreItemsText(items, r);
    }
  }

  lemma {:induction false} ItemsAreRead(items: seq<Value>, r: string, first: bool)
    ensures var read := ReadItems(ItemsText(items, first, r), first);
            read.Read? && read.rest == r && |read.what| == |items|
            && forall i :: 0 <= i < |items| ==> Same(items[i], read.what[i])
    decreases items, 0, 0
  {
    hide Print, ItemsText, Same, ReadValue;
    ItemsTextStarts(items, first, r);
    if items != [] {
      var rest := ItemsText(items[1..], false, r);
      ItemsTextDelimits(items[1..], r);
      PrintedIsRead(items[0], rest);
      ItemsAreRead(items[1..], r, false);
      var more := ReadItems(rest, false);
      var read := ReadItems(ItemsText(items, first, r), first);
      assert read.what[0] == ReadValue(Print(items[0]) + rest).what && read.what[1..] == more.what;
      forall i | 0 < i < |items|
        ensures Same(items[i], read.what[i])
      {
        assert items[1..][i - 1] == items[i] && more.what[i - 1] == read.what[i];
      }
    }
  }

  lemma ItemsTextDelimits(items: seq<Value>, r: string)
    ensures Delimited(ItemsText(items, false, r))
  {
    hide Print, PrintMoreItems;
    MoreItemsText(items, r);
  }

  function EntriesText(v: Value, entries: seq<Entry>, first: bool, r: string): string
    requires PartsOf(v, entries)
  {
    (if first then PrintEntries(v, entries) else PrintMoreEntries(v, entries)) + ("}" + r)
  }

  /** The text of one entry before `rest`. */
  function OneEntryText(e: Entry, rest: string): string {
    PrintString(e.key) + (":" + (Print(e.value) + rest))
  }

  lemma EntriesTextStarts(v: Value, entries: seq<Entry>, first: bool, r: string)
    requires PartsOf(v, entries)
    ensures var t := EntriesText(v, entries, first, r);
            t != "" && (t[0] == '}' <==> entries == [])
            && (entries == [] ==> t[1..] == r)
            && (entries != [] ==>
                  (first || t[0] == ',')
                  && (if first then t else t[1..]) == OneEntryText(entries[0], EntriesText(v, entries[1..], false, r)))
  {
    MoreEntriesText(v, entries, r);
    hide PrintString, Print;
    if first {
      NoEntryOrSome(v, entries, "}" + r);
      hide PrintEntries, PrintMoreEntries;
      if entries == [] {
        NoEntries(v);
      } else {
        CommaFirst(v, entries, r);
        var t := EntriesText(v, entries, true, r);
        assert ("," + t)[1..] == t;
      }
    } else {
      hide PrintMoreEntries;
    }
  }

  lemma NoEntries(v: Value)
    requires PartsOf(v, [])
    ensures PrintEntries(v, []) == ""
  {
  }

  lemma CommaFirst(v: Value, entries: seq<Entry>, r: string)
    requires PartsOf(v, entries) && entries != []
    ensures PrintMoreEntries(v, entries) + ("}" + r) == "," + (PrintEntries(v, entries) + ("}" + r))
  {
    EntriesByMore(v, entries);
  }

  lemma {:induction false} EntryIsRead(e: Entry, rest: string)
    requires Delimited(rest)
    ensures var read := ReadEntry(OneEntryText(e, rest));
            read.Read? && read.rest == rest && read.what.key == e.key && Same(e.value, read.what.value)
    decreases e.value, 2, 0
  {
    PrintedIsRead(e.value, rest);
    hide Print, PrintString, Same, ReadValue, ReadString;
    var text := Print(e.value) + rest;
    StringIsRead(e.key, ":" + text);
    assert (":" + text)[1..] == text;
  }

  lemma {:induction false} EntriesAreRead(v: Value, entries: seq<Entry>, r: string, first: bool)
    requires PartsOf(v, entries)
    ensures var read := ReadEntries(EntriesText(v, entries, first, r), first);
            read.Read? && read.rest == r && InStep(entries, read.what)
    decreases v, 0, |entries|
  {
    hide OneEntryText, EntriesText, Same, ReadEntry;
    EntriesTextStarts(v, entries, first, r);
    if entries != [] {
      assert entries[0] in entries;
      var rest := EntriesText(v, entries[1..], false, r);
      EntriesTextDelimits(v, entries[1..], r);
      EntryIsRead(entries[0], rest);
      EntriesAreRead(v, entries[1..], r, false);
      var read := ReadEntries(EntriesText(v, entries, first, r), first);
      assert read.what[1..] == ReadEntries(rest, false).what;
      InStepFurther(entries, read.what);
    }
  }

  lemma EntriesTextDelimits(v: Value, entries: seq<Entry>, r: string)
    requires PartsOf(v, entries)
    ensures Delimited(EntriesText(v, entries, false, r))
  {
    hide Print, PrintMoreEntries;
    MoreEntriesText(v, entries, r);
  }

  /** The keys of an object stand in ascending order in its text. */
  lemma KeysAscend(entries: seq<Entry>, r: string)
    requires WellFormed(Object(entries))
    ensures var read := ReadValue(Print(Object(entries)) + r);
            read.Read? && read.what.Object? && read.rest == r
            && forall i, j :: 0 <= i < j < |read.what.entries| ==>
                 AtMost(read.what.entries[i].key, read.what.entries[j].key)
                 && read.what.entries[i].key != read.what.entries[j].key
  {
    var v := Object(entries);
    var sorted := SortedEntries(entries);
    ObjectText(v, r);
    assert (Print(v) + r)[0] == '{';
    SortedKeys(entries);
    hide Print, PrintEntries, PrintMoreEntries, Same, ReadEntries, SortedEntries;
    EntriesAreRead(v, sorted, r, true);
    var ys := ReadEntries((Print(v) + r)[1..], true).what;
    forall i, j | 0 <= i < j < |ys|
      ensures AtMost(ys[i].key, ys[j].key) && ys[i].key != ys[j].key
    {
      assert Keys(sorted)[i] == ys[i].key && Keys(sorted)[j] == ys[j].key;
    }
  }
}

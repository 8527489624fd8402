/** White space at the ends of a text, as str::trim and its halves take it off. */
module Whitespace {
  /** The characters of Unicode's White_Space property. */
  predicate White(c: char) {
    '\t' <= c <= '\r' || c == ' ' || c == '\U{85}' || c == '\U{A0}' || c == '\U{1680}' || '\U{2000}' <= c <= '\U{200A}'
    || c == '\U{2028}' || c == '\U{2029}' || c == '\U{202F}' || c == '\U{205F}' || c == '\U{3000}'
  }

  /** By their code points: 25 of them. */
  lemma WhiteByCode(c: char)
    ensures White(c) <==> c as int in {9, 10, 11, 12, 13, 32, 133, 160, 5760, 8232, 8233, 8239, 8287, 12288}
                          || 8192 <= c as int <= 8202
  {
  }

  predicate AllWhite(s: string) {
    forall i :: 0 <= i < |s| ==> White(s[i])
  }

  /** A text that trimming leaves as it is. */
  predicate Trimmed(s: string) {
    s == "" || (!White(s[0]) && !White(s[|s| - 1]))
  }

  function TrimStart(s: string): string {
    if s != "" && White(s[0]) then TrimStart(s[1..]) else s
  }

  function TrimEnd(s: string): string {
    if s != "" && White(s[|s| - 1]) then TrimEnd(s[..|s| - 1]) else s
  }

  function Trim(s: string): string {
    TrimEnd(TrimStart(s))
  }

  lemma {:induction false} TrimStartTakes(before: string, s: string)
    requires AllWhite(before) && (s == "" || !White(s[0]))
    ensures TrimStart(before + s) == s
  {
    if before == "" {
      assert before + s == s;
    } else {
      assert (before + s)[1..] == before[1..] + s;
      TrimStartTakes(before[1..], s);
    }
  }

  lemma {:induction false} TrimEndTakes(s: string, after: string)
    requires AllWhite(after) && (s == "" || !White(s[|s| - 1]))
    ensures TrimEnd(s + after) == s
  {
    if after == "" {
      assert s + after == s;
    } else {
      var last := |after| - 1;
      assert (s + after)[..|s| + last] == s + after[..last] && (s + after)[|s| + last] == after[last];
      TrimEndTakes(s, after[..last]);
    }
  }

  lemma {:induction false} TrimStartOfWhite(s: string)
    requires AllWhite(s)
    ensures TrimStart(s) == ""
  {
    if s != "" {
      TrimStartOfWhite(s[1..]);
    }
  }

  /** Trimming finds the text between any white space before and after it. */
  lemma TrimFinds(before: string, s: string, after: string)
    requires AllWhite(before) && AllWhite(after) && Trimmed(s)
    ensures Trim(before + (s + after)) == s
  {
    hide TrimStart, TrimEnd, White;
    if s == "" {
      TrimStartOfWhite(before + (s + after));
      TrimEndTakes("", "");
      assert "" + "" == "";
    } else {
      TrimStartTakes(before, s + after);
      TrimEndTakes(s, after);
    }
  }
}

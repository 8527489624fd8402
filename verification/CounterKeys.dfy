/** The string under which a counter is stored. Scope ids are arbitrary text,
    so the separator may occur inside them; the key still determines the counter. */
module CounterKeys {
  import opened Results
  import opened QuotaPlanning
  import Durations

  function ScopeName(scope: ScopeKind): string {
    match scope
    case Tenant => "tenant"
    case Provider => "provider"
    case Credential => "credential"
    case Deployment => "deployment"
  }

  function WindowName(window: Window): string {
    match window
    case InFlight => "in_flight"
    case Minute => "minute"
    case Day => "day"
  }

  function DimensionName(dimension: Dimension): string {
    match dimension
    case Concurrency => "concurrency"
    case Requests => "requests"
    case Tokens => "tokens"
  }

  function Decimal(n: nat): (s: string)
    ensures |s| > 0 && forall i :: 0 <= i < |s| ==> '0' <= s[i] <= '9'
  {
    var last := ['0' + (n % 10) as char];
    if n < 10 then last else Decimal(n / 10) + last
  }

  lemma {:induction false} DecimalIsInjective(m: nat, n: nat)
    requires Decimal(m) == Decimal(n)
    ensures m == n
  {
    var s, t := Decimal(m), Decimal(n);
    assert s[|s| - 1] == t[|t| - 1];
    if m >= 10 && n >= 10 {
      assert s[..|s| - 1] == Decimal(m / 10) && t[..|t| - 1] == Decimal(n / 10);
      DecimalIsInjective(m / 10, n / 10);
    }
  }

  /** Reading the digits gives the number back. */
  lemma {:induction false} DecimalIsRead(n: nat)
    ensures Durations.Number(Decimal(n)) == n
  {
    var front := if n < 10 then "" else Decimal(n / 10);
    var last := '0' + (n % 10) as char;
    if n >= 10 {
      DecimalIsRead(n / 10);
    }
    assert Decimal(n) == front + [last];
    Durations.Grow(front, last, Decimal(n));
  }

  function CounterKey(c: Counter): string {
    ScopeName(c.scope) + ":" + (KeyBody(c) + DaySuffix(c.dayBucket))
  }

  function KeyBody(c: Counter): string {
    c.scopeId + ":" + WindowName(c.window) + ":" + DimensionName(c.dimension)
  }

  function DaySuffix(dayBucket: Option<nat>): string {
    match dayBucket
    case None => ""
    case Some(bucket) => ":" + Decimal(bucket)
  }

  /** A key spells the kind of scope, its id, the window, the dimension and, for a daily
      counter, the day. */
  lemma KeySpells(c: Counter)
    ensures var scope := match c.scope
                         case Tenant => "tenant" case Provider => "provider"
                         case Credential => "credential" case Deployment => "deployment";
            var window := match c.window case InFlight => "in_flight" case Minute => "minute" case Day => "day";
            var dimension := match c.dimension
                             case Concurrency => "concurrency" case Requests => "requests" case Tokens => "tokens";
            var day := if c.dayBucket.Some? then ":" + Decimal(c.dayBucket.value) else "";
            CounterKey(c) == scope + ":" + c.scopeId + ":" + window + ":" + dimension + day
  {
    hide ScopeName, WindowName, DimensionName, Decimal;
    var (scope, window, dimension) := (ScopeName(c.scope), WindowName(c.window), DimensionName(c.dimension));
    assert CounterKey(c) == scope + ":" + c.scopeId + ":" + window + ":" + dimension + DaySuffix(c.dayBucket);
    NamesAre(c);
  }

  lemma NamesAre(c: Counter)
    ensures ScopeName(c.scope) == match c.scope
                                  case Tenant => "tenant" case Provider => "provider"
                                  case Credential => "credential" case Deployment => "deployment"
    ensures WindowName(c.window) == match c.window case InFlight => "in_flight" case Minute => "minute" case Day => "day"
    ensures DimensionName(c.dimension) == match c.dimension
                                          case Concurrency => "concurrency" case Requests => "requests" case Tokens => "tokens"
  {
  }

  predicate ColonFree(s: string) {
    forall i :: 0 <= i < |s| ==> s[i] != ':'
  }

  lemma SplitAtFirstColon(a: string, x: string, b: string, y: string)
    requires ColonFree(a) && ColonFree(b) && a + ":" + x == b + ":" + y
    ensures a == b && x == y
  {
    var s, t := a + ":" + x, b + ":" + y;
    assert s[|a|] == ':' && t[|b|] == ':';
    assert |a| == |b|;
    assert a == s[..|a|] && b == t[..|b|] && x == s[|a| + 1..] && y == t[|b| + 1..];
  }

  lemma SplitAtLastColon(a: string, x: string, b: string, y: string)
    requires ColonFree(x) && ColonFree(y) && a + ":" + x == b + ":" + y
    ensures a == b && x == y
  {
    var s, t := a + ":" + x, b + ":" + y;
    assert s[|a|] == ':' && t[|b|] == ':';
    forall k | |a| < k < |s|
      ensures s[k] != ':'
    {
      assert s[k] == x[k - |a| - 1];
    }
    forall k | |b| < k < |t|
      ensures t[k] != ':'
    {
      assert t[k] == y[k - |b| - 1];
    }
    assert |a| == |b|;
    assert a == s[..|a|] && b == t[..|b|] && x == s[|a| + 1..] && y == t[|b| + 1..];
  }

  lemma NamesAreInjective(c: Counter, d: Counter)
    ensures ScopeName(c.scope) == ScopeName(d.scope) ==> c.scope == d.scope
    ensures WindowName(c.window) == WindowName(d.window) ==> c.window == d.window
    ensures DimensionName(c.dimension) == DimensionName(d.dimension) ==> c.dimension == d.dimension
  {
    assert "tenant"[0] == 't' && "provider"[0] == 'p' && "credential"[0] == 'c' && "deployment"[0] == 'd';
    assert "in_flight"[0] == 'i' && "minute"[0] == 'm' && "day"[0] == 'd';
    assert "concurrency"[0] == 'c' && "requests"[0] == 'r' && "tokens"[0] == 't';
  }

  /** The last segment tells a day bucket (digits) from a dimension (letters). */
  lemma DimensionIsNoNumber(dimension: Dimension, n: nat)
    ensures DimensionName(dimension) != Decimal(n) && ColonFree(DimensionName(dimension)) && ColonFree(Decimal(n))
  {
    assert !('0' <= DimensionName(dimension)[0] <= '9');
  }

  lemma BucketOrNone(c: Counter, d: Counter, bucket: nat)
    ensures KeyBody(c) + DaySuffix(Some(bucket)) != KeyBody(d) + DaySuffix(None)
  {
    DimensionIsNoNumber(d.dimension, bucket);
    if KeyBody(c) + DaySuffix(Some(bucket)) == KeyBody(d) + DaySuffix(None) {
      assert KeyBody(d) + "" == KeyBody(d);
      assert KeyBody(c) + DaySuffix(Some(bucket)) == KeyBody(c) + ":" + Decimal(bucket);
      SplitAtLastColon(KeyBody(c), Decimal(bucket), d.scopeId + ":" + WindowName(d.window), DimensionName(d.dimension));
    }
  }

  lemma DaySuffixSplits(c: Counter, d: Counter)
    requires KeyBody(c) + DaySuffix(c.dayBucket) == KeyBody(d) + DaySuffix(d.dayBucket)
    ensures c.dayBucket == d.dayBucket && KeyBody(c) == KeyBody(d)
  {
    hide KeyBody, Decimal;
    match (c.dayBucket, d.dayBucket)
    case (Some(i), Some(j)) => BucketsSplit(KeyBody(c), i, KeyBody(d), j);
    case (Some(i), None) => BucketOrNone(c, d, i);
    case (None, Some(j)) => BucketOrNone(d, c, j);
    case (None, None) =>
      assert KeyBody(c) + "" == KeyBody(c) && KeyBody(d) + "" == KeyBody(d);
  }

  lemma BucketsSplit(a: string, i: nat, b: string, j: nat)
    requires a + DaySuffix(Some(i)) == b + DaySuffix(Some(j))
    ensures a == b && i == j
  {
    DimensionIsNoNumber(Requests, i);
    DimensionIsNoNumber(Requests, j);
    hide Decimal, ColonFree;
    var s, t := Decimal(i), Decimal(j);
    assert a + (":" + s) == a + ":" + s && b + (":" + t) == b + ":" + t;
    SplitAtLastColon(a, s, b, t);
    DecimalIsInjective(i, j);
  }

  lemma ScopeNamesAreColonFree(scope: ScopeKind)
    ensures ColonFree(ScopeName(scope))
  {
  }

  /** Distinct counters never share a key, so keying the ledger by the counter
      itself is the same ledger. */
  lemma CounterKeyIsInjective(c: Counter, d: Counter)
    requires CounterKey(c) == CounterKey(d)
    ensures c == d
  {
    hide KeyBody, Decimal, DaySuffix, ColonFree, ScopeName;
    NamesAreInjective(c, d);
    ScopeNamesAreColonFree(c.scope);
    ScopeNamesAreColonFree(d.scope);
    var x, y := KeyBody(c) + DaySuffix(c.dayBucket), KeyBody(d) + DaySuffix(d.dayBucket);
    assert ScopeName(c.scope) + (":" + x) == ScopeName(c.scope) + ":" + x;
    assert ScopeName(d.scope) + (":" + y) == ScopeName(d.scope) + ":" + y;
    SplitAtFirstColon(ScopeName(c.scope), x, ScopeName(d.scope), y);
    DaySuffixSplits(c, d);
    KeyBodyIsInjective(c, d);
  }

  lemma KeyBodyIsInjective(c: Counter, d: Counter)
    requires KeyBody(c) == KeyBody(d)
    ensures c.scopeId == d.scopeId && c.window == d.window && c.dimension == d.dimension
  {
    NamesAreInjective(c, d);
    SplitAtLastColon(c.scopeId + ":" + WindowName(c.window), DimensionName(c.dimension),
                     d.scopeId + ":" + WindowName(d.window), DimensionName(d.dimension));
    SplitAtLastColon(c.scopeId, WindowName(c.window), d.scopeId, WindowName(d.window));
  }
}

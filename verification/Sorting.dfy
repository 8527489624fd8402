/** A stable sort by a comparison, standing for the library sorts the source calls. */
module Sorting {
  /** Reads as: x may stand before y. */
  type Order<!T> = (T, T) -> bool

  ghost predicate IsOrder<T(!new)>(le: Order<T>) {
    (forall x, y :: le(x, y) || le(y, x))
    && (forall x, y, z :: le(x, y) && le(y, z) ==> le(x, z))
  }

  /** The order tells any two positions of s apart. */
  ghost predicate Separated<T>(le: Order<T>, s: seq<T>) {
    forall i, j :: 0 <= i < j < |s| ==> !(le(s[i], s[j]) && le(s[j], s[i]))
  }

  ghost predicate StrictlySorted<T>(le: Order<T>, s: seq<T>) {
    forall i, j :: 0 <= i < j < |s| ==> le(s[i], s[j]) && !le(s[j], s[i])
  }

  function Insert<T>(le: Order<T>, x: T, s: seq<T>): seq<T> {
    if s == [] || le(x, s[0]) then [x] + s else [s[0]] + Insert(le, x, s[1..])
  }

  function Sort<T>(le: Order<T>, s: seq<T>): seq<T> {
    if s == [] then [] else Insert(le, s[0], Sort(le, s[1..]))
  }

  lemma {:induction false} InsertKeepsElements<T>(le: Order<T>, x: T, s: seq<T>)
    ensures |Insert(le, x, s)| == |s| + 1
    ensures forall y :: y in Insert(le, x, s) <==> y == x || y in s
  {
    if s != [] {
      assert forall y :: y in s <==> y == s[0] || y in s[1..];
      if !le(x, s[0]) {
        InsertKeepsElements(le, x, s[1..]);
      }
    }
  }

  lemma {:induction false} SortKeepsElements<T>(le: Order<T>, s: seq<T>)
    ensures |Sort(le, s)| == |s|
    ensures forall y :: y in Sort(le, s) <==> y in s
  {
    if s != [] {
      SortKeepsElements(le, s[1..]);
      InsertKeepsElements(le, s[0], Sort(le, s[1..]));
    }
  }

  lemma {:induction false} InsertSorts<T(!new)>(le: Order<T>, x: T, s: seq<T>)
    requires IsOrder(le) && StrictlySorted(le, s)
    requires forall y :: y in s ==> !(le(x, y) && le(y, x))
    ensures StrictlySorted(le, Insert(le, x, s))
  {
    if s != [] {
      if le(x, s[0]) {
        forall i | 0 <= i < |s|
          ensures le(x, s[i]) && !le(s[i], x)
        {
          assert s[i] in s;
        }
      } else {
        InsertSorts(le, x, s[1..]);
        InsertKeepsElements(le, x, s[1..]);
        var t := Insert(le, x, s[1..]);
        forall i | 0 <= i < |t|
          ensures le(s[0], t[i]) && !le(t[i], s[0])
        {
          assert t[i] in t;
        }
      }
    }
  }

  lemma {:induction false} SortSorts<T(!new)>(le: Order<T>, s: seq<T>)
    requires IsOrder(le) && Separated(le, s)
    ensures StrictlySorted(le, Sort(le, s))
  {
    if s != [] {
      SortSorts(le, s[1..]);
      SortKeepsElements(le, s[1..]);
      InsertSorts(le, s[0], Sort(le, s[1..]));
    }
  }

  /** Two strictly sorted arrangements of the same elements are the same. */
  lemma {:induction false} SortedIsUnique<T(!new)>(le: Order<T>, a: seq<T>, b: seq<T>)
    requires StrictlySorted(le, a) && StrictlySorted(le, b)
    requires forall x :: x in a <==> x in b
    ensures a == b
    decreases |a|
  {
    assert |b| > 0 ==> b[0] in b;
    if a != [] {
      assert a[0] in b;
      var i :| 0 <= i < |b| && b[i] == a[0];
      assert b[0] in a;
      var j :| 0 <= j < |a| && a[j] == b[0];
      assert i == 0;
      TailElements(le, a);
      TailElements(le, b);
      SortedIsUnique(le, a[1..], b[1..]);
      assert a == [a[0]] + a[1..] && b == [b[0]] + b[1..];
    }
  }

  lemma TailElements<T(!new)>(le: Order<T>, s: seq<T>)
    requires StrictlySorted(le, s) && s != []
    ensures StrictlySorted(le, s[1..])
    ensures forall x :: x in s[1..] <==> x in s && x != s[0]
  {
    assert forall x :: x in s <==> x == s[0] || x in s[1..];
  }

  /** Sorting forgets the order of its input. */
  lemma SortIgnoresOrder<T(!new)>(le: Order<T>, s: seq<T>, t: seq<T>)
    requires IsOrder(le) && Separated(le, s) && Separated(le, t)
    requires forall x :: x in s <==> x in t
    ensures Sort(le, s) == Sort(le, t)
  {
    SortKeepsElements(le, s);
    SortKeepsElements(le, t);
    SortSorts(le, s);
    SortSorts(le, t);
    SortedIsUnique(le, Sort(le, s), Sort(le, t));
  }
}

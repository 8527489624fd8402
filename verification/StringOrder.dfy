/** The order of strings that the source's sorts and sorted maps use. */
module StringOrder {
  import opened Sorting

  predicate AtMost(a: string, b: string) {
    a == "" || (b != "" && (a[0] < b[0] || (a[0] == b[0] && AtMost(a[1..], b[1..]))))
  }

  lemma {:induction false} AtMostIsTotal(a: string, b: string)
    ensures AtMost(a, b) || AtMost(b, a)
  {
    if a != "" && b != "" && a[0] == b[0] {
      AtMostIsTotal(a[1..], b[1..]);
    }
  }

  lemma {:induction false} AtMostIsTransitive(a: string, b: string, c: string)
    requires AtMost(a, b) && AtMost(b, c)
    ensures AtMost(a, c)
  {
    if a != "" && a[0] == b[0] && b[0] == c[0] {
      AtMostIsTransitive(a[1..], b[1..], c[1..]);
    }
  }

  lemma {:induction false} AtMostIsAntisymmetric(a: string, b: string)
    requires AtMost(a, b) && AtMost(b, a)
    ensures a == b
  {
    if a != "" {
      AtMostIsAntisymmetric(a[1..], b[1..]);
    }
  }

  /** Ordering values by a string key. */
  lemma ByKeyIsOrder<T(!new)>(key: T -> string, le: Order<T>)
    requires forall x, y :: le(x, y) <==> AtMost(key(x), key(y))
    ensures IsOrder(le)
  {
    forall x, y
      ensures le(x, y) || le(y, x)
    {
      AtMostIsTotal(key(x), key(y));
    }
    forall x, y, z | le(x, y) && le(y, z)
      ensures le(x, z)
    {
      AtMostIsTransitive(key(x), key(y), key(z));
    }
  }

  predicate Less(a: string, b: string) {
    AtMost(a, b) && a != b
  }

  /** The order of dictionaries: the first difference decides, and a prefix comes first. */
  lemma {:induction false} AtMostIsDictionaryOrder(a: string, b: string)
    ensures AtMost(a, b) <==>
            exists i :: 0 <= i <= |a| && i <= |b| && a[..i] == b[..i] && (i == |a| || (i < |b| && a[i] < b[i]))
  {
    if a == "" {
      assert a[..0] == b[..0];
    } else if b != "" && a[0] == b[0] {
      AtMostIsDictionaryOrder(a[1..], b[1..]);
      forall i | 0 < i <= |a| && i <= |b|
        ensures a[..i] == b[..i] <==> a[1..][..i - 1] == b[1..][..i - 1]
      {
        assert a[..i] == [a[0]] + a[1..][..i - 1] && b[..i] == [b[0]] + b[1..][..i - 1];
      }
      if i :| 0 <= i <= |a| && i <= |b| && a[..i] == b[..i] && (i == |a| || (i < |b| && a[i] < b[i])) {
        assert i > 0 && a[1..][..i - 1] == b[1..][..i - 1];
      }
      if AtMost(a[1..], b[1..]) {
        var j :| 0 <= j <= |a[1..]| && j <= |b[1..]| && a[1..][..j] == b[1..][..j]
                 && (j == |a[1..]| || (j < |b[1..]| && a[1..][j] < b[1..][j]));
        assert a[..j + 1] == b[..j + 1];
      }
    } else {
      assert a[..0] == b[..0];
      if i :| 0 <= i <= |a| && i <= |b| && a[..i] == b[..i] && (i == |a| || (i < |b| && a[i] < b[i])) {
        assert i > 0 ==> a[..i][0] == b[..i][0];
      }
    }
  }
}

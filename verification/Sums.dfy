/** Sums over the values of a finite map. */
module Sums {
  ghost function Sum<K(!new)>(m: map<K, nat>): nat {
    if m.Keys == {} then 0
    else
      var k :| k in m.Keys;
      m[k] + Sum(m - {k})
  }

  lemma {:induction false} SumRemove<K(!new)>(m: map<K, nat>, k: K)
    requires k in m
    ensures Sum(m) == m[k] + Sum(m - {k})
    decreases |m|
  {
    var first :| first in m.Keys && Sum(m) == m[first] + Sum(m - {first});
    if first != k {
      SumRemove(m - {first}, k);
      SumRemove(m - {k}, first);
      assert m - {first} - {k} == m - {k} - {first};
    }
  }

  lemma SumSet<K(!new)>(m: map<K, nat>, k: K, v: nat)
    ensures Sum(m[k := v]) == (if k in m then Sum(m) - m[k] else Sum(m)) + v
    ensures k in m ==> m[k] <= Sum(m)
  {
    SumRemove(m[k := v], k);
    assert m[k := v] - {k} == m - {k};
    if k in m {
      SumRemove(m, k);
    } else {
      assert m - {k} == m;
    }
  }

  lemma {:induction false} SumOfOnes<K(!new)>(m: map<K, nat>)
    requires forall k :: k in m ==> m[k] == 1
    ensures Sum(m) == |m|
    decreases |m|
  {
    if m.Keys != {} {
      var k :| k in m.Keys;
      SumRemove(m, k);
      SumOfOnes(m - {k});
      assert (m - {k}).Keys == m.Keys - {k};
    } else {
      assert m == map[];
    }
  }

  lemma {:induction false} SumOfPart<K(!new)>(part: map<K, nat>, whole: map<K, nat>)
    requires part.Keys <= whole.Keys && forall k :: k in part ==> part[k] == whole[k]
    ensures Sum(part) <= Sum(whole)
    decreases |part|
  {
    if part.Keys != {} {
      var k :| k in part;
      SumRemove(part, k);
      SumRemove(whole, k);
      assert (part - {k}).Keys == part.Keys - {k};
      SumOfPart(part - {k}, whole - {k});
    } else {
      assert part == map[];
    }
  }

  lemma RenamedRest<K(!new), L(!new)>(f: map<K, L>, k: K)
    requires k in f && forall a, b :: a in f && b in f && f[a] == f[b] ==> a == b
    ensures (f - {k}).Values == f.Values - {f[k]}
  {
    forall l | l in f.Values - {f[k]}
      ensures l in (f - {k}).Values
    {
      var a :| a in f && f[a] == l;
      assert a in (f - {k}) && (f - {k})[a] == l;
    }
  }

  lemma RenamedRestAgrees<K(!new), L(!new)>(m: map<K, nat>, n: map<L, nat>, f: map<K, L>, k: K)
    requires f.Keys == m.Keys && f.Values == n.Keys && k in f
    requires forall a, b :: a in f && b in f && f[a] == f[b] ==> a == b
    requires forall a :: a in m ==> f[a] in n && n[f[a]] == m[a]
    ensures (f - {k}).Keys == (m - {k}).Keys && (f - {k}).Values == (n - {f[k]}).Keys
    ensures |m| == |m - {k}| + 1 && |n| == |n - {f[k]}| + 1
  {
    RenamedRest(f, k);
    assert (m - {k}).Keys == m.Keys - {k} && (n - {f[k]}).Keys == n.Keys - {f[k]};
  }

  /** Renaming the keys one-to-one does not change the sum. */
  lemma {:induction false} SumRenamed<K(!new), L(!new)>(m: map<K, nat>, n: map<L, nat>, f: map<K, L>)
    requires f.Keys == m.Keys && f.Values == n.Keys
    requires forall a, b :: a in f && b in f && f[a] == f[b] ==> a == b
    requires forall a :: a in m ==> f[a] in n && n[f[a]] == m[a]
    ensures Sum(m) == Sum(n) && |m| == |n|
    decreases |m|
  {
    if m.Keys == {} {
      assert f == map[];
      assert n.Keys == {};
      assert m == map[] && n == map[];
    } else {
      hide Sum;
      var k :| k in m.Keys;
      SumRemove(m, k);
      SumRemove(n, f[k]);
      RenamedRestAgrees(m, n, f, k);
      SumRenamed(m - {k}, n - {f[k]}, f - {k});
    }
  }
}

/** The in-memory budget (urouter-gateway/src/budget.rs): reservations against a
    tenant's allowance for a period, with a running total per tenant and period. */
module Budget {
  import opened Arithmetic
  import opened Sums

  datatype Account<T> = Account(tenant: T, period: nat)

  datatype Key<T, Q> = Key(account: Account<T>, request: Q)

  datatype State<T(==), Q(==)> = State(totals: map<Account<T>, nat>, reservations: map<Key<T, Q>, nat>)

  datatype Reservation<T, Q> = Granted(permit: Key<T, Q>) | Rejected

  function AtLeastOne(n: nat): (m: nat)
    ensures n <= m <= n + 1 && m > 0 && (n > 0 ==> m == n)
  {
    if n == 0 then 1 else n
  }

  function PeriodAt(nowSeconds: nat, periodSeconds: nat): nat {
    nowSeconds / AtLeastOne(periodSeconds)
  }

  function TotalOf<T(==)>(totals: map<Account<T>, nat>, a: Account<T>): nat {
    if a in totals then totals[a] else 0
  }

  ghost function OfAccount<T, Q>(reservations: map<Key<T, Q>, nat>, a: Account<T>): map<Key<T, Q>, nat> {
    map k | k in reservations && k.account == a :: reservations[k]
  }

  /** Every running total is the sum of the reservations it stands for. */
  ghost predicate Conserved<T(!new), Q(!new)>(s: State<T, Q>) {
    forall a :: TotalOf(s.totals, a) == Sum(OfAccount(s.reservations, a))
  }

  function ReserveAnswer<T(==), Q(==)>(s: State<T, Q>, k: Key<T, Q>, estimated: nat, limit: nat): Reservation<T, Q> {
    if limit == 0 || k in s.reservations || TotalOf(s.totals, k.account) + estimated <= limit then Granted(k) else Rejected
  }

  function Reserved<T(==), Q(==)>(s: State<T, Q>, k: Key<T, Q>, estimated: nat, limit: nat): State<T, Q> {
    if limit == 0 || k in s.reservations || TotalOf(s.totals, k.account) + estimated > limit then s
    else State(s.totals[k.account := TotalOf(s.totals, k.account) + estimated], s.reservations[k := estimated])
  }

  /** The amount is stored before the reservation is looked for. */
  function Settled<T(==), Q(==)>(s: State<T, Q>, k: Key<T, Q>, actual: nat, limit: nat): State<T, Q> {
    if limit == 0 then s
    else
      var reservations := s.reservations[k := actual];
      if k !in s.reservations then s.(reservations := reservations)
      else State(s.totals[k.account := Minus(TotalOf(s.totals, k.account), s.reservations[k]) + actual], reservations)
  }

  function Released<T(==), Q(==)>(s: State<T, Q>, k: Key<T, Q>, limit: nat): State<T, Q> {
    if limit == 0 || k !in s.reservations then s
    else
      var reservations := s.reservations - {k};
      if k.account !in s.totals then s.(reservations := reservations)
      else
        var total := Minus(s.totals[k.account], s.reservations[k]);
        State(if total == 0 then s.totals - {k.account} else s.totals[k.account := total], reservations)
  }

  class MemoryBudget<T(==), Q(==)> {
    var totals: map<Account<T>, nat>
    var reservations: map<Key<T, Q>, nat>
    const limit: nat
    const periodSeconds: nat

    function Contents(): State<T, Q>
      reads this
    {
      State(totals, reservations)
    }

    constructor (limit: nat, periodSeconds: nat)
      ensures Contents() == State(map[], map[]) && this.limit == limit && this.periodSeconds == AtLeastOne(periodSeconds)
    {
      this.limit, this.periodSeconds := limit, AtLeastOne(periodSeconds);
      totals, reservations := map[], map[];
    }

    method Reserve(tenant: T, request: Q, estimated: nat, nowSeconds: nat) returns (r: Reservation<T, Q>)
      modifies `totals, `reservations
      ensures var k := Key(Account(tenant, PeriodAt(nowSeconds, periodSeconds)), request);
              r == ReserveAnswer(old(Contents()), k, estimated, limit)
              && Contents() == Reserved(old(Contents()), k, estimated, limit)
    {
      var period := PeriodAt(nowSeconds, periodSeconds);
      var key := Key(Account(tenant, period), request);
      if limit == 0 {
        return Granted(key);
      }
      if key in reservations {
        return Granted(key);
      }
      var total := TotalOf(totals, key.account);
      if limit > 0 && total + estimated > limit {
        return Rejected;
      }
      reservations := reservations[key := estimated];
      totals := totals[key.account := total + estimated];
      r := Granted(key);
    }

    method Settle(permit: Key<T, Q>, actual: nat)
      modifies `totals, `reservations
      ensures Contents() == Settled(old(Contents()), permit, actual, limit)
    {
      if limit == 0 {
        return;
      }
      var known := permit in reservations;
      var previous := if known then reservations[permit] else 0;
      reservations := reservations[permit := actual];
      if !known {
        return;
      }
      totals := totals[permit.account := Minus(TotalOf(totals, permit.account), previous) + actual];
    }

    method Release(permit: Key<T, Q>)
      modifies `totals, `reservations
      ensures Contents() == Released(old(Contents()), permit, limit)
    {
      if limit == 0 || permit !in reservations {
        return;
      }
      var previous := reservations[permit];
      reservations := reservations - {permit};
      if permit.account in totals {
        totals := totals[permit.account := Minus(totals[permit.account], previous)];
        if totals[permit.account] == 0 {
          totals := totals - {permit.account};
        }
      }
      assert Contents().totals == Released(old(Contents()), permit, limit).totals;
    }
  }

  // Conservation.

  lemma SetAmount<T(!new), Q(!new)>(reservations: map<Key<T, Q>, nat>, k: Key<T, Q>, v: nat, a: Account<T>)
    ensures Sum(OfAccount(reservations[k := v], a)) + (if k in reservations && k.account == a then reservations[k] else 0)
            == Sum(OfAccount(reservations, a)) + (if k.account == a then v else 0)
    ensures k in reservations && k.account == a ==> reservations[k] <= Sum(OfAccount(reservations, a))
  {
    if k.account == a {
      SumSet(OfAccount(reservations, a), k, v);
      assert OfAccount(reservations[k := v], a) == OfAccount(reservations, a)[k := v];
    } else {
      assert OfAccount(reservations[k := v], a) == OfAccount(reservations, a);
    }
  }

  lemma DropAmount<T(!new), Q(!new)>(reservations: map<Key<T, Q>, nat>, k: Key<T, Q>, a: Account<T>)
    requires k in reservations
    ensures Sum(OfAccount(reservations, a)) == Sum(OfAccount(reservations - {k}, a)) + (if k.account == a then reservations[k] else 0)
  {
    if k.account == a {
      SumRemove(OfAccount(reservations, a), k);
      assert OfAccount(reservations - {k}, a) == OfAccount(reservations, a) - {k};
    } else {
      assert OfAccount(reservations - {k}, a) == OfAccount(reservations, a);
    }
  }

  lemma ReserveConserves<T(!new), Q(!new)>(s: State<T, Q>, k: Key<T, Q>, estimated: nat, limit: nat)
    requires Conserved(s)
    ensures Conserved(Reserved(s, k, estimated, limit))
  {
    var after := Reserved(s, k, estimated, limit);
    forall a
      ensures TotalOf(after.totals, a) == Sum(OfAccount(after.reservations, a))
    {
      SetAmount(s.reservations, k, estimated, a);
    }
  }

  /** Reserving the same request again, whatever the amount, changes nothing and is granted. */
  lemma DuplicateChangesNothing<T, Q>(s: State<T, Q>, k: Key<T, Q>, estimated: nat, again: nat, limit: nat)
    requires limit > 0 && ReserveAnswer(s, k, estimated, limit).Granted?
    ensures var once := Reserved(s, k, estimated, limit);
            ReserveAnswer(once, k, again, limit) == Granted(k) && Reserved(once, k, again, limit) == once
  {
  }

  /** Settling keeps the totals right exactly when the reservation is live or nothing was spent. */
  lemma WhenSettleConserves<T(!new), Q(!new)>(s: State<T, Q>, k: Key<T, Q>, actual: nat, limit: nat)
    requires Conserved(s) && limit > 0
    ensures Conserved(Settled(s, k, actual, limit)) <==> k in s.reservations || actual == 0
  {
    var after := Settled(s, k, actual, limit);
    SetAmount(s.reservations, k, actual, k.account);
    assert TotalOf(s.totals, k.account) == Sum(OfAccount(s.reservations, k.account));
    if k in s.reservations || actual == 0 {
      forall a
        ensures TotalOf(after.totals, a) == Sum(OfAccount(after.reservations, a))
      {
        SetAmount(s.reservations, k, actual, a);
      }
    } else {
      assert TotalOf(after.totals, k.account) != Sum(OfAccount(after.reservations, k.account));
    }
  }

  lemma ReleaseConserves<T(!new), Q(!new)>(s: State<T, Q>, k: Key<T, Q>, limit: nat)
    requires Conserved(s)
    ensures Conserved(Released(s, k, limit))
    ensures limit > 0 && k in s.reservations && TotalOf(s.totals, k.account) == s.reservations[k] ==>
              k.account !in Released(s, k, limit).totals
  {
    if limit > 0 && k in s.reservations {
      var after := Released(s, k, limit);
      forall a
        ensures TotalOf(after.totals, a) == Sum(OfAccount(after.reservations, a))
      {
        DropAmount(s.reservations, k, a);
      }
    }
  }

  /** Settling a permit that was released and then releasing it again takes its amount out
      of what other requests reserved. */
  lemma LateSettleFreesOthers<T(!new), Q(!new)>(s: State<T, Q>, k: Key<T, Q>, actual: nat, limit: nat)
    requires Conserved(s) && limit > 0 && k !in s.reservations
    ensures TotalOf(Released(Settled(s, k, actual, limit), k, limit).totals, k.account)
            == Minus(TotalOf(s.totals, k.account), actual)
    ensures Released(Settled(s, k, actual, limit), k, limit).reservations == s.reservations
  {
    assert s.reservations[k := actual] - {k} == s.reservations;
  }

  // The reference: reservations alone.

  ghost function Spent<T(!new), Q(!new)>(book: map<Key<T, Q>, nat>, a: Account<T>): nat {
    Sum(OfAccount(book, a))
  }

  ghost predicate Refuses<T(!new), Q(!new)>(book: map<Key<T, Q>, nat>, k: Key<T, Q>, estimated: nat, limit: nat) {
    limit > 0 && k !in book && Spent(book, k.account) + estimated > limit
  }

  ghost function BookAnswer<T(!new), Q(!new)>(book: map<Key<T, Q>, nat>, k: Key<T, Q>, estimated: nat, limit: nat): Reservation<T, Q> {
    if Refuses(book, k, estimated, limit) then Rejected else Granted(k)
  }

  ghost function BookReserve<T(!new), Q(!new)>(book: map<Key<T, Q>, nat>, k: Key<T, Q>, estimated: nat, limit: nat): map<Key<T, Q>, nat> {
    if limit == 0 || k in book || Refuses(book, k, estimated, limit) then book else book[k := estimated]
  }

  ghost function BookSettle<T, Q>(book: map<Key<T, Q>, nat>, k: Key<T, Q>, actual: nat, limit: nat): map<Key<T, Q>, nat> {
    if limit > 0 && k in book then book[k := actual] else book
  }

  ghost function BookRelease<T, Q>(book: map<Key<T, Q>, nat>, k: Key<T, Q>, limit: nat): map<Key<T, Q>, nat> {
    if limit > 0 then book - {k} else book
  }

  /** The memory store follows the reference as long as only live reservations are settled. */
  lemma MemoryFollowsBook<T(!new), Q(!new)>(s: State<T, Q>, k: Key<T, Q>, amount: nat, limit: nat)
    requires Conserved(s)
    ensures ReserveAnswer(s, k, amount, limit) == BookAnswer(s.reservations, k, amount, limit)
    ensures Conserved(Reserved(s, k, amount, limit))
            && Reserved(s, k, amount, limit).reservations == BookReserve(s.reservations, k, amount, limit)
    ensures k in s.reservations ==> Conserved(Settled(s, k, amount, limit))
                                    && Settled(s, k, amount, limit).reservations == BookSettle(s.reservations, k, amount, limit)
    ensures Conserved(Released(s, k, limit)) && Released(s, k, limit).reservations == BookRelease(s.reservations, k, limit)
  {
    assert TotalOf(s.totals, k.account) == Spent(s.reservations, k.account);
    hide Conserved, TotalOf;
    ReserveConserves(s, k, amount, limit);
    ReleaseConserves(s, k, limit);
    if limit > 0 {
      WhenSettleConserves(s, k, amount, limit);
    }
    assert k !in s.reservations ==> s.reservations - {k} == s.reservations;
  }
}

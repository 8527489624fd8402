/** The Redis budget: two keys per tenant and period that expire together. */
module BudgetRedis {
  import opened Arithmetic
  import opened Sums
  import opened Budget

  /** The total, the hash of reservations, and the time both are dropped. */
  datatype Keys<Q(==)> = Keys(total: int, fields: map<Q, nat>, deadline: nat)

  type Store<T(==), Q(==)> = map<Account<T>, Keys<Q>>

  function Read<T(==), Q(==)>(store: Store<T, Q>, a: Account<T>, now: nat): Keys<Q> {
    if a in store && now <= store[a].deadline then store[a] else Keys(0, map[], 0)
  }

  /** Every total is the sum of its hash, and the hash of a period that is not over
      holds the reservations made for it. */
  ghost predicate AccountOk<T(!new), Q(!new)>(store: Store<T, Q>, book: map<Key<T, Q>, nat>, a: Account<T>, now: nat, period: nat)
    requires period > 0
  {
    var keys := Read(store, a, now);
    keys.total == Sum(keys.fields)
    && (a in store ==> store[a].total == Sum(store[a].fields) && store[a].deadline >= (a.period + 1) * period)
    && (a.period >= now / period ==>
          (forall q :: q in keys.fields ==> Key(a, q) in book && book[Key(a, q)] == keys.fields[q])
          && (forall q :: Key(a, q) in book ==> q in keys.fields))
  }

  ghost predicate StoreOk<T(!new), Q(!new)>(store: Store<T, Q>, book: map<Key<T, Q>, nat>, now: nat, period: nat)
    requires period > 0
  {
    forall a :: AccountOk(store, book, a, now, period)
  }

  lemma PeriodIsOpen(now: nat, n: nat, k: nat)
    requires k > 0 && n >= now / k
    ensures now < (n + 1) * k
  {
    assert k * (n - now / k) >= 0;
    assert (n + 1) * k == k * (now / k) + k + k * (n - now / k);
  }

  /** Time only drops keys of periods that are over. */
  lemma LaterStore<T(!new), Q(!new)>(store: Store<T, Q>, book: map<Key<T, Q>, nat>, clock: nat, now: nat, period: nat)
    requires period > 0 && clock <= now && StoreOk(store, book, clock, period)
    ensures StoreOk(store, book, now, period)
  {
    DivOrder(clock, now, period);
    forall a
      ensures AccountOk(store, book, a, now, period)
    {
      assert AccountOk(store, book, a, clock, period);
      if a.period >= now / period {
        PeriodIsOpen(now, a.period, period);
      }
    }
  }

  /** The stored total of an open period is what the reference has spent. */
  lemma TotalIsSpent<T(!new), Q(!new)>(store: Store<T, Q>, book: map<Key<T, Q>, nat>, a: Account<T>, now: nat, period: nat)
    requires period > 0 && StoreOk(store, book, now, period) && a.period >= now / period
    ensures Read(store, a, now).total == Spent(book, a)
  {
    assert AccountOk(store, book, a, now, period);
    var fields := Read(store, a, now).fields;
    var held := OfAccount(book, a);
    var f := map q | q in fields :: Key(a, q);
    forall k | k in held
      ensures k in f.Values
    {
      assert k == Key(a, k.request) && k.request in fields;
      assert f[k.request] == k;
    }
    assert f.Values == held.Keys && f.Keys == fields.Keys;
    SumRenamed(fields, held, f);
  }

  /** One reservation of an account written or dropped, in the store and in the reference. */
  ghost predicate Rewritten<T(!new), Q(!new)>(book: map<Key<T, Q>, nat>, after: map<Key<T, Q>, nat>, k: Key<T, Q>) {
    forall x :: x != k ==> (x in after <==> x in book) && (x in book && x in after ==> after[x] == book[x])
  }

  lemma ReplaceAccount<T(!new), Q(!new)>(store: Store<T, Q>, book: map<Key<T, Q>, nat>, after: map<Key<T, Q>, nat>, k: Key<T, Q>,
                                         keys: Keys<Q>, now: nat, period: nat)
    requires period > 0 && StoreOk(store, book, now, period) && Rewritten(book, after, k)
    requires AccountOk(store[k.account := keys], after, k.account, now, period)
    ensures StoreOk(store[k.account := keys], after, now, period)
  {
    var next := store[k.account := keys];
    forall a
      ensures AccountOk(next, after, a, now, period)
    {
      assert AccountOk(store, book, a, now, period);
    }
  }

  class RedisBudget<T(==, !new), Q(==, !new)> {
    var store: Store<T, Q>
    const limit: nat
    const periodSeconds: nat
    ghost var book: map<Key<T, Q>, nat>
    ghost var clock: nat

    ghost predicate Valid()
      reads this
    {
      periodSeconds > 0 && StoreOk(store, book, clock, periodSeconds)
    }

    constructor (limit: nat, periodSeconds: nat)
      ensures Valid() && book == map[] && clock == 0 && this.limit == limit && this.periodSeconds == AtLeastOne(periodSeconds)
    {
      this.limit, this.periodSeconds := limit, AtLeastOne(periodSeconds);
      store, book, clock := map[], map[], 0;
    }

    /** RESERVE: a known request is granted again, a new one within the limit is written. */
    method Reserve(tenant: T, request: Q, estimated: nat, nowSeconds: nat) returns (r: Reservation<T, Q>)
      requires Valid() && clock <= nowSeconds
      modifies this
      ensures Valid() && old(clock) <= clock <= nowSeconds
      ensures var k := Key(Account(tenant, PeriodAt(nowSeconds, periodSeconds)), request);
              r == BookAnswer(old(book), k, estimated, limit) && book == BookReserve(old(book), k, estimated, limit)
    {
      hide StoreOk, Spent;
      var k := Key(Account(tenant, PeriodAt(nowSeconds, periodSeconds)), request);
      if limit == 0 {
        return Granted(k);
      }
      LaterStore(store, book, clock, nowSeconds, periodSeconds);
      clock := nowSeconds;
      var keys := Read(store, k.account, nowSeconds);
      AccountOfStore(store, book, k, clock, periodSeconds);
      if request in keys.fields {
        return Granted(k);
      }
      TotalIsSpent(store, book, k.account, clock, periodSeconds);
      if limit > 0 && keys.total + estimated > limit {
        return Rejected;
      }
      var deadline := nowSeconds + periodSeconds * 2;
      AddReservation(store, book, k, estimated, deadline, clock, periodSeconds);
      store := store[k.account := Keys(keys.total + estimated, keys.fields[request := estimated], deadline)];
      book := book[k := estimated];
      r := Granted(k);
    }

    /** SETTLE: moves the total by the difference, if the reservation is still there. */
    method Settle(permit: Key<T, Q>, actual: nat, nowSeconds: nat)
      requires Valid() && clock <= nowSeconds
      modifies this
      ensures Valid() && old(clock) <= clock <= nowSeconds && book == BookSettle(old(book), permit, actual, limit)
    {
      hide StoreOk;
      if limit == 0 {
        return;
      }
      LaterStore(store, book, clock, nowSeconds, periodSeconds);
      clock := nowSeconds;
      var keys := Read(store, permit.account, nowSeconds);
      SettleReservation(store, book, permit, actual, limit, clock, periodSeconds);
      if permit.request in keys.fields {
        var previous := keys.fields[permit.request];
        store := store[permit.account := keys.(total := keys.total + (actual - previous),
                                               fields := keys.fields[permit.request := actual])];
      }
      book := BookSettle(book, permit, actual, limit);
    }

    /** RELEASE: deletes the reservation and takes its amount off the total. */
    method Release(permit: Key<T, Q>, nowSeconds: nat)
      requires Valid() && clock <= nowSeconds
      modifies this
      ensures Valid() && old(clock) <= clock <= nowSeconds && book == BookRelease(old(book), permit, limit)
    {
      hide StoreOk;
      if limit == 0 {
        return;
      }
      LaterStore(store, book, clock, nowSeconds, periodSeconds);
      clock := nowSeconds;
      var keys := Read(store, permit.account, nowSeconds);
      DropReservation(store, book, permit, limit, clock, periodSeconds);
      if permit.request in keys.fields {
        var previous := keys.fields[permit.request];
        store := store[permit.account := keys.(fields := keys.fields - {permit.request}, total := keys.total - previous)];
      }
      book := BookRelease(book, permit, limit);
    }
  }

  lemma AccountOfStore<T(!new), Q(!new)>(store: Store<T, Q>, book: map<Key<T, Q>, nat>, k: Key<T, Q>, now: nat, period: nat)
    requires period > 0 && StoreOk(store, book, now, period) && k.account.period >= now / period
    ensures k.request in Read(store, k.account, now).fields <==> k in book
  {
    assert AccountOk(store, book, k.account, now, period);
  }

  lemma DeadlineIsLate(now: nat, period: nat)
    requires period > 0
    ensures now + period * 2 >= (now / period + 1) * period
  {
  }

  lemma AddReservation<T(!new), Q(!new)>(store: Store<T, Q>, book: map<Key<T, Q>, nat>, k: Key<T, Q>, estimated: nat,
                                         deadline: nat, now: nat, period: nat)
    requires period > 0 && StoreOk(store, book, now, period) && k.account.period == now / period
    requires k !in book && deadline == now + period * 2
    ensures var keys := Read(store, k.account, now);
            StoreOk(store[k.account := Keys(keys.total + estimated, keys.fields[k.request := estimated], deadline)],
                    book[k := estimated], now, period)
  {
    var keys := Read(store, k.account, now);
    AccountOfStore(store, book, k, now, period);
    assert AccountOk(store, book, k.account, now, period);
    SumSet(keys.fields, k.request, estimated);
    DeadlineIsLate(now, period);
    ReplaceAccount(store, book, book[k := estimated], k,
                   Keys(keys.total + estimated, keys.fields[k.request := estimated], deadline), now, period);
  }

  lemma SettleReservation<T(!new), Q(!new)>(store: Store<T, Q>, book: map<Key<T, Q>, nat>, k: Key<T, Q>, actual: nat, limit: nat,
                                            now: nat, period: nat)
    requires period > 0 && limit > 0 && StoreOk(store, book, now, period)
    ensures var keys := Read(store, k.account, now);
            if k.request in keys.fields
            then StoreOk(store[k.account := keys.(total := keys.total + (actual - keys.fields[k.request]),
                                                  fields := keys.fields[k.request := actual])],
                         BookSettle(book, k, actual, limit), now, period)
            else StoreOk(store, BookSettle(book, k, actual, limit), now, period)
  {
    var keys := Read(store, k.account, now);
    assert AccountOk(store, book, k.account, now, period);
    var after := BookSettle(book, k, actual, limit);
    if k.request in keys.fields {
      SumSet(keys.fields, k.request, actual);
      ReplaceAccount(store, book, after, k, keys.(total := keys.total + (actual - keys.fields[k.request]),
                                                  fields := keys.fields[k.request := actual]), now, period);
    } else {
      forall a
        ensures AccountOk(store, after, a, now, period)
      {
        assert AccountOk(store, book, a, now, period);
      }
    }
  }

  lemma DropReservation<T(!new), Q(!new)>(store: Store<T, Q>, book: map<Key<T, Q>, nat>, k: Key<T, Q>, limit: nat, now: nat, period: nat)
    requires period > 0 && limit > 0 && StoreOk(store, book, now, period)
    ensures var keys := Read(store, k.account, now);
            if k.request in keys.fields
            then StoreOk(store[k.account := keys.(fields := keys.fields - {k.request}, total := keys.total - keys.fields[k.request])],
                         BookRelease(book, k, limit), now, period)
            else StoreOk(store, BookRelease(book, k, limit), now, period)
  {
    var keys := Read(store, k.account, now);
    assert AccountOk(store, book, k.account, now, period);
    var after := BookRelease(book, k, limit);
    if k.request in keys.fields {
      SumRemove(keys.fields, k.request);
      ReplaceAccount(store, book, after, k,
                     keys.(fields := keys.fields - {k.request}, total := keys.total - keys.fields[k.request]), now, period);
    } else {
      forall a
        ensures AccountOk(store, after, a, now, period)
      {
        assert AccountOk(store, book, a, now, period);
      }
    }
  }
}

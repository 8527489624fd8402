/** Whole runs of the budget: the limit, and the agreement of the two backends. */
module BudgetRuns {
  import opened Arithmetic
  import opened Sums
  import opened Budget
  import Redis = BudgetRedis

  datatype Call<T, Q> =
    | Reserve(tenant: T, request: Q, estimated: nat, now: nat)
    | Settle(permit: Key<T, Q>, actual: nat, now: nat)
    | Release(permit: Key<T, Q>, now: nat)

  function KeyAt<T, Q>(tenant: T, request: Q, now: nat, period: nat): Key<T, Q>
    requires period > 0
  {
    Key(Account(tenant, now / period), request)
  }

  ghost function Step<T(!new), Q(!new)>(book: map<Key<T, Q>, nat>, call: Call<T, Q>, limit: nat, period: nat): map<Key<T, Q>, nat>
    requires period > 0
  {
    match call
    case Reserve(tenant, request, estimated, now) => BookReserve(book, KeyAt(tenant, request, now, period), estimated, limit)
    case Settle(permit, actual, _) => BookSettle(book, permit, actual, limit)
    case Release(permit, _) => BookRelease(book, permit, limit)
  }

  /** The reservations after the first n calls. */
  ghost function After<T(!new), Q(!new)>(calls: seq<Call<T, Q>>, n: nat, limit: nat, period: nat): map<Key<T, Q>, nat>
    requires n <= |calls| && period > 0
  {
    if n == 0 then map[] else Step(After(calls, n - 1, limit, period), calls[n - 1], limit, period)
  }

  /** The answers to the reserve calls among the first n, in order. */
  ghost function Answers<T(!new), Q(!new)>(calls: seq<Call<T, Q>>, n: nat, limit: nat, period: nat): seq<Reservation<T, Q>>
    requires n <= |calls| && period > 0
  {
    if n == 0 then []
    else
      Answers(calls, n - 1, limit, period)
      + match calls[n - 1] {
          case Reserve(tenant, request, estimated, now) =>
            [BookAnswer(After(calls, n - 1, limit, period), KeyAt(tenant, request, now, period), estimated, limit)]
          case _ => []
        }
  }

  ghost predicate Orderly<T, Q>(calls: seq<Call<T, Q>>) {
    forall i, j :: 0 <= i < j < |calls| ==> calls[i].now <= calls[j].now
  }

  /** Call i, if it settles a held reservation, does not raise it. */
  ghost predicate SettlesWithin<T(!new), Q(!new)>(calls: seq<Call<T, Q>>, i: nat, limit: nat, period: nat)
    requires i < |calls| && period > 0
  {
    calls[i].Settle? && calls[i].permit in After(calls, i, limit, period) ==>
      calls[i].actual <= After(calls, i, limit, period)[calls[i].permit]
  }

  /** No account ever has more reserved than the limit, as long as no settlement exceeds
      what was reserved for it. */
  lemma {:induction false} SpentWithinLimit<T(!new), Q(!new)>(calls: seq<Call<T, Q>>, n: nat, a: Account<T>, limit: nat, period: nat)
    requires n <= |calls| && period > 0 && limit > 0
    requires forall i :: 0 <= i < n ==> SettlesWithin(calls, i, limit, period)
    ensures Spent(After(calls, n, limit, period), a) <= limit
  {
    hide SettlesWithin, Spent;
    if n == 0 {
      NothingSpent<T, Q>(a);
    } else {
      SpentWithinLimit(calls, n - 1, a, limit, period);
      SpentStep(calls, n - 1, a, limit, period);
    }
  }

  lemma NothingSpent<T(!new), Q(!new)>(a: Account<T>)
    ensures Spent<T, Q>(map[], a) == 0
  {
    assert OfAccount<T, Q>(map[], a) == map[];
  }

  lemma SpentStep<T(!new), Q(!new)>(calls: seq<Call<T, Q>>, i: nat, a: Account<T>, limit: nat, period: nat)
    requires i < |calls| && period > 0 && limit > 0 && SettlesWithin(calls, i, limit, period)
    requires Spent(After(calls, i, limit, period), a) <= limit
    ensures Spent(After(calls, i + 1, limit, period), a) <= limit
  {
    var book := After(calls, i, limit, period);
    match calls[i] {
      case Reserve(tenant, request, estimated, now) =>
        SetAmount(book, KeyAt(tenant, request, now, period), estimated, a);
      case Settle(permit, actual, _) =>
        SetAmount(book, permit, actual, a);
      case Release(permit, _) =>
        if permit in book {
          DropAmount(book, permit, a);
        } else {
          assert book - {permit} == book;
        }
    }
  }

  /** Call i, if it settles a held reservation of a, fits on top of what else a has reserved. */
  ghost predicate Fits<T(!new), Q(!new)>(calls: seq<Call<T, Q>>, i: nat, a: Account<T>, limit: nat, period: nat)
    requires i < |calls| && period > 0
  {
    var book := After(calls, i, limit, period);
    calls[i].Settle? && calls[i].permit in book && calls[i].permit.account == a ==>
      Spent(book, a) + calls[i].actual <= limit + book[calls[i].permit]
  }

  /** Right after call i the account is within its limit. */
  ghost predicate Within<T(!new), Q(!new)>(calls: seq<Call<T, Q>>, i: nat, a: Account<T>, limit: nat, period: nat)
    requires i < |calls| && period > 0
  {
    Spent(After(calls, i + 1, limit, period), a) <= limit
  }

  lemma FitsStep<T(!new), Q(!new)>(calls: seq<Call<T, Q>>, i: nat, a: Account<T>, limit: nat, period: nat)
    requires i < |calls| && period > 0 && limit > 0
    requires Spent(After(calls, i, limit, period), a) <= limit
    ensures Within(calls, i, a, limit, period) <==> Fits(calls, i, a, limit, period)
  {
    var book := After(calls, i, limit, period);
    match calls[i] {
      case Reserve(tenant, request, estimated, now) =>
        SetAmount(book, KeyAt(tenant, request, now, period), estimated, a);
      case Settle(permit, actual, _) =>
        SetAmount(book, permit, actual, a);
      case Release(permit, _) =>
        if permit in book {
          DropAmount(book, permit, a);
        } else {
          assert book - {permit} == book;
        }
    }
  }

  /** An account is within its limit after each call of a run exactly when each settlement
      on it fits: reservations alone never pass the limit. */
  lemma {:induction false} WhenRunKeepsLimit<T(!new), Q(!new)>(calls: seq<Call<T, Q>>, n: nat, a: Account<T>, limit: nat, period: nat)
    requires n <= |calls| && period > 0 && limit > 0
    ensures (forall i :: 0 <= i < n ==> Within(calls, i, a, limit, period))
            <==> (forall i :: 0 <= i < n ==> Fits(calls, i, a, limit, period))
  {
    hide Fits, Spent, After;
    if n > 0 {
      WhenRunKeepsLimit(calls, n - 1, a, limit, period);
      if forall i :: 0 <= i < n - 1 ==> Within(calls, i, a, limit, period) {
        NothingSpentYet(calls, a, limit, period);
        assert n > 1 ==> Within(calls, n - 2, a, limit, period);
        FitsStep(calls, n - 1, a, limit, period);
      }
    }
  }

  lemma NothingSpentYet<T(!new), Q(!new)>(calls: seq<Call<T, Q>>, a: Account<T>, limit: nat, period: nat)
    requires period > 0
    ensures Spent(After(calls, 0, limit, period), a) == 0
  {
    NothingSpent<T, Q>(a);
  }

  // The memory store over runs.

  function MemoryStep<T(==), Q(==)>(s: State<T, Q>, call: Call<T, Q>, limit: nat, period: nat): State<T, Q>
    requires period > 0
  {
    match call
    case Reserve(tenant, request, estimated, now) => Reserved(s, KeyAt(tenant, request, now, period), estimated, limit)
    case Settle(permit, actual, _) => Settled(s, permit, actual, limit)
    case Release(permit, _) => Released(s, permit, limit)
  }

  function MemoryAfter<T(==), Q(==)>(calls: seq<Call<T, Q>>, n: nat, limit: nat, period: nat): State<T, Q>
    requires n <= |calls| && period > 0
  {
    if n == 0 then State(map[], map[]) else MemoryStep(MemoryAfter(calls, n - 1, limit, period), calls[n - 1], limit, period)
  }

  function MemoryAnswers<T(==), Q(==)>(calls: seq<Call<T, Q>>, n: nat, limit: nat, period: nat): seq<Reservation<T, Q>>
    requires n <= |calls| && period > 0
  {
    if n == 0 then []
    else
      MemoryAnswers(calls, n - 1, limit, period)
      + match calls[n - 1] {
          case Reserve(tenant, request, estimated, now) =>
            [ReserveAnswer(MemoryAfter(calls, n - 1, limit, period), KeyAt(tenant, request, now, period), estimated, limit)]
          case _ => []
        }
  }

  /** The memory store holds what the reference holds for account a, total included. */
  ghost predicate SameFor<T(!new), Q(!new)>(s: State<T, Q>, book: map<Key<T, Q>, nat>, a: Account<T>) {
    TotalOf(s.totals, a) == Spent(book, a) && OfAccount(s.reservations, a) == OfAccount(book, a)
  }

  lemma HeldAlike<T(!new), Q(!new)>(s: State<T, Q>, book: map<Key<T, Q>, nat>, k: Key<T, Q>)
    requires SameFor(s, book, k.account)
    ensures k in s.reservations <==> k in book
    ensures k in book ==> s.reservations[k] == book[k] <= Spent(book, k.account)
  {
    hide Sum;
    assert k in s.reservations <==> k in OfAccount(s.reservations, k.account);
    assert k in book <==> k in OfAccount(book, k.account);
    if k in book {
      assert book[k] == OfAccount(book, k.account)[k] == OfAccount(s.reservations, k.account)[k];
      SetAmount(book, k, 0, k.account);
    }
  }

  /** Reserving and releasing keep every account the same, settling all but the account of
      a reservation that is no longer held. */
  lemma AccountFollows<T(!new), Q(!new)>(s: State<T, Q>, book: map<Key<T, Q>, nat>, k: Key<T, Q>, amount: nat, limit: nat, a: Account<T>)
    requires SameFor(s, book, a)
    ensures k.account == a ==> ReserveAnswer(s, k, amount, limit) == BookAnswer(book, k, amount, limit)
    ensures SameFor(Reserved(s, k, amount, limit), BookReserve(book, k, amount, limit), a)
    ensures k.account != a || k in book ==> SameFor(Settled(s, k, amount, limit), BookSettle(book, k, amount, limit), a)
    ensures SameFor(Released(s, k, limit), BookRelease(book, k, limit), a)
  {
    if k.account == a {
      HeldAlike(s, book, k);
      OwnAccount(s, book, k, amount, limit);
    } else {
      OtherAccount(s.reservations, k, amount, a);
      OtherAccount(book, k, amount, a);
    }
  }

  lemma OtherAccount<T(!new), Q(!new)>(m: map<Key<T, Q>, nat>, k: Key<T, Q>, v: nat, a: Account<T>)
    requires k.account != a
    ensures OfAccount(m[k := v], a) == OfAccount(m, a) == OfAccount(m - {k}, a)
  {
  }

  lemma OwnAccount<T(!new), Q(!new)>(s: State<T, Q>, book: map<Key<T, Q>, nat>, k: Key<T, Q>, amount: nat, limit: nat)
    requires SameFor(s, book, k.account) && (k in s.reservations <==> k in book)
    requires k in book ==> s.reservations[k] == book[k] <= Spent(book, k.account)
    ensures ReserveAnswer(s, k, amount, limit) == BookAnswer(book, k, amount, limit)
    ensures SameFor(Reserved(s, k, amount, limit), BookReserve(book, k, amount, limit), k.account)
    ensures k in book ==> SameFor(Settled(s, k, amount, limit), BookSettle(book, k, amount, limit), k.account)
    ensures SameFor(Released(s, k, limit), BookRelease(book, k, limit), k.account)
  {
    hide Sum;
    OwnParts(s.reservations, k, amount);
    OwnParts(book, k, amount);
    SetAmount(book, k, amount, k.account);
    if k in book {
      DropAmount(book, k, k.account);
    } else {
      assert book - {k} == book;
    }
  }

  lemma OwnParts<T(!new), Q(!new)>(m: map<Key<T, Q>, nat>, k: Key<T, Q>, v: nat)
    ensures OfAccount(m[k := v], k.account) == OfAccount(m, k.account)[k := v]
    ensures OfAccount(m - {k}, k.account) == OfAccount(m, k.account) - {k}
  {
  }

  /** Call i settles a reservation of account a that is no longer held. */
  ghost predicate SettlesLate<T(!new), Q(!new)>(calls: seq<Call<T, Q>>, i: nat, a: Account<T>, limit: nat, period: nat)
    requires i < |calls| && period > 0
  {
    limit > 0 && calls[i].Settle? && calls[i].permit.account == a && calls[i].permit !in After(calls, i, limit, period)
  }

  lemma {:induction false} StaysSame<T(!new), Q(!new)>(calls: seq<Call<T, Q>>, n: nat, a: Account<T>, limit: nat, period: nat)
    requires n <= |calls| && period > 0 && forall i :: 0 <= i < n ==> !SettlesLate(calls, i, a, limit, period)
    ensures SameFor(MemoryAfter(calls, n, limit, period), After(calls, n, limit, period), a)
  {
    hide SameFor, Reserved, Settled, Released, BookReserve, BookSettle, BookRelease;
    if n == 0 {
      BothEmpty<T, Q>(a);
    } else {
      StaysSame(calls, n - 1, a, limit, period);
      var s, book := MemoryAfter(calls, n - 1, limit, period), After(calls, n - 1, limit, period);
      assert !SettlesLate(calls, n - 1, a, limit, period);
      match calls[n - 1] {
        case Reserve(tenant, request, estimated, now) =>
          AccountFollows(s, book, KeyAt(tenant, request, now, period), estimated, limit, a);
        case Settle(permit, actual, _) =>
          if limit == 0 {
            UnlimitedKeepsNothing(s, book, permit, actual);
          }
          AccountFollows(s, book, permit, actual, limit, a);
        case Release(permit, _) =>
          AccountFollows(s, book, permit, 0, limit, a);
      }
    }
  }

  lemma BothEmpty<T(!new), Q(!new)>(a: Account<T>)
    ensures SameFor<T, Q>(State(map[], map[]), map[], a)
  {
    NothingSpent<T, Q>(a);
  }

  lemma UnlimitedKeepsNothing<T(!new), Q(!new)>(s: State<T, Q>, book: map<Key<T, Q>, nat>, k: Key<T, Q>, actual: nat)
    ensures Settled(s, k, actual, 0) == s && BookSettle(book, k, actual, 0) == book
  {
  }

  /** After n calls both answer every reservation on account a alike. */
  ghost predicate AnswersAlike<T(!new), Q(!new)>(calls: seq<Call<T, Q>>, n: nat, a: Account<T>, limit: nat, period: nat)
    requires n <= |calls| && period > 0
  {
    forall k: Key<T, Q>, estimated: nat :: k.account == a ==>
      ReserveAnswer(MemoryAfter(calls, n, limit, period), k, estimated, limit)
      == BookAnswer(After(calls, n, limit, period), k, estimated, limit)
  }

  /** The two backends answer every next reservation on an account alike, after each call of
      a run, exactly when no call settles a reservation of it that is no longer held. */
  lemma {:induction false} WhenMemoryFollows<T(!new), Q(!new)>(calls: seq<Call<T, Q>>, n: nat, a: Account<T>, limit: nat, period: nat)
    requires n <= |calls| && period > 0
    ensures (forall i :: 0 <= i <= n ==> AnswersAlike(calls, i, a, limit, period))
            <==> (forall i :: 0 <= i < n ==> !SettlesLate(calls, i, a, limit, period))
  {
    hide AnswersAlike, SettlesLate;
    if n == 0 {
      SameAnswers(calls, 0, a, limit, period);
    } else {
      WhenMemoryFollows(calls, n - 1, a, limit, period);
      if forall i :: 0 <= i < n - 1 ==> !SettlesLate(calls, i, a, limit, period) {
        if SettlesLate(calls, n - 1, a, limit, period) {
          LateCallParts(calls, n - 1, a, limit, period);
        } else {
          SameAnswers(calls, n, a, limit, period);
        }
      }
    }
  }

  lemma SameAnswers<T(!new), Q(!new)>(calls: seq<Call<T, Q>>, n: nat, a: Account<T>, limit: nat, period: nat)
    requires n <= |calls| && period > 0 && forall i :: 0 <= i < n ==> !SettlesLate(calls, i, a, limit, period)
    ensures AnswersAlike(calls, n, a, limit, period)
  {
    hide SameFor, ReserveAnswer, BookAnswer, SettlesLate;
    StaysSame(calls, n, a, limit, period);
    var s, book := MemoryAfter(calls, n, limit, period), After(calls, n, limit, period);
    forall k: Key<T, Q>, estimated | k.account == a
      ensures ReserveAnswer(s, k, estimated, limit) == BookAnswer(book, k, estimated, limit)
    {
      AccountFollows(s, book, k, estimated, limit, a);
    }
  }

  lemma LateCallParts<T(!new), Q(!new)>(calls: seq<Call<T, Q>>, i: nat, a: Account<T>, limit: nat, period: nat)
    requires i < |calls| && period > 0 && SettlesLate(calls, i, a, limit, period)
    ensures !AnswersAlike(calls, i + 1, a, limit, period)
  {
    var s, book, k := MemoryAfter(calls, i, limit, period), After(calls, i, limit, period), calls[i].permit;
    LateSettleParts(s, book, k, calls[i].actual, limit + 1, limit);
    assert ReserveAnswer(MemoryAfter(calls, i + 1, limit, period), k, limit + 1, limit)
           != BookAnswer(After(calls, i + 1, limit, period), k, limit + 1, limit);
  }

  /** A settlement that comes after its reservation was released makes the two backends
      part: the memory store then knows the request, the reference and Redis do not. */
  lemma LateSettleParts<T(!new), Q(!new)>(s: State<T, Q>, book: map<Key<T, Q>, nat>, k: Key<T, Q>, actual: nat, again: nat, limit: nat)
    requires limit > 0 && k !in book && Spent(book, k.account) + again > limit
    ensures ReserveAnswer(Settled(s, k, actual, limit), k, again, limit) == Granted(k)
    ensures BookAnswer(BookSettle(book, k, actual, limit), k, again, limit) == Rejected
  {
  }

  /** One settlement: every next reservation is answered alike exactly when it was held. */
  lemma WhenSettleParts<T(!new), Q(!new)>(s: State<T, Q>, k: Key<T, Q>, actual: nat, limit: nat)
    requires Conserved(s) && limit > 0
    ensures (forall q: Key<T, Q>, estimated: nat ::
               ReserveAnswer(Settled(s, k, actual, limit), q, estimated, limit)
               == BookAnswer(BookSettle(s.reservations, k, actual, limit), q, estimated, limit))
            <==> k in s.reservations
  {
    hide Conserved, ReserveAnswer, BookAnswer, Settled, BookSettle;
    if k in s.reservations {
      MemoryFollowsBook(s, k, actual, limit);
      forall q: Key<T, Q>, estimated: nat
        ensures ReserveAnswer(Settled(s, k, actual, limit), q, estimated, limit)
                == BookAnswer(BookSettle(s.reservations, k, actual, limit), q, estimated, limit)
      {
        MemoryFollowsBook(Settled(s, k, actual, limit), q, estimated, limit);
      }
    } else {
      LateSettleParts(s, s.reservations, k, actual, limit + 1, limit);
    }
  }

  /** A run that parts them: reserve, release, settle, and reserve the same request again
      for more than the limit. */
  lemma LateRunParts<T(!new), Q(!new)>(tenant: T, request: Q, limit: nat, period: nat)
    requires limit > 0 && period > 0
    ensures var k := KeyAt(tenant, request, 0, period);
            var calls := [Reserve(tenant, request, 0, 0), Release(k, 0), Settle(k, 0, 0), Reserve(tenant, request, limit + 1, 0)];
            MemoryAnswers(calls, 4, limit, period) == [Granted(k), Granted(k)]
            && Answers(calls, 4, limit, period) == [Granted(k), Rejected]
  {
    var k := KeyAt(tenant, request, 0, period);
    var calls := [Reserve(tenant, request, 0, 0), Release(k, 0), Settle(k, 0, 0), Reserve(tenant, request, limit + 1, 0)];
    NothingSpent<T, Q>(k.account);
    var none: map<Key<T, Q>, nat> := map[];
    assert none[k := 0] - {k} == none;
    hide Spent;
    assert MemoryAfter(calls, 1, limit, period).reservations == none[k := 0];
    assert MemoryAfter(calls, 2, limit, period).reservations == none;
    assert MemoryAfter(calls, 3, limit, period).reservations == none[k := 0];
    assert After(calls, 1, limit, period) == none[k := 0];
    assert After(calls, 2, limit, period) == none;
    assert After(calls, 3, limit, period) == none;
    assert MemoryAnswers(calls, 1, limit, period) == [Granted(k)] && Answers(calls, 1, limit, period) == [Granted(k)];
    assert MemoryAnswers(calls, 2, limit, period) == [Granted(k)] && Answers(calls, 2, limit, period) == [Granted(k)];
    assert MemoryAnswers(calls, 3, limit, period) == [Granted(k)] && Answers(calls, 3, limit, period) == [Granted(k)];
  }

  /** The memory store answers every run as its operations on one state say. */
  method RunMemory<T(==, !new), Q(==, !new)>(calls: seq<Call<T, Q>>, limit: nat, periodSeconds: nat)
    returns (answers: seq<Reservation<T, Q>>)
    ensures answers == MemoryAnswers(calls, |calls|, limit, AtLeastOne(periodSeconds))
  {
    hide ReserveAnswer, Reserved, Settled, Released;
    var budget := new MemoryBudget<T, Q>(limit, periodSeconds);
    ghost var period := AtLeastOne(periodSeconds);
    answers := [];
    for i := 0 to |calls|
      invariant fresh(budget) && budget.limit == limit && budget.periodSeconds == period
      invariant budget.Contents() == MemoryAfter(calls, i, limit, period)
      invariant answers == MemoryAnswers(calls, i, limit, period)
    {
      match calls[i] {
        case Reserve(tenant, request, estimated, now) =>
          var answer := budget.Reserve(tenant, request, estimated, now);
          answers := answers + [answer];
        case Settle(permit, actual, _) =>
          budget.Settle(permit, actual);
        case Release(permit, _) =>
          budget.Release(permit);
      }
    }
  }

  /** The Redis store gives the reference's answers on every run. */
  method RunRedis<T(==, !new), Q(==, !new)>(calls: seq<Call<T, Q>>, limit: nat, periodSeconds: nat)
    returns (answers: seq<Reservation<T, Q>>)
    requires Orderly(calls)
    ensures answers == Answers(calls, |calls|, limit, AtLeastOne(periodSeconds))
  {
    hide Spent, BookAnswer, BookReserve, BookSettle, BookRelease;
    var budget := new Redis.RedisBudget<T, Q>(limit, periodSeconds);
    ghost var period := AtLeastOne(periodSeconds);
    answers := [];
    for i := 0 to |calls|
      invariant fresh(budget) && budget.Valid() && budget.limit == limit && budget.periodSeconds == period
      invariant forall j :: i <= j < |calls| ==> budget.clock <= calls[j].now
      invariant budget.book == After(calls, i, limit, period) && answers == Answers(calls, i, limit, period)
    {
      match calls[i] {
        case Reserve(tenant, request, estimated, now) =>
          var answer := budget.Reserve(tenant, request, estimated, now);
          answers := answers + [answer];
        case Settle(permit, actual, now) =>
          budget.Settle(permit, actual, now);
        case Release(permit, now) =>
          budget.Release(permit, now);
      }
    }
  }

  /** Call i, if it settles, settles a held reservation or one whose period is over. */
  ghost predicate SettlesInTime<T(!new), Q(!new)>(calls: seq<Call<T, Q>>, i: nat, limit: nat, period: nat)
    requires i < |calls| && period > 0
  {
    limit > 0 && calls[i].Settle? && calls[i].permit !in After(calls, i, limit, period) ==>
      calls[i].permit.account.period < calls[i].now / period
  }

  lemma AsksOpenPeriod<T(!new), Q(!new)>(calls: seq<Call<T, Q>>, i: nat, limit: nat, period: nat)
    requires i < |calls| && period > 0 && Orderly(calls) && calls[i].Reserve?
    requires forall j :: 0 <= j < i ==> SettlesInTime(calls, j, limit, period)
    ensures var k := KeyAt(calls[i].tenant, calls[i].request, calls[i].now, period);
            ReserveAnswer(MemoryAfter(calls, i, limit, period), k, calls[i].estimated, limit)
            == BookAnswer(After(calls, i, limit, period), k, calls[i].estimated, limit)
  {
    hide ReserveAnswer, BookAnswer, SameFor, After, MemoryAfter;
    var k := KeyAt(calls[i].tenant, calls[i].request, calls[i].now, period);
    forall j | 0 <= j < i
      ensures !SettlesLate(calls, j, k.account, limit, period)
    {
      assert SettlesInTime(calls, j, limit, period);
      DivOrder(calls[j].now, calls[i].now, period);
    }
    StaysSame(calls, i, k.account, limit, period);
    AccountFollows(MemoryAfter(calls, i, limit, period), After(calls, i, limit, period), k, calls[i].estimated, limit, k.account);
  }

  lemma {:induction false} SameRuns<T(!new), Q(!new)>(calls: seq<Call<T, Q>>, n: nat, limit: nat, period: nat)
    requires n <= |calls| && period > 0 && Orderly(calls)
    requires forall j :: 0 <= j < n ==> SettlesInTime(calls, j, limit, period)
    ensures MemoryAnswers(calls, n, limit, period) == Answers(calls, n, limit, period)
  {
    hide ReserveAnswer, BookAnswer, SettlesInTime, After, MemoryAfter;
    if n > 0 {
      SameRuns(calls, n - 1, limit, period);
      if calls[n - 1].Reserve? {
        AsksOpenPeriod(calls, n - 1, limit, period);
      }
    }
  }

  /** Both backends over the same run. They grant and refuse alike when every settlement is
      of a held reservation or of a period that is over. */
  method BackendsAgree<T(==, !new), Q(==, !new)>(calls: seq<Call<T, Q>>, limit: nat, periodSeconds: nat)
    returns (memory: seq<Reservation<T, Q>>, redis: seq<Reservation<T, Q>>)
    requires Orderly(calls)
    ensures memory == MemoryAnswers(calls, |calls|, limit, AtLeastOne(periodSeconds))
    ensures redis == Answers(calls, |calls|, limit, AtLeastOne(periodSeconds))
    ensures (forall i :: 0 <= i < |calls| ==> SettlesInTime(calls, i, limit, AtLeastOne(periodSeconds))) ==> memory == redis
  {
    hide SettlesInTime;
    memory := RunMemory(calls, limit, periodSeconds);
    redis := RunRedis(calls, limit, periodSeconds);
    if forall i :: 0 <= i < |calls| ==> SettlesInTime(calls, i, limit, AtLeastOne(periodSeconds)) {
      SameRuns(calls, |calls|, limit, AtLeastOne(periodSeconds));
    }
  }
}

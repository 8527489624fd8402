/** When a budget grants, in terms of the calls themselves. */
module BudgetDecisions {
  import opened Sums
  import opened Budget
  import opened BudgetRuns

  /** Which of the calls were granted. */
  type Verdicts = nat -> bool

  /** Call i asks for the reservation k: its tenant, its request and the period it is made in. */
  predicate Asks<T(==), Q(==)>(calls: seq<Call<T, Q>>, i: nat, k: Key<T, Q>, period: nat)
    requires period > 0
  {
    i < |calls| && calls[i].Reserve? && calls[i].tenant == k.account.tenant && calls[i].request == k.request
    && calls[i].now / period == k.account.period
  }

  ghost predicate GivenBack<T, Q>(calls: seq<Call<T, Q>>, i: nat, k: Key<T, Q>, n: nat) {
    exists j :: i < j < n && j < |calls| && calls[j].Release? && calls[j].permit == k
  }

  /** Call i got k, and no call before the n-th has given it back since. */
  ghost predicate Has<T(!new), Q(!new)>(calls: seq<Call<T, Q>>, d: Verdicts, i: nat, k: Key<T, Q>, n: nat, period: nat)
    requires period > 0
  {
    i < n && Asks(calls, i, k, period) && d(i) && !GivenBack(calls, i, k, n)
  }

  /** Of the calls that have k, i is the first: the others were repetitions. */
  ghost predicate Opened<T(!new), Q(!new)>(calls: seq<Call<T, Q>>, d: Verdicts, i: nat, k: Key<T, Q>, n: nat, period: nat)
    requires period > 0
  {
    Has(calls, d, i, k, n, period) && forall h: nat :: h < i ==> !Has(calls, d, h, k, n, period)
  }

  /** What reservation k of call i counts for before the n-th call: its latest settlement,
      or else its estimate. */
  function AmountOf<T(==), Q(==)>(calls: seq<Call<T, Q>>, i: nat, k: Key<T, Q>, n: nat): nat
    requires i < n <= |calls| && calls[i].Reserve?
  {
    if n == i + 1 then calls[i].estimated
    else if calls[n - 1].Settle? && calls[n - 1].permit == k then calls[n - 1].actual
    else AmountOf(calls, i, k, n - 1)
  }

  /** What the calls that opened a reservation of the account count for. */
  ghost function Standing<T(!new), Q(!new)>(
    calls: seq<Call<T, Q>>, d: Verdicts, a: Account<T>, n: nat, period: nat): map<nat, nat>
    requires n <= |calls| && period > 0
  {
    map i: nat | i < n && calls[i].Reserve? && Opened(calls, d, i, Key(a, calls[i].request), n, period)
             :: AmountOf(calls, i, Key(a, calls[i].request), n)
  }

  /** d tells which reserve calls the reference grants. */
  ghost predicate GrantsOf<T(!new), Q(!new)>(calls: seq<Call<T, Q>>, d: Verdicts, limit: nat, period: nat)
    requires period > 0
  {
    forall i: nat :: i < |calls| && calls[i].Reserve? ==>
      (d(i) <==> AnswerAt(calls, i, limit, period).Granted?)
  }

  ghost function AnswerAt<T(!new), Q(!new)>(calls: seq<Call<T, Q>>, i: nat, limit: nat, period: nat): Reservation<T, Q>
    requires i < |calls| && calls[i].Reserve? && period > 0
  {
    BookAnswer(After(calls, i, limit, period), KeyAt(calls[i].tenant, calls[i].request, calls[i].now, period),
               calls[i].estimated, limit)
  }

  ghost predicate HeldByCalls<T(!new), Q(!new)>(
    calls: seq<Call<T, Q>>, d: Verdicts, k: Key<T, Q>, n: nat, limit: nat, period: nat)
    requires n <= |calls| && period > 0
  {
    var book := After(calls, n, limit, period);
    (k in book <==> exists i: nat :: Opened(calls, d, i, k, n, period))
    && (k !in book ==> forall i: nat :: !Has(calls, d, i, k, n, period))
    && forall i: nat :: Opened(calls, d, i, k, n, period) ==> book[k] == AmountOf(calls, i, k, n)
  }

  lemma GivenBackStep<T, Q>(calls: seq<Call<T, Q>>, i: nat, k: Key<T, Q>, m: nat)
    requires i < m < |calls|
    ensures GivenBack(calls, i, k, m + 1) <==> GivenBack(calls, i, k, m) || (calls[m].Release? && calls[m].permit == k)
  {
    if calls[m].Release? && calls[m].permit == k {
      assert i < m < m + 1;
    }
  }

  lemma HasStep<T(!new), Q(!new)>(calls: seq<Call<T, Q>>, d: Verdicts, i: nat, k: Key<T, Q>, m: nat, period: nat)
    requires m < |calls| && period > 0
    ensures Has(calls, d, i, k, m + 1, period)
            <==> if i < m then Has(calls, d, i, k, m, period) && !(calls[m].Release? && calls[m].permit == k)
                 else i == m && Asks(calls, m, k, period) && d(m)
  {
    hide Asks;
    if i < m {
      GivenBackStep(calls, i, k, m);
    }
  }

  /** Who has k after the n-th call. */
  ghost predicate HasSteps<T(!new), Q(!new)>(calls: seq<Call<T, Q>>, d: Verdicts, k: Key<T, Q>, n: nat, period: nat)
    requires 0 < n <= |calls| && period > 0
  {
    forall i: nat :: Has(calls, d, i, k, n, period)
                     <==> if i < n - 1 then Has(calls, d, i, k, n - 1, period) && !(calls[n - 1].Release? && calls[n - 1].permit == k)
                          else i == n - 1 && Asks(calls, n - 1, k, period) && d(n - 1)
  }

  lemma AllHasStep<T(!new), Q(!new)>(calls: seq<Call<T, Q>>, d: Verdicts, k: Key<T, Q>, n: nat, period: nat)
    requires 0 < n <= |calls| && period > 0
    ensures HasSteps(calls, d, k, n, period)
  {
    var m := n - 1;
    forall i: nat
      ensures Has(calls, d, i, k, n, period)
              <==> if i < m then Has(calls, d, i, k, m, period) && !(calls[m].Release? && calls[m].permit == k)
                   else i == m && Asks(calls, m, k, period) && d(m)
    {
      HasStep(calls, d, i, k, m, period);
    }
  }

  /** The same calls have k before and after the n-th call. */
  lemma SameOpened<T(!new), Q(!new)>(calls: seq<Call<T, Q>>, d: Verdicts, k: Key<T, Q>, m: nat, n: nat, period: nat)
    requires period > 0
    requires forall i: nat :: Has(calls, d, i, k, n, period) <==> Has(calls, d, i, k, m, period)
    ensures forall i: nat :: Opened(calls, d, i, k, n, period) <==> Opened(calls, d, i, k, m, period)
  {
    hide Has;
  }

  /** A call that is no grant and no return of k. */
  lemma OtherStep<T(!new), Q(!new)>(calls: seq<Call<T, Q>>, d: Verdicts, k: Key<T, Q>, n: nat, limit: nat, period: nat)
    requires 0 < n <= |calls| && period > 0 && limit > 0
    requires HeldByCalls(calls, d, k, n - 1, limit, period) && HasSteps(calls, d, k, n, period)
    requires !(Asks(calls, n - 1, k, period) && d(n - 1)) && !(calls[n - 1].Release? && calls[n - 1].permit == k)
    requires GrantsOf(calls, d, limit, period)
    ensures HeldByCalls(calls, d, k, n, limit, period)
  {
    var m := n - 1;
    forall i: nat
      ensures Has(calls, d, i, k, n, period) <==> Has(calls, d, i, k, m, period)
    {
      HasBefore(calls, d, i, k, m, period);
    }
    SameBook(calls, d, k, n, limit, period);
    hide Has, Spent, After, GrantsOf;
    SameOpened(calls, d, k, m, n, period);
    forall i: nat | Opened(calls, d, i, k, n, period)
      ensures i < n && calls[i].Reserve? && After(calls, n, limit, period)[k] == AmountOf(calls, i, k, n)
    {
      OpenedAsks(calls, d, i, k, m, period);
    }
  }

  /** What such a call leaves of k. */
  lemma SameBook<T(!new), Q(!new)>(calls: seq<Call<T, Q>>, d: Verdicts, k: Key<T, Q>, n: nat, limit: nat, period: nat)
    requires 0 < n <= |calls| && period > 0 && limit > 0
    requires !(Asks(calls, n - 1, k, period) && d(n - 1)) && !(calls[n - 1].Release? && calls[n - 1].permit == k)
    requires GrantsOf(calls, d, limit, period)
    ensures var (before, after) := (After(calls, n - 1, limit, period), After(calls, n, limit, period));
            (k in after <==> k in before)
            && (k in before ==>
                  after[k] == if calls[n - 1].Settle? && calls[n - 1].permit == k then calls[n - 1].actual else before[k])
  {
    hide Spent;
  }

  lemma HasBefore<T(!new), Q(!new)>(calls: seq<Call<T, Q>>, d: Verdicts, i: nat, k: Key<T, Q>, n: nat, period: nat)
    requires period > 0
    ensures Has(calls, d, i, k, n, period) ==> i < n && Asks(calls, i, k, period)
  {
  }

  lemma GrantStep<T(!new), Q(!new)>(calls: seq<Call<T, Q>>, d: Verdicts, k: Key<T, Q>, n: nat, limit: nat, period: nat)
    requires 0 < n <= |calls| && period > 0 && limit > 0
    requires HeldByCalls(calls, d, k, n - 1, limit, period) && HasSteps(calls, d, k, n, period)
    requires Asks(calls, n - 1, k, period) && d(n - 1) && GrantsOf(calls, d, limit, period)
    ensures HeldByCalls(calls, d, k, n, limit, period)
  {
    GrantedBook(calls, d, k, n, limit, period);
    AsksReserves(calls, n - 1, k, period);
    hide Has, GrantsOf, After, HasSteps, Opened, Asks;
    if k in After(calls, n - 1, limit, period) {
      var j: nat :| Opened(calls, d, j, k, n - 1, period);
      RepeatedStep(calls, d, j, k, n, period);
    } else {
      FirstStep(calls, d, k, n - 1, n, period);
      assert Opened(calls, d, n - 1, k, n, period);
    }
  }

  lemma AsksReserves<T, Q>(calls: seq<Call<T, Q>>, i: nat, k: Key<T, Q>, period: nat)
    requires period > 0 && Asks(calls, i, k, period)
    ensures calls[i].Reserve?
  {
  }

  lemma RepeatedStep<T(!new), Q(!new)>(calls: seq<Call<T, Q>>, d: Verdicts, j: nat, k: Key<T, Q>, n: nat, period: nat)
    requires 0 < n <= |calls| && period > 0 && HasSteps(calls, d, k, n, period)
    requires Opened(calls, d, j, k, n - 1, period) && calls[n - 1].Reserve?
    ensures j < n - 1 && calls[j].Reserve? && AmountOf(calls, j, k, n) == AmountOf(calls, j, k, n - 1)
    ensures forall i: nat :: Opened(calls, d, i, k, n, period) <==> i == j
    ensures Opened(calls, d, j, k, n, period)
  {
    OpenedAsks(calls, d, j, k, n - 1, period);
    hide Has;
    assert Has(calls, d, j, k, n, period);
    StillOpened(calls, d, j, k, n, period);
    forall i: nat | Opened(calls, d, i, k, n, period)
      ensures i == j
    {
      OpenedOnce(calls, d, i, j, k, n, period);
    }
  }

  lemma FirstStep<T(!new), Q(!new)>(calls: seq<Call<T, Q>>, d: Verdicts, k: Key<T, Q>, m: nat, n: nat, period: nat)
    requires n == m + 1 <= |calls| && period > 0 && HasSteps(calls, d, k, n, period)
    requires (forall i: nat :: !Has(calls, d, i, k, m, period)) && Asks(calls, m, k, period) && d(m)
    ensures forall i: nat :: Opened(calls, d, i, k, n, period) <==> i == m
    ensures Has(calls, d, m, k, n, period)
  {
    hide Has;
    assert Opened(calls, d, m, k, n, period);
    forall i: nat | Opened(calls, d, i, k, n, period)
      ensures i == m
    {
      OpenedOnce(calls, d, i, m, k, n, period);
    }
  }

  lemma StillOpened<T(!new), Q(!new)>(calls: seq<Call<T, Q>>, d: Verdicts, j: nat, k: Key<T, Q>, n: nat, period: nat)
    requires 0 < n <= |calls| && period > 0 && HasSteps(calls, d, k, n, period)
    requires Opened(calls, d, j, k, n - 1, period) && j < n - 1 && Has(calls, d, j, k, n, period)
    ensures Opened(calls, d, j, k, n, period)
  {
    hide Has;
  }

  lemma GrantedBook<T(!new), Q(!new)>(calls: seq<Call<T, Q>>, d: Verdicts, k: Key<T, Q>, n: nat, limit: nat, period: nat)
    requires 0 < n <= |calls| && period > 0 && limit > 0
    requires Asks(calls, n - 1, k, period) && d(n - 1) && GrantsOf(calls, d, limit, period)
    ensures var before := After(calls, n - 1, limit, period);
            After(calls, n, limit, period) == if k in before then before else before[k := calls[n - 1].estimated]
  {
    hide Spent;
    assert KeyAt(calls[n - 1].tenant, calls[n - 1].request, calls[n - 1].now, period) == k;
  }

  lemma ReturnStep<T(!new), Q(!new)>(calls: seq<Call<T, Q>>, d: Verdicts, k: Key<T, Q>, n: nat, limit: nat, period: nat)
    requires 0 < n <= |calls| && period > 0 && limit > 0
    requires HasSteps(calls, d, k, n, period)
    requires calls[n - 1].Release? && calls[n - 1].permit == k
    ensures HeldByCalls(calls, d, k, n, limit, period)
  {
    hide Has;
    assert forall i: nat :: !Has(calls, d, i, k, n, period);
  }

  lemma NothingHeld<T(!new), Q(!new)>(calls: seq<Call<T, Q>>, d: Verdicts, k: Key<T, Q>, limit: nat, period: nat)
    requires period > 0
    ensures HeldByCalls(calls, d, k, 0, limit, period)
  {
  }

  /** A reservation is held exactly when some call opened it, for what it counts for. */
  lemma {:induction false} BookIsCalls<T(!new), Q(!new)>(
    calls: seq<Call<T, Q>>, d: Verdicts, k: Key<T, Q>, n: nat, limit: nat, period: nat)
    requires n <= |calls| && period > 0 && limit > 0 && GrantsOf(calls, d, limit, period)
    ensures HeldByCalls(calls, d, k, n, limit, period)
  {
    hide GrantsOf, Has, HeldByCalls, Asks, HasSteps, After;
    if n == 0 {
      NothingHeld(calls, d, k, limit, period);
    } else {
      BookIsCalls(calls, d, k, n - 1, limit, period);
      AllHasStep(calls, d, k, n, period);
      if Asks(calls, n - 1, k, period) && d(n - 1) {
        GrantStep(calls, d, k, n, limit, period);
      } else if calls[n - 1].Release? && calls[n - 1].permit == k {
        ReturnStep(calls, d, k, n, limit, period);
      } else {
        OtherStep(calls, d, k, n, limit, period);
      }
    }
  }

  /** What an account has reserved is the sum over the calls that opened its reservations. */
  lemma SpentIsCalls<T(!new), Q(!new)>(
    calls: seq<Call<T, Q>>, d: Verdicts, a: Account<T>, n: nat, limit: nat, period: nat)
    requires n <= |calls| && period > 0 && limit > 0 && GrantsOf(calls, d, limit, period)
    ensures Spent(After(calls, n, limit, period), a) == Sum(Standing(calls, d, a, n, period))
  {
    hide Sum, After, GrantsOf, Opened, AmountOf;
    var book := After(calls, n, limit, period);
    var mine: map<Key<T, Q>, nat> := OfAccount(book, a);
    var standing: map<nat, nat> := Standing(calls, d, a, n, period);
    var f: map<nat, Key<T, Q>> := map i | i in standing :: Key(a, calls[i].request);
    forall k | k in mine
      ensures k in f.Values
    {
      BookIsCalls(calls, d, k, n, limit, period);
      var i: nat :| Opened(calls, d, i, k, n, period);
      OpenedAsks(calls, d, i, k, n, period);
      assert f[i] == k;
    }
    forall i | i in standing
      ensures f[i] in mine && mine[f[i]] == standing[i]
    {
      BookIsCalls(calls, d, f[i], n, limit, period);
    }
    forall i, j | i in f && j in f && f[i] == f[j]
      ensures i == j
    {
      OpenedOnce(calls, d, i, j, f[i], n, period);
    }
    SumRenamed<nat, Key<T, Q>>(standing, mine, f);
  }

  lemma OpenedAsks<T(!new), Q(!new)>(calls: seq<Call<T, Q>>, d: Verdicts, i: nat, k: Key<T, Q>, n: nat, period: nat)
    requires period > 0 && Opened(calls, d, i, k, n, period)
    ensures i < n && i < |calls| && calls[i].Reserve? && k == Key(k.account, calls[i].request)
  {
  }

  lemma OpenedOnce<T(!new), Q(!new)>(calls: seq<Call<T, Q>>, d: Verdicts, i: nat, j: nat, k: Key<T, Q>, n: nat, period: nat)
    requires period > 0 && Opened(calls, d, i, k, n, period) && Opened(calls, d, j, k, n, period)
    ensures i == j
  {
    assert Has(calls, d, i, k, n, period) && Has(calls, d, j, k, n, period);
  }

  /** A reservation is granted exactly when there is no limit, when an earlier call got it and
      nobody has given it back since, or when its estimate fits on top of what the reservations
      that stand in its tenant's period count for. The permit names that reservation. */
  lemma AnswerIsExact<T(!new), Q(!new)>(calls: seq<Call<T, Q>>, d: Verdicts, n: nat, limit: nat, period: nat)
    requires n < |calls| && calls[n].Reserve? && period > 0 && GrantsOf(calls, d, limit, period)
    ensures var k := Key(Account(calls[n].tenant, calls[n].now / period), calls[n].request);
            var fits := limit == 0
                        || (exists i: nat :: Has(calls, d, i, k, n, period))
                        || Sum(Standing(calls, d, k.account, n, period)) + calls[n].estimated <= limit;
            AnswerAt(calls, n, limit, period) == if fits then Granted(k) else Rejected
  {
    var k := Key(Account(calls[n].tenant, calls[n].now / period), calls[n].request);
    if limit > 0 {
      hide GrantsOf, After, Spent, Standing, Has;
      SpentIsCalls(calls, d, k.account, n, limit, period);
      BookIsCalls(calls, d, k, n, limit, period);
    }
  }
}

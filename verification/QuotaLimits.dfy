/** Rate limits of the scoped ledger over whole runs: what a minute or day counter holds
    stays within its limit exactly while the settlements fit, which are never checked. */
module QuotaLimits {
  import opened Sums
  import opened QuotaPlanning
  import opened QuotaBook
  import opened QuotaRuns

  ghost predicate Rates(c: Counter) {
    c.window != InFlight
  }

  lemma {:induction false} SettleAllAt(book: Book, plan: QuotaChargePlan, token: Token, actual: nat, c: Counter)
    requires Rates(c)
    ensures var entries := At(book, c);
            At(SettleAll(book, plan, token, actual), c)
            == if Charges(plan, c) && c.dimension == Tokens && token in entries
               then entries[token := entries[token].(amount := actual)] else entries
  {
    if plan != [] {
      var front, last := plan[..|plan| - 1], plan[|plan| - 1];
      SettleAllAt(book, front, token, actual, c);
      ChargesSplits(plan, c);
    }
  }

  lemma ChargesSplits(plan: QuotaChargePlan, c: Counter)
    requires plan != []
    ensures Charges(plan, c) <==> Charges(plan[..|plan| - 1], c) || plan[|plan| - 1].counter == c
  {
    var front := plan[..|plan| - 1];
    if k :| 0 <= k < |plan| && plan[k].counter == c && k < |front| {
      assert front[k].counter == c;
    }
    if k :| 0 <= k < |front| && front[k].counter == c {
      assert plan[k].counter == c;
    }
  }

  /** What counter c holds at `now` after n calls. */
  ghost function Used(calls: seq<Call>, n: nat, c: Counter, now: nat, leaseTtl: nat): nat
    requires n <= |calls|
  {
    Usage(c.window, At(After(calls, n, leaseTtl).book, c), now)
  }

  /** Setting the amount of one entry moves the usage by the difference, if it counts. */
  lemma UsageOfSet(entries: Entries, token: Token, e: Entry, window: Window, now: nat)
    requires window != InFlight
    ensures var counted := if token in entries && Live(window, entries[token], now) then entries[token].amount else 0;
            counted <= Usage(window, entries, now)
            && Usage(window, entries[token := e], now)
               == Usage(window, entries, now) - counted + if Live(window, e, now) then e.amount else 0
  {
    var before := LiveAmounts(window, entries, now);
    var after := LiveAmounts(window, entries[token := e], now);
    SumSet(before, token, 0);
    SumSet(after, token, 0);
    assert after[token := 0] == before[token := 0];
  }

  /** Call i settles a reservation of c that still counts. */
  ghost predicate Corrects(calls: seq<Call>, i: nat, c: Counter, leaseTtl: nat)
    requires i < |calls|
  {
    var l, call := After(calls, i, leaseTtl), calls[i];
    call.Settle? && call.reservation in l.permits && Charges(l.permits[call.reservation], c) && c.dimension == Tokens
    && call.reservation in At(l.book, c) && Live(c.window, At(l.book, c)[call.reservation], call.now)
  }

  /** What that reservation counted for before. */
  ghost function Corrected(calls: seq<Call>, i: nat, c: Counter, leaseTtl: nat): nat
    requires i < |calls| && Corrects(calls, i, c, leaseTtl)
  {
    At(After(calls, i, leaseTtl).book, c)[calls[i].reservation].amount
  }

  /** If call i corrects c, the new amount fits on top of what else c holds. */
  ghost predicate Fits(calls: seq<Call>, i: nat, c: Counter, limit: nat, leaseTtl: nat)
    requires i < |calls|
  {
    Corrects(calls, i, c, leaseTtl) ==>
      Used(calls, i, c, calls[i].now, leaseTtl) + calls[i].actual <= limit + Corrected(calls, i, c, leaseTtl)
  }

  /** Right after call i the counter is within its limit. */
  ghost predicate Within(calls: seq<Call>, i: nat, c: Counter, limit: nat, leaseTtl: nat)
    requires i < |calls|
  {
    Used(calls, i + 1, c, calls[i].now, leaseTtl) <= limit
  }

  /** No reservation is made against c under a limit above this one. */
  ghost predicate LimitedBy(calls: seq<Call>, c: Counter, limit: nat) {
    forall i, k :: 0 <= i < |calls| && calls[i].Reserve? && 0 <= k < |calls[i].plan| && calls[i].plan[k].counter == c ==>
                     calls[i].plan[k].limit <= limit
  }

  lemma SettlingMovesUsage(calls: seq<Call>, i: nat, c: Counter, leaseTtl: nat)
    requires i < |calls| && calls[i].Settle? && Rates(c)
    ensures var used, after := Used(calls, i, c, calls[i].now, leaseTtl), Used(calls, i + 1, c, calls[i].now, leaseTtl);
            if Corrects(calls, i, c, leaseTtl)
            then Corrected(calls, i, c, leaseTtl) <= used && after == used - Corrected(calls, i, c, leaseTtl) + calls[i].actual
            else after == used
  {
    hide Usage, SettleAll, Charges;
    var l := After(calls, i, leaseTtl);
    var token, actual, now := calls[i].reservation, calls[i].actual, calls[i].now;
    if token in l.permits {
      SettleAllAt(l.book, l.permits[token], token, actual, c);
      var entries := At(l.book, c);
      if Charges(l.permits[token], c) && c.dimension == Tokens && token in entries {
        UsageOfSet(entries, token, entries[token].(amount := actual), c.window, now);
      }
    }
  }

  lemma ReleasingKeepsUsage(calls: seq<Call>, i: nat, c: Counter, leaseTtl: nat)
    requires i < |calls| && calls[i].Release? && Rates(c)
    ensures Used(calls, i + 1, c, calls[i].now, leaseTtl) == Used(calls, i, c, calls[i].now, leaseTtl)
  {
    hide Usage, ReleaseAll;
    var l, k := After(calls, i, leaseTtl), calls[i].reservation;
    if k in l.permits {
      ReleaseAllElsewhere(l.book, l.permits[k], k, c);
    }
  }

  /** A reservation is only granted within the limit. */
  lemma GrantingStaysWithin(calls: seq<Call>, i: nat, c: Counter, limit: nat, leaseTtl: nat)
    requires i < |calls| && calls[i].Reserve? && Rates(c) && QuotaRuns.Executable(calls) && LimitedBy(calls, c, limit)
    ensures Used(calls, i, c, calls[i].now, leaseTtl) <= limit ==> Used(calls, i + 1, c, calls[i].now, leaseTtl) <= limit
  {
    hide Usage, ChargeAll, Live, After, Admits;
    var plan, now := calls[i].plan, calls[i].now;
    var l := After(calls, i, leaseTtl);
    StepIs(calls, i, leaseTtl);
    if plan != [] && Admits(l, plan, now) {
      if k :| 0 <= k < |plan| && plan[k].counter == c {
        ChargeAllAt(l.book, plan, i, now, leaseTtl, k);
        UsageOfSet(At(l.book, c), i, Entry(ExpiryOf(plan[k], now, leaseTtl), plan[k].amount), c.window, now);
        AdmittedFits(l, plan, now, k);
      } else {
        ChargeAllElsewhere(l.book, plan, i, now, leaseTtl, c);
      }
    }
  }

  lemma StepIs(calls: seq<Call>, i: nat, leaseTtl: nat)
    requires i < |calls|
    ensures After(calls, i + 1, leaseTtl) == Step(After(calls, i, leaseTtl), calls[i], i, leaseTtl)
  {
  }

  lemma AdmittedFits(l: Ledger, plan: QuotaChargePlan, now: nat, k: nat)
    requires k < |plan| && Admits(l, plan, now)
    ensures Usage(plan[k].counter.window, At(l.book, plan[k].counter), now) + plan[k].amount <= plan[k].limit
  {
    hide Usage;
    assert UsedBy(l.book, plan, now)[k] + plan[k].amount <= plan[k].limit;
  }

  lemma WithinStep(calls: seq<Call>, i: nat, c: Counter, limit: nat, leaseTtl: nat)
    requires i < |calls| && Rates(c) && QuotaRuns.Executable(calls) && LimitedBy(calls, c, limit)
    requires Used(calls, i, c, calls[i].now, leaseTtl) <= limit
    ensures Within(calls, i, c, limit, leaseTtl) <==> Fits(calls, i, c, limit, leaseTtl)
  {
    hide Used, LimitedBy, Corrected;
    match calls[i]
    case Reserve(_, _) => GrantingStaysWithin(calls, i, c, limit, leaseTtl);
    case Settle(_, _, _) => SettlingMovesUsage(calls, i, c, leaseTtl);
    case Release(_, _) => ReleasingKeepsUsage(calls, i, c, leaseTtl);
  }

  /** With time entries only stop counting. */
  lemma UsageOnlyLapses(window: Window, entries: Entries, before: nat, now: nat)
    requires window != InFlight && before <= now
    ensures Usage(window, entries, now) <= Usage(window, entries, before)
  {
    var late, early := LiveAmounts(window, entries, now), LiveAmounts(window, entries, before);
    SumOfPart(late, early);
  }

  lemma WithinBefore(calls: seq<Call>, n: nat, c: Counter, now: nat, limit: nat, leaseTtl: nat)
    requires n <= |calls| && Rates(c) && (n > 0 ==> Within(calls, n - 1, c, limit, leaseTtl) && calls[n - 1].now <= now)
    ensures Used(calls, n, c, now, leaseTtl) <= limit
  {
    hide Usage;
    if n == 0 {
      NothingUsed(c.window, now);
    } else {
      UsageOnlyLapses(c.window, At(After(calls, n, leaseTtl).book, c), calls[n - 1].now, now);
    }
  }

  lemma NothingUsed(window: Window, now: nat)
    ensures Usage(window, map[], now) == 0
  {
    var none: Entries := map[];
    assert LiveAmounts(window, none, now) == map[];
  }

  /** A minute or day counter, of requests or tokens, is within its limit after each call
      of a run exactly when each settlement on it fits: grants never pass the limit. */
  lemma {:induction false} WhenRunKeepsLimit(calls: seq<Call>, n: nat, c: Counter, limit: nat, leaseTtl: nat)
    requires n <= |calls| && Rates(c) && QuotaRuns.Executable(calls) && LimitedBy(calls, c, limit)
    ensures (forall i :: 0 <= i < n ==> Within(calls, i, c, limit, leaseTtl))
            <==> (forall i :: 0 <= i < n ==> Fits(calls, i, c, limit, leaseTtl))
  {
    hide Within, Fits, Used, After, LimitedBy, Rates;
    if n > 0 {
      WhenRunKeepsLimit(calls, n - 1, c, limit, leaseTtl);
      if forall i :: 0 <= i < n - 1 ==> Within(calls, i, c, limit, leaseTtl) {
        WithinBefore(calls, n - 1, c, calls[n - 1].now, limit, leaseTtl);
        WithinStep(calls, n - 1, c, limit, leaseTtl);
      }
    }
  }

  /** Every settlement that counts takes back tokens, or none. */
  ghost predicate OnlyLowers(calls: seq<Call>, n: nat, c: Counter, leaseTtl: nat)
    requires n <= |calls|
  {
    forall i :: 0 <= i < n && Corrects(calls, i, c, leaseTtl) ==> calls[i].actual <= Corrected(calls, i, c, leaseTtl)
  }

  /** So no run that settles at most what it reserved passes a minute or a day limit, at
      any later moment either. */
  lemma {:induction false} LoweringKeepsLimit(calls: seq<Call>, n: nat, c: Counter, now: nat, limit: nat, leaseTtl: nat)
    requires n <= |calls| && Rates(c) && QuotaRuns.Executable(calls) && LimitedBy(calls, c, limit)
    requires OnlyLowers(calls, n, c, leaseTtl) && (n > 0 ==> calls[n - 1].now <= now)
    ensures Used(calls, n, c, now, leaseTtl) <= limit
  {
    hide Used, After, LimitedBy, Corrects, Corrected, Within, Rates;
    if n > 0 {
      LoweringKeepsLimit(calls, n - 1, c, calls[n - 1].now, limit, leaseTtl);
      WithinStep(calls, n - 1, c, limit, leaseTtl);
    }
    WithinBefore(calls, n, c, now, limit, leaseTtl);
  }

  /** The calls that were granted and charged c. */
  ghost function GrantedTo(calls: seq<Call>, n: nat, c: Counter, leaseTtl: nat): set<nat>
    requires n <= |calls|
  {
    set i | 0 <= i < n && Grants(calls, i, c, leaseTtl)
  }

  /** No day contains more grants than its limit. */
  lemma AtMostLimitPerDay(calls: seq<Call>, n: nat, c: Counter, limit: nat, leaseTtl: nat)
    requires n <= |calls| && QuotaRuns.Executable(calls) && LimitedTo(calls, c, limit)
    requires c.window == Day && c.dimension != Tokens
    ensures |GrantedTo(calls, n, c, leaseTtl)| <= limit
  {
    hide Grants, After, Usage;
    BookIsHistory(calls, n, c, limit, leaseTtl);
    if n > 0 {
      var now := calls[n - 1].now;
      LoweringKeepsLimit(calls, n, c, now, limit, leaseTtl);
      var entries := At(After(calls, n, leaseTtl).book, c);
      DayCountsAll(entries, now);
      assert entries.Keys == GrantedTo(calls, n, c, leaseTtl);
    } else {
      assert GrantedTo(calls, n, c, leaseTtl) == {};
    }
  }

  lemma DayCountsAll(entries: Entries, now: nat)
    requires forall t :: t in entries ==> entries[t].amount == 1
    ensures Usage(Day, entries, now) == |entries.Keys|
  {
    var live := LiveAmounts(Day, entries, now);
    SumOfOnes(live);
    assert live.Keys == entries.Keys;
  }
}

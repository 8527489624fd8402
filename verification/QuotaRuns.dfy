/** Whole runs of the scoped quota ledger: what the book says after any sequence
    of reserve, settle and release calls, and the rate bounds that follow. */
module QuotaRuns {
  import opened Sets
  import opened Sums
  import opened QuotaPlanning
  import opened QuotaBook

  /** A call. `Settle` and `Release` name the earlier call that made the reservation. */
  datatype Call =
    | Reserve(plan: QuotaChargePlan, now: nat)
    | Settle(reservation: nat, actual: nat, now: nat)
    | Release(reservation: nat, now: nat)

  /** The book and the outstanding permits, both naming a reservation by its call. */
  datatype Ledger = Ledger(book: Book, permits: map<nat, QuotaChargePlan>)

  const Opening := Ledger(map[], map[])

  ghost predicate Admits(l: Ledger, plan: QuotaChargePlan, now: nat) {
    FirstBreach(plan, UsedBy(l.book, plan, now)).None?
  }

  ghost function Step(l: Ledger, call: Call, n: nat, leaseTtl: nat): Ledger {
    match call
    case Reserve(plan, now) =>
      if plan == [] || !Admits(l, plan, now) then l
      else Ledger(ChargeAll(l.book, plan, n, now, leaseTtl), l.permits[n := plan])
    case Settle(k, actual, _) =>
      if k in l.permits then l.(book := SettleAll(l.book, l.permits[k], k, actual)) else l
    case Release(k, _) =>
      if k in l.permits then l.(book := ReleaseAll(l.book, l.permits[k], k)) else l
  }

  /** The ledger after the first n calls. */
  ghost function After(calls: seq<Call>, n: nat, leaseTtl: nat): Ledger
    requires n <= |calls|
  {
    if n == 0 then Opening else Step(After(calls, n - 1, leaseTtl), calls[n - 1], n - 1, leaseTtl)
  }

  /** Time never runs backwards and every plan is a planner's. */
  ghost predicate Executable(calls: seq<Call>) {
    (forall i, j :: 0 <= i < j < |calls| ==> calls[i].now <= calls[j].now)
    && forall i :: 0 <= i < |calls| && calls[i].Reserve? ==> QuotaBook.Executable(calls[i].plan)
  }

  /** Call i was granted and charged counter c. */
  ghost predicate Grants(calls: seq<Call>, i: nat, c: Counter, leaseTtl: nat) {
    i < |calls| && calls[i].Reserve? && Admits(After(calls, i, leaseTtl), calls[i].plan, calls[i].now)
    && Charges(calls[i].plan, c)
  }

  ghost predicate Charges(plan: QuotaChargePlan, c: Counter) {
    exists k :: 0 <= k < |plan| && plan[k].counter == c
  }

  // What settling and releasing leave alone.

  lemma {:induction false} SettleAllElsewhere(book: Book, plan: QuotaChargePlan, token: Token, actual: nat, c: Counter)
    requires c.dimension != Tokens || c.window == InFlight
    ensures At(SettleAll(book, plan, token, actual), c) == At(book, c)
  {
    if plan != [] {
      SettleAllElsewhere(book, plan[..|plan| - 1], token, actual, c);
    }
  }

  lemma {:induction false} ReleaseAllElsewhere(book: Book, plan: QuotaChargePlan, token: Token, c: Counter)
    requires c.window != InFlight
    ensures At(ReleaseAll(book, plan, token), c) == At(book, c)
  {
    if plan != [] {
      ReleaseAllElsewhere(book, plan[..|plan| - 1], token, c);
    }
  }

  // Request counters remember every grant.

  /** Every reservation charging c asks for one request within limit L. */
  ghost predicate LimitedTo(calls: seq<Call>, c: Counter, limit: nat) {
    forall i, k :: 0 <= i < |calls| && calls[i].Reserve? && 0 <= k < |calls[i].plan| && calls[i].plan[k].counter == c ==>
                     calls[i].plan[k].amount == 1 && calls[i].plan[k].limit <= limit
  }

  /** The entries of a counter for requests are exactly the granted calls, each with the
      end of its own window. */
  ghost predicate IsHistory(calls: seq<Call>, n: nat, c: Counter, leaseTtl: nat)
    requires n <= |calls|
  {
    var entries := At(After(calls, n, leaseTtl).book, c);
    (forall i: nat :: i in entries <==> i < n && Grants(calls, i, c, leaseTtl))
    && (forall i: nat :: i in entries ==> i < n && entries[i] == Entry(calls[i].now + WindowMillis(c.window), 1))
  }

  lemma {:induction false} BookIsHistory(calls: seq<Call>, n: nat, c: Counter, limit: nat, leaseTtl: nat)
    requires n <= |calls| && Executable(calls) && LimitedTo(calls, c, limit)
    requires c.window != InFlight && c.dimension != Tokens
    ensures IsHistory(calls, n, c, leaseTtl)
  {
    hide *;
    if n == 0 {
      HistoryStartsEmpty(calls, c, leaseTtl);
    } else {
      BookIsHistory(calls, n - 1, c, limit, leaseTtl);
      HistoryGrows(calls, n - 1, c, limit, leaseTtl);
    }
  }

  lemma HistoryStartsEmpty(calls: seq<Call>, c: Counter, leaseTtl: nat)
    ensures IsHistory(calls, 0, c, leaseTtl)
  {
  }

  lemma HistoryStays(calls: seq<Call>, n: nat, c: Counter, leaseTtl: nat)
    requires n < |calls| && IsHistory(calls, n, c, leaseTtl) && !Grants(calls, n, c, leaseTtl)
    requires At(After(calls, n + 1, leaseTtl).book, c) == At(After(calls, n, leaseTtl).book, c)
    ensures IsHistory(calls, n + 1, c, leaseTtl)
  {
    hide After, Grants;
  }

  lemma HistoryGains(calls: seq<Call>, n: nat, c: Counter, leaseTtl: nat)
    requires n < |calls| && IsHistory(calls, n, c, leaseTtl) && Grants(calls, n, c, leaseTtl)
    requires At(After(calls, n + 1, leaseTtl).book, c)
             == At(After(calls, n, leaseTtl).book, c)[n := Entry(calls[n].now + WindowMillis(c.window), 1)]
    ensures IsHistory(calls, n + 1, c, leaseTtl)
  {
    hide After, Grants;
  }

  lemma HistoryGrows(calls: seq<Call>, n: nat, c: Counter, limit: nat, leaseTtl: nat)
    requires n < |calls| && Executable(calls) && LimitedTo(calls, c, limit)
    requires c.window != InFlight && c.dimension != Tokens
    requires IsHistory(calls, n, c, leaseTtl)
    ensures IsHistory(calls, n + 1, c, leaseTtl)
  {
    hide *;
    if Grants(calls, n, c, leaseTtl) {
      GrantAddsEntry(calls, n, c, limit, leaseTtl);
      HistoryGains(calls, n, c, leaseTtl);
    } else {
      NoGrantNoChange(calls, n, c, leaseTtl);
      HistoryStays(calls, n, c, leaseTtl);
    }
  }

  lemma GrantAddsEntry(calls: seq<Call>, n: nat, c: Counter, limit: nat, leaseTtl: nat)
    requires n < |calls| && Executable(calls) && LimitedTo(calls, c, limit) && c.window != InFlight
    requires Grants(calls, n, c, leaseTtl)
    ensures At(After(calls, n + 1, leaseTtl).book, c)
            == At(After(calls, n, leaseTtl).book, c)[n := Entry(calls[n].now + WindowMillis(c.window), 1)]
  {
    hide ChargeAll, UsedBy, FirstBreach, SettleAll, ReleaseAll;
    var plan := calls[n].plan;
    var k :| 0 <= k < |plan| && plan[k].counter == c;
    ChargeAllAt(After(calls, n, leaseTtl).book, plan, n, calls[n].now, leaseTtl, k);
  }

  lemma NoGrantNoChange(calls: seq<Call>, n: nat, c: Counter, leaseTtl: nat)
    requires n < |calls| && !Grants(calls, n, c, leaseTtl)
    requires c.window != InFlight && c.dimension != Tokens
    ensures At(After(calls, n + 1, leaseTtl).book, c) == At(After(calls, n, leaseTtl).book, c)
  {
    var before := After(calls, n, leaseTtl);
    match calls[n]
    case Settle(k, actual, _) =>
      if k in before.permits {
        SettleAllElsewhere(before.book, before.permits[k], k, actual, c);
      }
    case Release(k, _) =>
      if k in before.permits {
        ReleaseAllElsewhere(before.book, before.permits[k], k, c);
      }
    case Reserve(plan, now) =>
      if Admits(before, plan, now) {
        ChargeAllElsewhere(before.book, plan, n, now, leaseTtl, c);
      }
  }

  /** The calls granted to c in the window (T - 60 s, T]. */
  ghost function GrantedIn(calls: seq<Call>, n: nat, c: Counter, end: int, leaseTtl: nat): set<nat>
    requires n <= |calls|
  {
    set i | 0 <= i < n && Grants(calls, i, c, leaseTtl) && end - MINUTE_WINDOW_MILLIS < calls[i].now <= end
  }

  /** The sliding-window bound: with a fixed limit, no window of sixty seconds,
      wherever it ends, contains more grants than the limit - for every
      interleaving of reserve, settle and release. */
  lemma {:induction false} AtMostLimitPerWindow(
    calls: seq<Call>, n: nat, c: Counter, limit: nat, end: int, leaseTtl: nat)
    requires n <= |calls| && Executable(calls) && LimitedTo(calls, c, limit)
    requires c.window == Minute && c.dimension != Tokens
    ensures |GrantedIn(calls, n, c, end, leaseTtl)| <= limit
  {
    hide *;
    if n == 0 {
      NothingGranted(calls, c, end, leaseTtl);
    } else {
      var i := n - 1;
      AtMostLimitPerWindow(calls, i, c, limit, end, leaseTtl);
      GrantedInGrows(calls, i, c, end, leaseTtl);
      if Grants(calls, i, c, leaseTtl) && end - MINUTE_WINDOW_MILLIS < calls[i].now <= end {
        BookIsHistory(calls, i, c, limit, leaseTtl);
        RoomForOneMore(calls, i, c, limit, end, leaseTtl);
      }
    }
  }

  lemma NothingGranted(calls: seq<Call>, c: Counter, end: int, leaseTtl: nat)
    ensures |GrantedIn(calls, 0, c, end, leaseTtl)| == 0
  {
    assert GrantedIn(calls, 0, c, end, leaseTtl) == {};
  }

  lemma GrantedInGrows(calls: seq<Call>, i: nat, c: Counter, end: int, leaseTtl: nat)
    requires i < |calls|
    ensures |GrantedIn(calls, i + 1, c, end, leaseTtl)|
            == |GrantedIn(calls, i, c, end, leaseTtl)|
               + if Grants(calls, i, c, leaseTtl) && end - MINUTE_WINDOW_MILLIS < calls[i].now <= end then 1 else 0
  {
    hide Grants, After;
    var grants := GrantedIn(calls, i, c, end, leaseTtl);
    if Grants(calls, i, c, leaseTtl) && end - MINUTE_WINDOW_MILLIS < calls[i].now <= end {
      assert GrantedIn(calls, i + 1, c, end, leaseTtl) == grants + {i};
    } else {
      assert GrantedIn(calls, i + 1, c, end, leaseTtl) == grants;
    }
  }

  /** When a call is granted, everything granted in a window around it is still
      counted, and one more fits. */
  lemma RoomForOneMore(calls: seq<Call>, i: nat, c: Counter, limit: nat, end: int, leaseTtl: nat)
    requires i < |calls| && Executable(calls) && LimitedTo(calls, c, limit) && IsHistory(calls, i, c, leaseTtl)
    requires c.window == Minute && c.dimension != Tokens
    requires Grants(calls, i, c, leaseTtl) && end - MINUTE_WINDOW_MILLIS < calls[i].now <= end
    ensures |GrantedIn(calls, i, c, end, leaseTtl)| + 1 <= limit
  {
    var before := After(calls, i, leaseTtl);
    var plan, now := calls[i].plan, calls[i].now;
    var k :| 0 <= k < |plan| && plan[k].counter == c;
    var entries := At(before.book, c);
    var live := LiveAmounts(c.window, entries, now);
    assert UsedBy(before.book, plan, now)[k] + plan[k].amount <= plan[k].limit;
    SumOfOnes(live);
    forall j | j in GrantedIn(calls, i, c, end, leaseTtl)
      ensures j in live.Keys
    {
      assert entries[j].expires > end >= now;
    }
    SubsetSize(GrantedIn(calls, i, c, end, leaseTtl), live.Keys);
  }

  // Concurrency.

  /** Call i, which got a slot of c, was given back before call n. */
  ghost predicate ReleasedBefore(calls: seq<Call>, i: nat, n: nat)
    requires n <= |calls|
  {
    exists m :: i < m < n && calls[m].Release? && calls[m].reservation == i
  }

  /** Calls granted a slot of c and not given back, whose lease still runs at `now`. */
  ghost predicate IsRunning(calls: seq<Call>, i: nat, n: nat, c: Counter, now: nat, leaseTtl: nat)
    requires n <= |calls|
  {
    i < n && Grants(calls, i, c, leaseTtl) && !ReleasedBefore(calls, i, n) && now < calls[i].now + leaseTtl
  }

  ghost function Running(calls: seq<Call>, n: nat, c: Counter, now: nat, leaseTtl: nat): set<nat>
    requires n <= |calls|
  {
    set i | 0 <= i < n && IsRunning(calls, i, n, c, now, leaseTtl)
  }

  /** A permit is the plan of its own call, granted before. */
  lemma {:induction false} PermitsAreCalls(calls: seq<Call>, n: nat, k: nat, leaseTtl: nat)
    requires n <= |calls|
    ensures k in After(calls, n, leaseTtl).permits <==>
            k < n && calls[k].Reserve? && calls[k].plan != [] && Admits(After(calls, k, leaseTtl), calls[k].plan, calls[k].now)
    ensures k in After(calls, n, leaseTtl).permits ==> After(calls, n, leaseTtl).permits[k] == calls[k].plan
  {
    if n > 0 {
      hide Admits, ChargeAll, SettleAll, ReleaseAll;
      PermitsAreCalls(calls, n - 1, k, leaseTtl);
    }
  }

  lemma {:induction false} ReleaseAllAt(book: Book, plan: QuotaChargePlan, token: Token, c: Counter)
    requires c.window == InFlight
    ensures At(ReleaseAll(book, plan, token), c) == if Charges(plan, c) then At(book, c) - {token} else At(book, c)
  {
    if plan != [] {
      var front, last := plan[..|plan| - 1], plan[|plan| - 1];
      ReleaseAllAt(book, front, token, c);
      assert forall k :: 0 <= k < |front| ==> plan[k] == front[k];
      if Charges(plan, c) && !Charges(front, c) {
        assert last.counter == c;
      }
    }
  }

  /** The entries of an in-flight counter are exactly the granted calls not given back,
      each until the end of its own lease. */
  ghost predicate HoldsSlots(calls: seq<Call>, n: nat, c: Counter, leaseTtl: nat)
    requires n <= |calls|
  {
    var entries := At(After(calls, n, leaseTtl).book, c);
    (forall i: nat :: i in entries <==> i < n && Grants(calls, i, c, leaseTtl) && !ReleasedBefore(calls, i, n))
    && (forall i: nat :: i in entries ==> i < n && entries[i].expires == calls[i].now + leaseTtl)
  }

  lemma {:induction false} SlotsAreCalls(calls: seq<Call>, n: nat, c: Counter, leaseTtl: nat)
    requires n <= |calls| && Executable(calls) && c.window == InFlight
    ensures HoldsSlots(calls, n, c, leaseTtl)
  {
    hide *;
    if n == 0 {
      NoSlots(calls, c, leaseTtl);
    } else {
      SlotsAreCalls(calls, n - 1, c, leaseTtl);
      SlotEntries(calls, n - 1, c, leaseTtl);
      SlotsStep(calls, n - 1, c, leaseTtl);
    }
  }

  lemma NoSlots(calls: seq<Call>, c: Counter, leaseTtl: nat)
    ensures HoldsSlots(calls, 0, c, leaseTtl)
  {
  }

  /** What one call does to the slots: a grant adds its own, a release of a call that
      was granted one takes that one out. */
  ghost predicate SlotsChange(calls: seq<Call>, n: nat, c: Counter, leaseTtl: nat)
    requires n < |calls|
  {
    var before, after := At(After(calls, n, leaseTtl).book, c), At(After(calls, n + 1, leaseTtl).book, c);
    if Grants(calls, n, c, leaseTtl) then
      n in after && after[n].expires == calls[n].now + leaseTtl && after - {n} == before - {n}
    else if calls[n].Release? && calls[n].reservation < n && Grants(calls, calls[n].reservation, c, leaseTtl) then
      after == before - {calls[n].reservation}
    else after == before
  }

  lemma SlotEntries(calls: seq<Call>, n: nat, c: Counter, leaseTtl: nat)
    requires n < |calls| && Executable(calls) && c.window == InFlight
    ensures SlotsChange(calls, n, c, leaseTtl)
  {
    hide ChargeAll, UsedBy, FirstBreach, SettleAll, ReleaseAll, Admits;
    var l := After(calls, n, leaseTtl);
    match calls[n]
    case Reserve(plan, now) =>
      if Grants(calls, n, c, leaseTtl) {
        var k :| 0 <= k < |plan| && plan[k].counter == c;
        ChargeAllAt(l.book, plan, n, now, leaseTtl, k);
      } else if Admits(l, plan, now) {
        ChargeAllElsewhere(l.book, plan, n, now, leaseTtl, c);
      }
    case Settle(k, actual, _) =>
      if k in l.permits {
        SettleAllElsewhere(l.book, l.permits[k], k, actual, c);
      }
    case Release(k, _) =>
      PermitsAreCalls(calls, n, k, leaseTtl);
      if k in l.permits {
        ReleaseAllAt(l.book, l.permits[k], k, c);
      }
  }

  lemma ReleasedStep(calls: seq<Call>, i: nat, n: nat)
    requires n < |calls|
    ensures ReleasedBefore(calls, i, n + 1)
            <==> ReleasedBefore(calls, i, n) || (i < n && calls[n].Release? && calls[n].reservation == i)
    ensures i >= n ==> !ReleasedBefore(calls, i, n + 1)
  {
  }

  lemma SlotsStep(calls: seq<Call>, n: nat, c: Counter, leaseTtl: nat)
    requires n < |calls| && HoldsSlots(calls, n, c, leaseTtl) && SlotsChange(calls, n, c, leaseTtl)
    ensures HoldsSlots(calls, n + 1, c, leaseTtl)
  {
    hide SlotsChange, HoldsSlots, ReleasedBefore, After, Grants, At;
    var next := n + 1;
    forall i: nat
      ensures HoldsSlot(calls, i, next, c, leaseTtl)
    {
      SlotStep(calls, i, n, c, leaseTtl);
    }
    SlotBySlot(calls, next, c, leaseTtl);
  }

  ghost predicate HoldsSlot(calls: seq<Call>, i: nat, n: nat, c: Counter, leaseTtl: nat)
    requires n <= |calls|
  {
    var entries := At(After(calls, n, leaseTtl).book, c);
    (i in entries <==> i < n && Grants(calls, i, c, leaseTtl) && !ReleasedBefore(calls, i, n))
    && (i in entries ==> i < n && entries[i].expires == calls[i].now + leaseTtl)
  }

  lemma SlotBySlot(calls: seq<Call>, n: nat, c: Counter, leaseTtl: nat)
    requires n <= |calls| && forall i: nat :: HoldsSlot(calls, i, n, c, leaseTtl)
    ensures HoldsSlots(calls, n, c, leaseTtl)
  {
    hide Grants, ReleasedBefore, After, At;
    forall i: nat
      ensures i in At(After(calls, n, leaseTtl).book, c) <==>
              i < n && Grants(calls, i, c, leaseTtl) && !ReleasedBefore(calls, i, n)
      ensures i in At(After(calls, n, leaseTtl).book, c) ==>
                i < n && At(After(calls, n, leaseTtl).book, c)[i].expires == calls[i].now + leaseTtl
    {
      assert HoldsSlot(calls, i, n, c, leaseTtl);
    }
  }

  lemma Beside(a: Entries, b: Entries, n: Token, i: Token)
    requires a - {n} == b - {n} && i != n
    ensures (i in a <==> i in b) && (i in a ==> a[i] == b[i])
  {
    assert (i in a <==> i in a - {n}) && (i in b <==> i in b - {n});
    assert (i in a ==> a[i] == (a - {n})[i]) && (i in b ==> b[i] == (b - {n})[i]);
  }

  lemma SlotStep(calls: seq<Call>, i: nat, n: nat, c: Counter, leaseTtl: nat)
    requires n < |calls| && HoldsSlots(calls, n, c, leaseTtl) && SlotsChange(calls, n, c, leaseTtl)
    ensures HoldsSlot(calls, i, n + 1, c, leaseTtl)
  {
    hide ReleasedBefore, After, Admits, Charges, At;
    ReleasedStep(calls, i, n);
    var before, after := At(After(calls, n, leaseTtl).book, c), At(After(calls, n + 1, leaseTtl).book, c);
    assert i in before <==> i < n && Grants(calls, i, c, leaseTtl) && !ReleasedBefore(calls, i, n);
    if Grants(calls, n, c, leaseTtl) {
      if i != n {
        Beside(after, before, n, i);
      }
    } else if calls[n].Release? && calls[n].reservation < n && Grants(calls, calls[n].reservation, c, leaseTtl) {
      assert after == before - {calls[n].reservation};
    } else {
      assert after == before;
    }
  }

  /** What the counter finds in use are the calls running. */
  lemma RunningIsCounted(calls: seq<Call>, n: nat, c: Counter, now: nat, leaseTtl: nat)
    requires n <= |calls| && Executable(calls) && c.window == InFlight
    ensures Running(calls, n, c, now, leaseTtl) == LiveEntries(c.window, At(After(calls, n, leaseTtl).book, c), now).Keys
  {
    hide After, ReleasedBefore, Grants;
    SlotsAreCalls(calls, n, c, leaseTtl);
  }

  /** At no moment do more granted and unreleased calls run within their lease than the
      limit allows, for every interleaving of reserve, settle and release. */
  lemma {:induction false} AtMostLimitInFlight(calls: seq<Call>, n: nat, c: Counter, limit: nat, now: nat, leaseTtl: nat)
    requires n <= |calls| && Executable(calls) && LimitedTo(calls, c, limit) && c.window == InFlight
    requires n > 0 ==> calls[n - 1].now <= now
    ensures |Running(calls, n, c, now, leaseTtl)| <= limit
  {
    hide *;
    if n == 0 {
      NobodyRuns(calls, c, now, leaseTtl);
    } else {
      var i := n - 1;
      Earlier(calls, i);
      if Grants(calls, i, c, leaseTtl) {
        SlotForOneMore(calls, i, c, limit, now, leaseTtl);
      } else {
        AtMostLimitInFlight(calls, i, c, limit, now, leaseTtl);
        NobodyNewRuns(calls, i, c, now, leaseTtl);
        SubsetSize(Running(calls, n, c, now, leaseTtl), Running(calls, i, c, now, leaseTtl));
      }
    }
  }

  lemma Earlier(calls: seq<Call>, i: nat)
    requires i < |calls| && Executable(calls)
    ensures i > 0 ==> calls[i - 1].now <= calls[i].now
  {
  }

  lemma NobodyRuns(calls: seq<Call>, c: Counter, now: nat, leaseTtl: nat)
    ensures |Running(calls, 0, c, now, leaseTtl)| == 0
  {
    assert Running(calls, 0, c, now, leaseTtl) == {};
  }

  /** Without a grant nobody starts to run, and with time nobody runs again. */
  lemma NobodyNewRuns(calls: seq<Call>, n: nat, c: Counter, now: nat, leaseTtl: nat)
    requires n < |calls|
    ensures Running(calls, n + 1, c, now, leaseTtl) <= Running(calls, n, c, now, leaseTtl) + {n}
    ensures !Grants(calls, n, c, leaseTtl) ==> Running(calls, n + 1, c, now, leaseTtl) <= Running(calls, n, c, now, leaseTtl)
  {
    hide Grants, ReleasedBefore;
    forall i | i in Running(calls, n + 1, c, now, leaseTtl) && i != n
      ensures i in Running(calls, n, c, now, leaseTtl)
    {
      ReleasedStep(calls, i, n);
    }
  }

  lemma StillRuns(calls: seq<Call>, n: nat, c: Counter, at: nat, now: nat, leaseTtl: nat)
    requires n <= |calls| && at <= now
    ensures Running(calls, n, c, now, leaseTtl) <= Running(calls, n, c, at, leaseTtl)
  {
    hide Grants, ReleasedBefore;
  }

  lemma SlotForOneMore(calls: seq<Call>, i: nat, c: Counter, limit: nat, now: nat, leaseTtl: nat)
    requires i < |calls| && Executable(calls) && LimitedTo(calls, c, limit) && c.window == InFlight
    requires Grants(calls, i, c, leaseTtl) && calls[i].now <= now
    ensures |Running(calls, i + 1, c, now, leaseTtl)| <= limit
  {
    hide *;
    var at := calls[i].now;
    SlotIsFree(calls, i, c, limit, leaseTtl);
    RunningIsCounted(calls, i, c, at, leaseTtl);
    StillRuns(calls, i, c, at, now, leaseTtl);
    NobodyNewRuns(calls, i, c, now, leaseTtl);
    SubsetSize(Running(calls, i + 1, c, now, leaseTtl), Running(calls, i, c, at, leaseTtl) + {i});
  }

  lemma SlotIsFree(calls: seq<Call>, i: nat, c: Counter, limit: nat, leaseTtl: nat)
    requires i < |calls| && Executable(calls) && LimitedTo(calls, c, limit) && c.window == InFlight
    requires Grants(calls, i, c, leaseTtl)
    ensures |LiveEntries(c.window, At(After(calls, i, leaseTtl).book, c), calls[i].now).Keys| < limit
  {
    hide After;
    var l, plan, now := After(calls, i, leaseTtl), calls[i].plan, calls[i].now;
    var k :| 0 <= k < |plan| && plan[k].counter == c;
    assert UsedBy(l.book, plan, now)[k] + plan[k].amount <= plan[k].limit;
    var live := LiveEntries(c.window, At(l.book, c), now);
    assert |live.Keys| == |live|;
  }
}

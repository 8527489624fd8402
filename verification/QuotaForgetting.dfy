/** Redis forgets a day counter two days after its latest grant. Which runs notice, and
    the agreement of the two backends. */
module QuotaForgetting {
  import opened Results
  import opened Sums
  import opened QuotaPlanning
  import opened QuotaBook
  import opened QuotaRuns
  import opened QuotaLimits
  import opened QuotaBackends
  import opened RedisQuota

  // The two reference runs side by side.

  /** The books agree on everything that is kept at `now`. */
  ghost predicate SameKept(a: Book, b: Book, now: nat) {
    forall c: Counter :: KeptEntries(c, At(a, c), now) == KeptEntries(c, At(b, c), now)
  }

  lemma KeptLater(c: Counter, entries: Entries, now: nat, later: nat)
    requires now <= later
    ensures KeptEntries(c, KeptEntries(c, entries, now), later) == KeptEntries(c, entries, later)
  {
    if c.window == Day && entries != map[] {
      if t :| t in entries && later <= entries[t].expires + DAY_WINDOW_MILLIS {
        assert now <= entries[t].expires + DAY_WINDOW_MILLIS;
      }
    }
  }

  lemma SameLater(a: Book, b: Book, now: nat, later: nat)
    requires SameKept(a, b, now) && now <= later
    ensures SameKept(a, b, later)
  {
    hide KeptEntries;
    forall c: Counter
      ensures KeptEntries(c, At(a, c), later) == KeptEntries(c, At(b, c), later)
    {
      KeptLater(c, At(a, c), now, later);
      KeptLater(c, At(b, c), now, later);
    }
  }

  /** Entries with an amount changed stay or go as before. */
  lemma KeptAfterSettling(c: Counter, entries: Entries, token: Token, actual: nat, now: nat)
    requires token in entries
    ensures var settled := entries[token := entries[token].(amount := actual)];
            KeptEntries(c, settled, now) == if StillKept(c, entries, now) then settled else map[]
  {
    var settled := entries[token := entries[token].(amount := actual)];
    assert forall t :: t in settled <==> t in entries;
    assert forall t :: t in entries ==> settled[t].expires == entries[t].expires;
    if t :| t in entries && now <= entries[t].expires + DAY_WINDOW_MILLIS {
      assert t in settled;
    }
    if t :| t in settled && now <= settled[t].expires + DAY_WINDOW_MILLIS {
      assert t in entries;
    }
  }

  ghost function SettledEntries(entries: Entries, token: Token, actual: nat): Entries {
    if token in entries then entries[token := entries[token].(amount := actual)] else entries
  }

  lemma SettledAlike(c: Counter, x: Entries, y: Entries, token: Token, actual: nat, now: nat)
    requires KeptEntries(c, x, now) == KeptEntries(c, y, now)
    ensures KeptEntries(c, SettledEntries(KeptEntries(c, x, now), token, actual), now) == KeptEntries(c, SettledEntries(y, token, actual), now)
  {
    if token in y {
      KeptAfterSettling(c, y, token, actual, now);
    }
    KeptLater(c, y, now, now);
  }

  lemma SettledSame(a: Book, b: Book, plan: QuotaChargePlan, token: Token, actual: nat, now: nat)
    requires SameKept(a, b, now)
    ensures SameKept(SettleAll(KeptBook(a, now), plan, token, actual), SettleAll(b, plan, token, actual), now)
  {
    hide KeptEntries, KeptBook, SettleAll, SettledEntries;
    forall c: Counter
      ensures KeptEntries(c, At(SettleAll(KeptBook(a, now), plan, token, actual), c), now)
              == KeptEntries(c, At(SettleAll(b, plan, token, actual), c), now)
    {
      KeptAt(a, c, now);
      KeptLater(c, At(a, c), now, now);
      if c.window == InFlight || c.dimension != Tokens {
        SettleAllElsewhere(KeptBook(a, now), plan, token, actual, c);
        SettleAllElsewhere(b, plan, token, actual, c);
      } else {
        SettledAt(KeptBook(a, now), plan, token, actual, c);
        SettledAt(b, plan, token, actual, c);
        SettledAlike(c, At(a, c), At(b, c), token, actual, now);
      }
    }
  }

  lemma SettledAt(book: Book, plan: QuotaChargePlan, token: Token, actual: nat, c: Counter)
    requires c.window != InFlight && c.dimension == Tokens
    ensures At(SettleAll(book, plan, token, actual), c)
            == if Charges(plan, c) then SettledEntries(At(book, c), token, actual) else At(book, c)
  {
    hide SettleAll, Charges;
    SettleAllAt(book, plan, token, actual, c);
  }

  lemma ReleasedSame(a: Book, b: Book, plan: QuotaChargePlan, token: Token, now: nat)
    requires SameKept(a, b, now)
    ensures SameKept(ReleaseAll(KeptBook(a, now), plan, token), ReleaseAll(b, plan, token), now)
  {
    hide KeptBook, ReleaseAll, Charges;
    forall c: Counter
      ensures KeptEntries(c, At(ReleaseAll(KeptBook(a, now), plan, token), c), now)
              == KeptEntries(c, At(ReleaseAll(b, plan, token), c), now)
    {
      KeptAt(a, c, now);
      if c.window == InFlight {
        ReleaseAllAt(KeptBook(a, now), plan, token, c);
        ReleaseAllAt(b, plan, token, c);
      } else {
        ReleaseAllElsewhere(KeptBook(a, now), plan, token, c);
        ReleaseAllElsewhere(b, plan, token, c);
        KeptLater(c, At(a, c), now, now);
      }
    }
  }

  lemma ChargedSame(a: Book, b: Book, plan: QuotaChargePlan, token: Token, now: nat, leaseTtl: nat)
    requires SameKept(a, b, now) && Remembered(b, plan, now) && StrictlyRanked(plan)
    ensures SameKept(ChargeAll(KeptBook(a, now), plan, token, now, leaseTtl), ChargeAll(b, plan, token, now, leaseTtl), now)
  {
    hide KeptBook, ChargeAll, StillKept;
    forall c: Counter
      ensures KeptEntries(c, At(ChargeAll(KeptBook(a, now), plan, token, now, leaseTtl), c), now)
              == KeptEntries(c, At(ChargeAll(b, plan, token, now, leaseTtl), c), now)
    {
      KeptAt(a, c, now);
      if k :| 0 <= k < |plan| && plan[k].counter == c {
        ChargeAllAt(KeptBook(a, now), plan, token, now, leaseTtl, k);
        ChargeAllAt(b, plan, token, now, leaseTtl, k);
        assert StillKept(c, At(b, c), now);
      } else {
        ChargeAllElsewhere(KeptBook(a, now), plan, token, now, leaseTtl, c);
        ChargeAllElsewhere(b, plan, token, now, leaseTtl, c);
        KeptLater(c, At(a, c), now, now);
      }
    }
  }

  /** What Redis reads of a counter: the reference's usage, or nothing once it is forgotten. */
  lemma KeptUsage(a: Book, b: Book, c: Counter, now: nat)
    requires SameKept(a, b, now)
    ensures Usage(c.window, At(KeptBook(a, now), c), now)
            == if StillKept(c, At(b, c), now) then Usage(c.window, At(b, c), now) else 0
  {
    hide KeptBook, StillKept, Usage;
    KeptAt(a, c, now);
    if !StillKept(c, At(b, c), now) {
      NotKeptIsDay(c, At(b, c), now);
      NothingUsed(c.window, now);
    }
  }

  lemma NotKeptIsDay(c: Counter, entries: Entries, now: nat)
    requires !StillKept(c, entries, now)
    ensures c.window == Day && entries != map[]
  {
  }

  /** An answer tells what was read. */
  lemma RespondDetermines(plan: QuotaChargePlan, used: seq<nat>, other: seq<nat>, now: nat, gained: seq<nat>)
    requires |used| == |other| == |plan| == |gained|
    ensures Respond(plan, used, now, gained) == Respond(plan, other, now, gained) <==> used == other
  {
    if Respond(plan, used, now, gained) == Respond(plan, other, now, gained) {
      forall i | 0 <= i < |plan|
        ensures used[i] == other[i]
      {
        if FirstBreach(plan, used).Some? {
          assert ObservationOf(plan, used, now)[i].used == ObservationOf(plan, other, now)[i].used;
        } else {
          assert ObservationOf(plan, Plus(used, gained), now)[i].used == ObservationOf(plan, Plus(other, gained), now)[i].used;
        }
      }
    }
  }

  // Runs.

  /** Call i charges no day counter whose latest grant is more than two days old. */
  ghost predicate RemembersAt(calls: seq<Call>, i: nat, leaseTtl: nat)
    requires i < |calls|
  {
    calls[i].Reserve? ==> Remembered(After(calls, i, leaseTtl).book, calls[i].plan, calls[i].now)
  }

  ghost predicate RemembersDays(calls: seq<Call>, leaseTtl: nat) {
    forall i :: 0 <= i < |calls| ==> RemembersAt(calls, i, leaseTtl)
  }

  ghost predicate SameUntil(calls: seq<Call>, n: nat, now: nat, leaseTtl: nat)
    requires n <= |calls|
  {
    KeptAfter(calls, n, leaseTtl).permits == After(calls, n, leaseTtl).permits
    && SameKept(KeptAfter(calls, n, leaseTtl).book, After(calls, n, leaseTtl).book, now)
  }

  /** What Redis reads for a plan is what the reference reads, but for what it forgot. */
  ghost predicate ReadsKept(plan: QuotaChargePlan, kept: seq<nat>, used: seq<nat>, book: Book, now: nat)
    requires |kept| == |used| == |plan|
  {
    forall k :: 0 <= k < |plan| ==> kept[k] == if StillKept(plan[k].counter, At(book, plan[k].counter), now) then used[k] else 0
  }

  lemma PlanReadsKept(a: Book, b: Book, plan: QuotaChargePlan, now: nat)
    requires SameKept(a, b, now)
    ensures ReadsKept(plan, UsedBy(KeptBook(a, now), plan, now), UsedBy(b, plan, now), b, now)
  {
    hide KeptBook, StillKept, Usage, SameKept;
    forall k | 0 <= k < |plan|
      ensures UsedBy(KeptBook(a, now), plan, now)[k]
              == if StillKept(plan[k].counter, At(b, plan[k].counter), now) then UsedBy(b, plan, now)[k] else 0
    {
      KeptUsage(a, b, plan[k].counter, now);
    }
  }

  lemma RememberedReadsAlike(a: Book, b: Book, plan: QuotaChargePlan, now: nat)
    requires SameKept(a, b, now) && Remembered(b, plan, now)
    ensures UsedBy(KeptBook(a, now), plan, now) == UsedBy(b, plan, now)
  {
    hide KeptBook, StillKept, Usage, SameKept;
    PlanReadsKept(a, b, plan, now);
    var kept, used := UsedBy(KeptBook(a, now), plan, now), UsedBy(b, plan, now);
    assert forall k :: 0 <= k < |plan| ==> kept[k] == used[k];
  }

  lemma SameStep(calls: seq<Call>, i: nat, leaseTtl: nat)
    requires i < |calls| && QuotaRuns.Executable(calls) && RemembersAt(calls, i, leaseTtl)
    requires SameUntil(calls, i, calls[i].now, leaseTtl)
    ensures SameUntil(calls, i + 1, calls[i].now, leaseTtl)
  {
    hide KeptBook, Remembered, SameKept, ChargeAll, SettleAll, ReleaseAll, UsedBy, FirstBreach, After, KeptAfter;
    StepsAre(calls, i, leaseTtl);
    var a, b := KeptAfter(calls, i, leaseTtl), After(calls, i, leaseTtl);
    match calls[i] {
      case Reserve(plan, now) =>
        if plan != [] {
          RememberedReadsAlike(a.book, b.book, plan, now);
          ChargedSame(a.book, b.book, plan, i, now, leaseTtl);
          AgedSame(a.book, b.book, now);
        }
      case Settle(k, actual, now) =>
        if k in b.permits {
          SettledSame(a.book, b.book, b.permits[k], k, actual, now);
        }
      case Release(k, now) =>
        if k in b.permits {
          ReleasedSame(a.book, b.book, b.permits[k], k, now);
        }
    }
  }

  lemma AgedSame(a: Book, b: Book, now: nat)
    requires SameKept(a, b, now)
    ensures SameKept(KeptBook(a, now), b, now)
  {
    hide KeptBook, KeptEntries;
    forall c: Counter
      ensures KeptEntries(c, At(KeptBook(a, now), c), now) == KeptEntries(c, At(b, c), now)
    {
      KeptAt(a, c, now);
      KeptLater(c, At(a, c), now, now);
    }
  }

  lemma StepsAre(calls: seq<Call>, i: nat, leaseTtl: nat)
    requires i < |calls|
    ensures After(calls, i + 1, leaseTtl) == Step(After(calls, i, leaseTtl), calls[i], i, leaseTtl)
    ensures KeptAfter(calls, i + 1, leaseTtl) == KeptStep(KeptAfter(calls, i, leaseTtl), calls[i], i, leaseTtl)
  {
  }

  lemma {:induction false} StaysSame(calls: seq<Call>, n: nat, now: nat, leaseTtl: nat)
    requires n <= |calls| && QuotaRuns.Executable(calls) && forall i :: 0 <= i < n ==> RemembersAt(calls, i, leaseTtl)
    requires n > 0 ==> calls[n - 1].now <= now
    ensures SameUntil(calls, n, now, leaseTtl)
  {
    hide RemembersAt, SameKept, KeptAfter, After, QuotaBook.Executable;
    if n == 0 {
      NothingYet(calls, now, leaseTtl);
    } else {
      StaysSame(calls, n - 1, calls[n - 1].now, leaseTtl);
      SameStep(calls, n - 1, leaseTtl);
      SameLater(KeptAfter(calls, n, leaseTtl).book, After(calls, n, leaseTtl).book, calls[n - 1].now, now);
    }
  }

  lemma NothingYet(calls: seq<Call>, now: nat, leaseTtl: nat)
    ensures SameUntil(calls, 0, now, leaseTtl)
  {
  }

  /** What the reference run answers at call i. */
  ghost function PlainAnswer(calls: seq<Call>, i: nat, leaseTtl: nat): Option<Response>
    requires i < |calls|
  {
    Answer(After(calls, i, leaseTtl), calls[i], Redis)
  }

  /** Call i charges a day counter that was forgotten, with something still on it. */
  ghost predicate MissesAt(calls: seq<Call>, i: nat, leaseTtl: nat)
    requires i < |calls|
  {
    calls[i].Reserve?
    && exists k :: 0 <= k < |calls[i].plan| && Missed(After(calls, i, leaseTtl).book, calls[i].plan[k].counter, calls[i].now)
  }

  ghost predicate Missed(book: Book, c: Counter, now: nat) {
    !StillKept(c, At(book, c), now) && Usage(c.window, At(book, c), now) > 0
  }

  /** As long as nothing was forgotten before, the answer is the reference's exactly when no
      counter that Redis has forgotten by now still counts. */
  lemma WhenAnswersPart(calls: seq<Call>, i: nat, leaseTtl: nat)
    requires i < |calls| && QuotaRuns.Executable(calls) && forall m :: 0 <= m < i ==> RemembersAt(calls, m, leaseTtl)
    ensures RedisAnswer(calls, i, leaseTtl) == PlainAnswer(calls, i, leaseTtl) <==> !MissesAt(calls, i, leaseTtl)
  {
    hide RemembersAt, SameKept, KeptAfter, After, KeptBook, StillKept, QuotaBook.Executable, Usage;
    var call := calls[i];
    StaysSame(calls, i, call.now, leaseTtl);
    if call.Reserve? {
      var a, b := KeptAfter(calls, i, leaseTtl).book, After(calls, i, leaseTtl).book;
      var kept, used := UsedBy(KeptBook(a, call.now), call.plan, call.now), UsedBy(b, call.plan, call.now);
      PlanReadsKept(a, b, call.plan, call.now);
      RespondDetermines(call.plan, kept, used, call.now, AmountGains(call.plan));
      hide Respond;
      forall k | 0 <= k < |call.plan|
        ensures kept[k] == used[k] <==> !Missed(b, call.plan[k].counter, call.now)
      {
      }
    }
  }

  lemma RememberedMissesNothing(calls: seq<Call>, i: nat, leaseTtl: nat)
    requires i < |calls| && RemembersAt(calls, i, leaseTtl)
    ensures !MissesAt(calls, i, leaseTtl)
  {
    hide StillKept, After, Usage;
  }

  lemma RunsAgree(calls: seq<Call>, i: nat, leaseTtl: nat)
    requires i < |calls| && QuotaRuns.Executable(calls) && RemembersDays(calls, leaseTtl)
    ensures RedisAnswer(calls, i, leaseTtl) == PlainAnswer(calls, i, leaseTtl)
  {
    hide RemembersAt, RedisAnswer, PlainAnswer, MissesAt;
    WhenAnswersPart(calls, i, leaseTtl);
    RememberedMissesNothing(calls, i, leaseTtl);
  }

  // Runs on which every entry counts for something.

  /** Planned amounts are positive; so are the settled ones here. */
  ghost predicate Positive(calls: seq<Call>) {
    forall i :: 0 <= i < |calls| ==>
                  match calls[i]
                  case Reserve(plan, _) => forall k :: 0 <= k < |plan| ==> plan[k].amount > 0
                  case Settle(_, actual, _) => actual > 0
                  case Release(_, _) => true
  }

  ghost predicate PositiveEntries(entries: Entries) {
    forall t :: t in entries ==> entries[t].amount > 0
  }

  ghost predicate PositiveBook(book: Book) {
    forall c: Counter :: PositiveEntries(At(book, c))
  }

  lemma PositiveSet(book: Book, c: Counter, entries: Entries)
    requires PositiveBook(book) && PositiveEntries(entries)
    ensures PositiveBook(book[c := entries])
  {
    var changed := book[c := entries];
    forall d: Counter
      ensures PositiveEntries(At(changed, d))
    {
      assert PositiveEntries(At(book, d));
    }
  }

  lemma {:induction false} PositiveCharged(book: Book, plan: QuotaChargePlan, token: Token, now: nat, leaseTtl: nat)
    requires PositiveBook(book) && forall k :: 0 <= k < |plan| ==> plan[k].amount > 0
    ensures PositiveBook(ChargeAll(book, plan, token, now, leaseTtl))
  {
    if plan != [] {
      var n := |plan| - 1;
      var rest, c := ChargeAll(book, plan[..n], token, now, leaseTtl), plan[n].counter;
      PositiveCharged(book, plan[..n], token, now, leaseTtl);
      assert PositiveEntries(At(rest, c));
      PositiveSet(rest, c, At(rest, c)[token := Entry(ExpiryOf(plan[n], now, leaseTtl), plan[n].amount)]);
    }
  }

  lemma {:induction false} PositiveSettled(book: Book, plan: QuotaChargePlan, token: Token, actual: nat)
    requires PositiveBook(book) && actual > 0
    ensures PositiveBook(SettleAll(book, plan, token, actual))
  {
    if plan != [] {
      var n := |plan| - 1;
      var rest, c := SettleAll(book, plan[..n], token, actual), plan[n].counter;
      PositiveSettled(book, plan[..n], token, actual);
      assert PositiveEntries(At(rest, c));
      PositiveSet(rest, c, SettledEntries(At(rest, c), token, actual));
    }
  }

  lemma {:induction false} PositiveReleased(book: Book, plan: QuotaChargePlan, token: Token)
    requires PositiveBook(book)
    ensures PositiveBook(ReleaseAll(book, plan, token))
  {
    if plan != [] {
      var n := |plan| - 1;
      var rest, c := ReleaseAll(book, plan[..n], token), plan[n].counter;
      PositiveReleased(book, plan[..n], token);
      assert PositiveEntries(At(rest, c));
      PositiveSet(rest, c, At(rest, c) - {token});
    }
  }

  lemma {:induction false} StaysPositive(calls: seq<Call>, n: nat, leaseTtl: nat)
    requires n <= |calls| && Positive(calls)
    ensures PositiveBook(After(calls, n, leaseTtl).book)
  {
    hide PositiveBook, Admits;
    if n == 0 {
      NothingPositive();
    } else {
      StaysPositive(calls, n - 1, leaseTtl);
      var l := After(calls, n - 1, leaseTtl);
      match calls[n - 1]
      case Reserve(plan, now) =>
        PositiveCharged(l.book, plan, n - 1, now, leaseTtl);
      case Settle(k, actual, _) =>
        if k in l.permits {
          PositiveSettled(l.book, l.permits[k], k, actual);
        }
      case Release(k, _) =>
        if k in l.permits {
          PositiveReleased(l.book, l.permits[k], k);
        }
    }
  }

  lemma NothingPositive()
    ensures PositiveBook(map[])
  {
  }

  lemma ForgottenCounts(book: Book, c: Counter, now: nat)
    requires PositiveBook(book) && !StillKept(c, At(book, c), now)
    ensures Usage(c.window, At(book, c), now) > 0
  {
    hide StillKept, Sum;
    NotKeptIsDay(c, At(book, c), now);
    var entries := At(book, c);
    assert PositiveEntries(entries);
    var t :| t in entries;
    var live := LiveAmounts(Day, entries, now);
    assert t in live && live[t] > 0;
    SumSet(live, t, 0);
  }

  /** On such runs: Redis answers as the reference throughout exactly when no call charges a
      day counter whose latest grant is more than two days old. */
  lemma {:induction false} WhenRedisRemembers(calls: seq<Call>, n: nat, leaseTtl: nat)
    requires n <= |calls| && QuotaRuns.Executable(calls) && Positive(calls)
    ensures (forall i :: 0 <= i < n ==> RedisAnswer(calls, i, leaseTtl) == PlainAnswer(calls, i, leaseTtl))
            <==> (forall i :: 0 <= i < n ==> RemembersAt(calls, i, leaseTtl))
  {
    hide RemembersAt, RedisAnswer, PlainAnswer, MissesAt, QuotaBook.Executable, Positive;
    if n > 0 {
      WhenRedisRemembers(calls, n - 1, leaseTtl);
      if forall i :: 0 <= i < n - 1 ==> RemembersAt(calls, i, leaseTtl) {
        WhenAnswersPart(calls, n - 1, leaseTtl);
        ForgottenIsMissed(calls, n - 1, leaseTtl);
      }
    }
  }

  lemma ForgottenIsMissed(calls: seq<Call>, i: nat, leaseTtl: nat)
    requires i < |calls| && Positive(calls)
    ensures RemembersAt(calls, i, leaseTtl) <==> !MissesAt(calls, i, leaseTtl)
  {
    hide StillKept, After, Usage, Positive, PositiveBook;
    StaysPositive(calls, i, leaseTtl);
    var book := After(calls, i, leaseTtl).book;
    if calls[i].Reserve? {
      forall k | 0 <= k < |calls[i].plan|
        ensures StillKept(calls[i].plan[k].counter, At(book, calls[i].plan[k].counter), calls[i].now)
                <==> !Missed(book, calls[i].plan[k].counter, calls[i].now)
      {
        if !StillKept(calls[i].plan[k].counter, At(book, calls[i].plan[k].counter), calls[i].now) {
          ForgottenCounts(book, calls[i].plan[k].counter, calls[i].now);
        }
      }
    }
  }

  /** A daily charge is executed during its own day or the one after. */
  predicate OnTime(charge: QuotaCharge, now: nat) {
    charge.counter.dayBucket.Some? ==>
      charge.counter.dayBucket.value * DAY_WINDOW_MILLIS <= now <= (charge.counter.dayBucket.value + 2) * DAY_WINDOW_MILLIS
  }

  ghost predicate AllTimely(calls: seq<Call>) {
    forall i, k :: 0 <= i < |calls| && calls[i].Reserve? && 0 <= k < |calls[i].plan| ==>
                     OnTime(calls[i].plan[k], calls[i].now)
  }

  /** The entries of a day counter were granted on its day or later. */
  ghost predicate GrantedSince(entries: Entries, bucket: nat) {
    forall t :: t in entries ==> entries[t].expires >= (bucket + 1) * DAY_WINDOW_MILLIS
  }

  ghost predicate BookSince(book: Book) {
    forall c: Counter :: c.window == Day && c.dayBucket.Some? ==> GrantedSince(At(book, c), c.dayBucket.value)
  }

  lemma ChargedSince(book: Book, charge: QuotaCharge, token: Token, now: nat, leaseTtl: nat)
    requires BookSince(book) && Shaped(charge) && OnTime(charge, now)
    ensures BookSince(Charged(book, charge, token, now, leaseTtl))
  {
  }

  lemma {:induction false} ChargeAllSince(book: Book, plan: QuotaChargePlan, token: Token, now: nat, leaseTtl: nat)
    requires BookSince(book) && forall k :: 0 <= k < |plan| ==> Shaped(plan[k]) && OnTime(plan[k], now)
    ensures BookSince(ChargeAll(book, plan, token, now, leaseTtl))
  {
    hide BookSince, Charged, OnTime, Shaped;
    if plan != [] {
      var n := |plan| - 1;
      ChargeAllSince(book, plan[..n], token, now, leaseTtl);
      ChargedSince(ChargeAll(book, plan[..n], token, now, leaseTtl), plan[n], token, now, leaseTtl);
    }
  }

  lemma {:induction false} SettleAllSince(book: Book, plan: QuotaChargePlan, token: Token, actual: nat)
    requires BookSince(book)
    ensures BookSince(SettleAll(book, plan, token, actual))
  {
    if plan != [] {
      SettleAllSince(book, plan[..|plan| - 1], token, actual);
    }
  }

  lemma {:induction false} ReleaseAllSince(book: Book, plan: QuotaChargePlan, token: Token)
    requires BookSince(book)
    ensures BookSince(ReleaseAll(book, plan, token))
  {
    if plan != [] {
      ReleaseAllSince(book, plan[..|plan| - 1], token);
    }
  }

  lemma {:induction false} RunSince(calls: seq<Call>, n: nat, leaseTtl: nat)
    requires n <= |calls| && QuotaRuns.Executable(calls) && AllTimely(calls)
    ensures BookSince(After(calls, n, leaseTtl).book)
  {
    hide BookSince, Admits, OnTime, Shaped;
    if n == 0 {
      NothingSince();
    } else {
      RunSince(calls, n - 1, leaseTtl);
      var l := After(calls, n - 1, leaseTtl);
      match calls[n - 1]
      case Reserve(plan, now) =>
        ChargeAllSince(l.book, plan, n - 1, now, leaseTtl);
      case Settle(k, actual, _) =>
        if k in l.permits {
          SettleAllSince(l.book, l.permits[k], k, actual);
        }
      case Release(k, _) =>
        if k in l.permits {
          ReleaseAllSince(l.book, l.permits[k], k);
        }
    }
  }

  lemma NothingSince()
    ensures BookSince(map[])
  {
  }

  lemma SinceIsKept(entries: Entries, bucket: nat, now: nat)
    requires GrantedSince(entries, bucket) && now <= (bucket + 2) * DAY_WINDOW_MILLIS
    ensures DayKept(entries, now)
  {
    if t :| t in entries {
      assert now <= entries[t].expires + DAY_WINDOW_MILLIS;
    }
  }

  /** Plans executed on their own day or the next never find a day counter forgotten. */
  lemma TimelyRunsRemember(calls: seq<Call>, leaseTtl: nat)
    requires QuotaRuns.Executable(calls) && AllTimely(calls)
    ensures RemembersDays(calls, leaseTtl)
  {
    hide After, GrantedSince;
    forall i, k | 0 <= i < |calls| && calls[i].Reserve? && 0 <= k < |calls[i].plan|
      ensures StillKept(calls[i].plan[k].counter, At(After(calls, i, leaseTtl).book, calls[i].plan[k].counter), calls[i].now)
    {
      var charge := calls[i].plan[k];
      assert OnTime(charge, calls[i].now) && Shaped(charge);
      RunSince(calls, i, leaseTtl);
      if charge.counter.window == Day {
        SinceIsKept(At(After(calls, i, leaseTtl).book, charge.counter), charge.counter.dayBucket.value, calls[i].now);
      }
    }
  }

  /** A charge of one request on day 0, of which one is allowed. */
  function FirstDayCharge(tenant: string): QuotaCharge {
    QuotaCharge(Counter(Tenant, tenant, Day, Requests, Some(0)), 1, 1, DAY_WINDOW_MILLIS)
  }

  lemma OneChargeReserved(calls: seq<Call>, charge: QuotaCharge, leaseTtl: nat)
    requires |calls| == 2 && calls[0] == Reserve([charge], 0) && Shaped(charge) && charge.amount <= charge.limit
    requires charge.counter.window == Day
    ensures QuotaBook.Executable([charge])
    ensures var e := Entry(charge.windowMillis, charge.amount);
            At(After(calls, 1, leaseTtl).book, charge.counter) == map[0 := e]
  {
    var plan, none := [charge], map[];
    assert plan[0] == charge;
    NothingUsed(charge.counter.window, 0);
    assert UsedBy(none, plan, 0) == [0];
    assert Admits(Opening, plan, 0);
    ChargeAllAt(none, plan, 0, 0, leaseTtl, 0);
    StepsAre(calls, 0, leaseTtl);
  }

  /** It is noticed on a run whose second call executes the first day's plan again after
      more than two days: the reference refuses, Redis grants. */
  lemma ForgettingIsReached(tenant: string, leaseTtl: nat)
    ensures var charge := FirstDayCharge(tenant);
            var calls := [Reserve([charge], 0), Reserve([charge], 2 * DAY_WINDOW_MILLIS + 1)];
            QuotaRuns.Executable(calls) && RemembersAt(calls, 0, leaseTtl) && MissesAt(calls, 1, leaseTtl)
            && RedisAnswer(calls, 1, leaseTtl) != PlainAnswer(calls, 1, leaseTtl)
  {
    var charge := FirstDayCharge(tenant);
    var calls := [Reserve([charge], 0), Reserve([charge], 2 * DAY_WINDOW_MILLIS + 1)];
    OneChargeReserved(calls, charge, leaseTtl);
    assert [charge][0] == charge;
    assert RemembersAt(calls, 0, leaseTtl);
    var entries: Entries := map[0 := Entry(DAY_WINDOW_MILLIS, 1)];
    DayCountsAll(entries, calls[1].now);
    assert entries.Keys == {0};
    assert Missed(After(calls, 1, leaseTtl).book, calls[1].plan[0].counter, calls[1].now);
    WhenAnswersPart(calls, 1, leaseTtl);
  }

  /** Both backends over the same run: each answers as its reference, and on every run that
      leaves no day counter alone for two days between its charges they admit and refuse
      alike, name the same first breach and observe the same usage. */
  method BackendsAgree(calls: seq<Call>, leaseTtl: nat) returns (memory: seq<Option<Response>>, redis: seq<Option<Response>>)
    requires QuotaRuns.Executable(calls)
    ensures Answered(calls, memory, |calls|, leaseTtl, Memory) && RedisAnswered(calls, redis, |calls|, leaseTtl)
    ensures RemembersDays(calls, leaseTtl) ==> forall i :: 0 <= i < |calls| ==> SameDecision(memory[i], redis[i])
    ensures RemembersDays(calls, leaseTtl) && CountsPermits(calls) ==> memory == redis
  {
    hide RemembersDays, CountsPermits, RedisAnswer, QuotaRuns.Executable, SameDecision;
    memory := RunMemory(calls, leaseTtl);
    redis := RunRedis(calls, leaseTtl);
    if RemembersDays(calls, leaseTtl) {
      forall i | 0 <= i < |calls|
        ensures SameDecision(memory[i], redis[i]) && (CountsPermits(calls) ==> memory[i] == redis[i])
      {
        RunsAgree(calls, i, leaseTtl);
        SameButGains(calls, i, leaseTtl);
      }
    }
  }

  /** The two references' answers differ in the observed gains at most. */
  lemma SameButGains(calls: seq<Call>, i: nat, leaseTtl: nat)
    requires i < |calls|
    ensures SameDecision(Answer(After(calls, i, leaseTtl), calls[i], Memory), PlainAnswer(calls, i, leaseTtl))
    ensures CountsPermits(calls) ==> Answer(After(calls, i, leaseTtl), calls[i], Memory) == PlainAnswer(calls, i, leaseTtl)
  {
    hide After;
    if calls[i].Reserve? {
      var plan, now := calls[i].plan, calls[i].now;
      GrantObservationsAgree(plan, UsedBy(After(calls, i, leaseTtl).book, plan, now), now);
    }
  }
}

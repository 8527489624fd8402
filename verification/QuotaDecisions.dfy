/** What the scoped ledger answers, in terms of the calls made before: what a counter has
    used are granted calls, and a call is refused exactly when one of its charges does not fit. */
module QuotaDecisions {
  import opened Results
  import opened Sums
  import opened QuotaPlanning
  import opened QuotaBook
  import opened QuotaRuns
  import opened QuotaLimits
  import opened QuotaBackends

  /** The amount a plan charges to a counter. */
  ghost function AmountOn(plan: QuotaChargePlan, c: Counter): nat {
    if plan == [] then 0 else if plan[0].counter == c then plan[0].amount else AmountOn(plan[1..], c)
  }

  lemma {:induction false} AmountOnAt(plan: QuotaChargePlan, k: nat)
    requires StrictlyRanked(plan) && k < |plan|
    ensures AmountOn(plan, plan[k].counter) == plan[k].amount
  {
    if k > 0 {
      DistinctCounters(plan, 0, k);
      AmountOnAt(plan[1..], k - 1);
    }
  }

  /** What call i counts for on c before call n: its latest settlement, for tokens, or what
      it asked for. */
  ghost function AmountAfter(calls: seq<Call>, i: nat, n: nat, c: Counter): nat
    requires i < n <= |calls| && calls[i].Reserve?
    decreases n
  {
    if n == i + 1 then AmountOn(calls[i].plan, c)
    else
      var call := calls[n - 1];
      if call.Settle? && call.reservation == i && c.dimension == Tokens then call.actual
      else AmountAfter(calls, i, n - 1, c)
  }

  /** The entries of a minute or day counter are the granted calls, each with the end of its
      window and its amount. */
  ghost predicate HoldsCharges(calls: seq<Call>, n: nat, c: Counter, leaseTtl: nat)
    requires n <= |calls|
  {
    forall i: nat :: HoldsCharge(calls, i, n, c, leaseTtl)
  }

  ghost predicate HoldsCharge(calls: seq<Call>, i: nat, n: nat, c: Counter, leaseTtl: nat)
    requires n <= |calls|
  {
    var entries := At(After(calls, n, leaseTtl).book, c);
    (i in entries <==> i < n && Grants(calls, i, c, leaseTtl))
    && (i in entries ==> i < n && calls[i].Reserve?
                         && entries[i].expires == calls[i].now + (if c.window == Minute then 60_000 else 86_400_000)
                         && entries[i].amount == AmountAfter(calls, i, n, c))
  }

  lemma GrantEntry(calls: seq<Call>, n: nat, c: Counter, leaseTtl: nat)
    requires n < |calls| && QuotaRuns.Executable(calls) && Rates(c) && Grants(calls, n, c, leaseTtl)
    ensures At(After(calls, n + 1, leaseTtl).book, c)
            == At(After(calls, n, leaseTtl).book, c)[n := Entry(calls[n].now + (if c.window == Minute then 60_000 else 86_400_000),
                                                               AmountOn(calls[n].plan, c))]
  {
    hide ChargeAll, UsedBy, FirstBreach, SettleAll, ReleaseAll, AmountOn;
    var plan := calls[n].plan;
    var k :| 0 <= k < |plan| && plan[k].counter == c;
    AmountOnAt(plan, k);
    ChargeAllAt(After(calls, n, leaseTtl).book, plan, n, calls[n].now, leaseTtl, k);
  }

  lemma SettleEntry(calls: seq<Call>, n: nat, c: Counter, leaseTtl: nat)
    requires n < |calls| && Rates(c) && calls[n].Settle?
    requires forall i: nat :: HoldsCharge(calls, i, n, c, leaseTtl)
    ensures var entries, k := At(After(calls, n, leaseTtl).book, c), calls[n].reservation;
            At(After(calls, n + 1, leaseTtl).book, c)
            == if c.dimension == Tokens && k in entries then entries[k := entries[k].(amount := calls[n].actual)] else entries
  {
    hide SettleAll, Admits, Charges;
    var l, k := After(calls, n, leaseTtl), calls[n].reservation;
    PermitsAreCalls(calls, n, k, leaseTtl);
    assert HoldsCharge(calls, k, n, c, leaseTtl);
    if k in l.permits {
      SettleAllAt(l.book, l.permits[k], k, calls[n].actual, c);
    } else if k < |calls| {
      GrantHasPlan(calls, k, c, leaseTtl);
    }
  }

  lemma GrantHasPlan(calls: seq<Call>, k: nat, c: Counter, leaseTtl: nat)
    requires k < |calls|
    ensures Grants(calls, k, c, leaseTtl) ==> calls[k].Reserve? && calls[k].plan != []
  {
  }

  lemma OtherCall(calls: seq<Call>, n: nat, c: Counter, leaseTtl: nat)
    requires n < |calls| && Rates(c) && !calls[n].Settle? && !Grants(calls, n, c, leaseTtl)
    ensures At(After(calls, n + 1, leaseTtl).book, c) == At(After(calls, n, leaseTtl).book, c)
  {
    var before := After(calls, n, leaseTtl);
    match calls[n]
    case Settle(_, _, _) =>
    case Release(k, _) =>
      if k in before.permits {
        ReleaseAllElsewhere(before.book, before.permits[k], k, c);
      }
    case Reserve(plan, now) =>
      if Admits(before, plan, now) {
        ChargeAllElsewhere(before.book, plan, n, now, leaseTtl, c);
      }
  }

  lemma ChargeStep(calls: seq<Call>, i: nat, n: nat, c: Counter, leaseTtl: nat)
    requires n < |calls| && QuotaRuns.Executable(calls) && Rates(c)
    requires forall j: nat :: HoldsCharge(calls, j, n, c, leaseTtl)
    ensures HoldsCharge(calls, i, n + 1, c, leaseTtl)
  {
    hide After, Admits, Charges, At, QuotaBook.Executable;
    assert HoldsCharge(calls, i, n, c, leaseTtl);
    if Grants(calls, n, c, leaseTtl) {
      GrantEntry(calls, n, c, leaseTtl);
    } else if calls[n].Settle? {
      SettleEntry(calls, n, c, leaseTtl);
    } else {
      OtherCall(calls, n, c, leaseTtl);
    }
  }

  lemma {:induction false} ChargesAreCalls(calls: seq<Call>, n: nat, c: Counter, leaseTtl: nat)
    requires n <= |calls| && QuotaRuns.Executable(calls) && Rates(c)
    ensures HoldsCharges(calls, n, c, leaseTtl)
  {
    hide HoldsCharge, Rates;
    if n == 0 {
      NoCharges(calls, c, leaseTtl);
    } else {
      ChargesAreCalls(calls, n - 1, c, leaseTtl);
      forall i: nat
        ensures HoldsCharge(calls, i, n, c, leaseTtl)
      {
        ChargeStep(calls, i, n - 1, c, leaseTtl);
      }
    }
  }

  lemma NoCharges(calls: seq<Call>, c: Counter, leaseTtl: nat)
    ensures HoldsCharges(calls, 0, c, leaseTtl)
  {
  }

  /** What the calls before n have used of c at `now`: the slots of those still running, or
      the amounts of those granted in the last sixty seconds, or ever on that day. */
  ghost function UsedByCalls(calls: seq<Call>, n: nat, c: Counter, now: nat, leaseTtl: nat): nat
    requires n <= |calls|
  {
    if c.window == InFlight then |Running(calls, n, c, now, leaseTtl)|
    else Sum(AmountsOfCalls(calls, n, c, now, leaseTtl))
  }

  ghost function AmountsOfCalls(calls: seq<Call>, n: nat, c: Counter, now: nat, leaseTtl: nat): map<nat, nat>
    requires n <= |calls|
  {
    map i | 0 <= i < n && Grants(calls, i, c, leaseTtl) && (c.window == Minute ==> now < calls[i].now + 60_000) ::
      AmountAfter(calls, i, n, c)
  }

  lemma UsageIsCalls(calls: seq<Call>, n: nat, c: Counter, now: nat, leaseTtl: nat)
    requires n <= |calls| && QuotaRuns.Executable(calls)
    ensures Usage(c.window, At(After(calls, n, leaseTtl).book, c), now) == UsedByCalls(calls, n, c, now, leaseTtl)
  {
    var entries := At(After(calls, n, leaseTtl).book, c);
    if c.window == InFlight {
      RunningIsCounted(calls, n, c, now, leaseTtl);
      var live := LiveEntries(c.window, entries, now);
      assert |live| == |live.Keys|;
    } else {
      hide Sum;
      LiveAreCalls(calls, n, c, now, leaseTtl);
    }
  }

  lemma LiveAreCalls(calls: seq<Call>, n: nat, c: Counter, now: nat, leaseTtl: nat)
    requires n <= |calls| && QuotaRuns.Executable(calls) && c.window != InFlight
    ensures LiveAmounts(c.window, At(After(calls, n, leaseTtl).book, c), now) == AmountsOfCalls(calls, n, c, now, leaseTtl)
  {
    hide After, Grants, AmountAfter, At;
    ChargesAreCalls(calls, n, c, leaseTtl);
    var live: map<nat, nat> := LiveAmounts(c.window, At(After(calls, n, leaseTtl).book, c), now);
    var amounts: map<nat, nat> := AmountsOfCalls(calls, n, c, now, leaseTtl);
    forall i: nat
      ensures i in live <==> i in amounts
      ensures i in live ==> live[i] == amounts[i]
    {
      assert HoldsCharge(calls, i, n, c, leaseTtl);
    }
  }

  ghost predicate OneRequest(plan: QuotaChargePlan, c: Counter) {
    forall k :: 0 <= k < |plan| && plan[k].counter == c ==> plan[k].amount == 1
  }

  /** Counters of requests, each charged one, count the granted calls. */
  lemma RequestsAreCounted(calls: seq<Call>, n: nat, c: Counter, now: nat, leaseTtl: nat)
    requires n <= |calls| && QuotaRuns.Executable(calls) && c.window != InFlight && c.dimension != Tokens
    requires forall i :: 0 <= i < |calls| && calls[i].Reserve? ==> OneRequest(calls[i].plan, c)
    ensures UsedByCalls(calls, n, c, now, leaseTtl)
            == |set i | 0 <= i < n && Grants(calls, i, c, leaseTtl) && (c.window == Minute ==> now < calls[i].now + 60_000)|
  {
    hide Sum, Grants;
    var amounts := AmountsOfCalls(calls, n, c, now, leaseTtl);
    forall i | i in amounts
      ensures amounts[i] == 1
    {
      GrantHasPlan(calls, i, c, leaseTtl);
      assert OneRequest(calls[i].plan, c);
      OneEach(calls, i, n, c, leaseTtl);
    }
    SumOfOnes(amounts);
    assert amounts.Keys
           == set i | 0 <= i < n && Grants(calls, i, c, leaseTtl) && (c.window == Minute ==> now < calls[i].now + 60_000);
    assert |amounts| == |amounts.Keys|;
  }

  lemma {:induction false} OneEach(calls: seq<Call>, i: nat, n: nat, c: Counter, leaseTtl: nat)
    requires i < n <= |calls| && QuotaRuns.Executable(calls) && c.dimension != Tokens && Grants(calls, i, c, leaseTtl)
    requires OneRequest(calls[i].plan, c)
    ensures AmountAfter(calls, i, n, c) == 1
    decreases n
  {
    hide Admits;
    if n == i + 1 {
      var k :| 0 <= k < |calls[i].plan| && calls[i].plan[k].counter == c;
      AmountOnAt(calls[i].plan, k);
    } else {
      OneEach(calls, i, n - 1, c, leaseTtl);
    }
  }

  // The answers.

  /** A call charges c with success exactly when its own answer was a grant. */
  lemma GrantsAreAnswers(calls: seq<Call>, i: nat, c: Counter, backend: Backend, leaseTtl: nat)
    requires i < |calls|
    ensures Grants(calls, i, c, leaseTtl) <==>
            calls[i].Reserve? && (exists k :: 0 <= k < |calls[i].plan| && calls[i].plan[k].counter == c)
            && Answer(After(calls, i, leaseTtl), calls[i], backend).value.Granted?
  {
    hide After, UsedBy;
  }

  /** When a counter next has room. */
  function NextRoom(c: Counter, now: nat): nat {
    match c.window
    case InFlight => 0
    case Minute => 60_000
    case Day =>
      var midnight := (if c.dayBucket.Some? then c.dayBucket.value + 1 else 0) * 86_400_000;
      if now <= midnight then midnight - now else 0
  }

  /** What a counter is reported to have gained by a grant: memory counts the permit, the
      script adds the amount. */
  function GainOf(charge: QuotaCharge, backend: Backend): nat {
    if backend == Memory && charge.counter.window == InFlight then 1 else charge.amount
  }

  ghost predicate Reports(observed: QuotaCounter, charge: QuotaCharge, used: nat, now: nat) {
    observed.scope == charge.counter.scope && observed.window == charge.counter.window
    && observed.dimension == charge.counter.dimension && observed.used == used && observed.limit == charge.limit
    && observed.resetMillis == NextRoom(charge.counter, now)
  }

  /** Charge k of call n fits on top of what the calls before have used. */
  ghost predicate ChargeFits(calls: seq<Call>, n: nat, k: nat, leaseTtl: nat)
    requires n < |calls| && calls[n].Reserve? && k < |calls[n].plan|
  {
    var charge := calls[n].plan[k];
    UsedByCalls(calls, n, charge.counter, calls[n].now, leaseTtl) + charge.amount <= charge.limit
  }

  lemma ShapedReset(charge: QuotaCharge, now: nat)
    requires Shaped(charge)
    ensures charge.ResetMillis(now) == NextRoom(charge.counter, now)
  {
  }

  /** The whole answer to a reservation: granted exactly when every charge fits, otherwise
      refused for the first that does not; every counter reported with what it has used. */
  lemma DecisionIsExact(calls: seq<Call>, n: nat, backend: Backend, leaseTtl: nat)
    requires n < |calls| && QuotaRuns.Executable(calls) && calls[n].Reserve?
    ensures var plan, now := calls[n].plan, calls[n].now;
            var r := Answer(After(calls, n, leaseTtl), calls[n], backend);
            r.Some? && |r.value.observation| == |plan|
            && (r.value.Granted? <==> forall k :: 0 <= k < |plan| ==> ChargeFits(calls, n, k, leaseTtl))
            && (r.value.Refused? ==>
                  exists k :: 0 <= k < |plan| && !ChargeFits(calls, n, k, leaseTtl)
                              && (forall m :: 0 <= m < k ==> ChargeFits(calls, n, m, leaseTtl))
                              && r.value.breach.scope == plan[k].counter.scope && r.value.breach.window == plan[k].counter.window
                              && r.value.breach.dimension == plan[k].counter.dimension
                              && r.value.breach.resetMillis == NextRoom(plan[k].counter, now))
            && forall k :: 0 <= k < |plan| ==>
                 Reports(r.value.observation[k], plan[k],
                         UsedByCalls(calls, n, plan[k].counter, now, leaseTtl)
                         + (if r.value.Granted? then GainOf(plan[k], backend) else 0), now)
  {
    hide After, Usage, UsedByCalls, At;
    var plan, now := calls[n].plan, calls[n].now;
    var used := UsedBy(After(calls, n, leaseTtl).book, plan, now);
    assert QuotaBook.Executable(plan);
    forall k | 0 <= k < |plan|
      ensures used[k] == UsedByCalls(calls, n, plan[k].counter, now, leaseTtl)
      ensures plan[k].ResetMillis(now) == NextRoom(plan[k].counter, now)
      ensures ChargeFits(calls, n, k, leaseTtl) <==> used[k] + plan[k].amount <= plan[k].limit
    {
      UsageIsCalls(calls, n, plan[k].counter, now, leaseTtl);
      assert Shaped(plan[k]);
      ShapedReset(plan[k], now);
    }
    hide NextRoom, UsedBy;
    var breach := FirstBreach(plan, used);
    if breach.Some? {
      assert !ChargeFits(calls, n, breach.value, leaseTtl);
    }
  }
}

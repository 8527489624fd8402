/** Settling tokens is never checked against the limit (urouter-gateway/src/quota.rs).
    When the limit survives it, for one settlement and over whole runs. */
module TenantTokenLimit {
  import opened Sums
  import opened TenantQuota
  import opened TenantQuotaRuns

  predicate LiveCharge<T(==)>(charges: map<Key<T>, Entry>, k: Key<T>, now: nat) {
    k in charges && charges[k].expires > now
  }

  /** What a key adds to its tenant's total before it is settled. */
  function Counted<T(==)>(charges: map<Key<T>, Entry>, k: Key<T>, now: nat): nat {
    if LiveCharge(charges, k, now) then charges[k].amount else 0
  }

  /** One settlement, in terms of the tenant's current total. */
  lemma WhenSettlementFits<T(!new)>(charges: map<Key<T>, Entry>, k: Key<T>, actual: nat, now: nat, limit: nat)
    ensures LiveTokens(SettledCharges(charges, k, actual, now), k.tenant, now) <= limit
            <==> LiveTokens(charges, k.tenant, now) + actual <= limit + Counted(charges, k, now)
  {
    SettleMovesTotal(charges, k, actual, now);
  }

  /** If the tenant is within the limit, it still is after the settlement. */
  ghost predicate KeepsLimit<T(!new)>(charges: map<Key<T>, Entry>, k: Key<T>, actual: nat, now: nat, limit: nat) {
    LiveTokens(charges, k.tenant, now) <= limit
    ==> LiveTokens(SettledCharges(charges, k, actual, now), k.tenant, now) <= limit
  }

  /** A tenant whose other requests use `others` tokens, beside a charge on k. */
  lemma BesideOthers<T(!new)>(k: Key<T>, reserved: nat, others: nat, now: nat)
    ensures var other := Key(k.tenant, k.token + 1);
            var charges := map[k := Entry(now + 1, reserved), other := Entry(now + 1, others)];
            LiveTokens(charges, k.tenant, now) == reserved + others
            && LiveTokens(map[other := Entry(now + 1, others)], k.tenant, now) == others
  {
    var other := Key(k.tenant, k.token + 1);
    var charges := map[k := Entry(now + 1, reserved), other := Entry(now + 1, others)];
    var empty: map<Key<T>, nat> := map[];
    SumSet(empty, other, others);
    SumSet(empty[other := others], k, reserved);
    assert LiveAmounts(map[other := Entry(now + 1, others)], k.tenant, now) == empty[other := others];
    assert LiveAmounts(charges, k.tenant, now) == empty[other := others][k := reserved];
  }

  /** For a charge that still counts, whatever else the tenant uses: settling keeps the
      tenant within the limit exactly when it does not exceed what was reserved. */
  lemma WhenSettlingKeepsLimit<T(!new)>(k: Key<T>, reserved: nat, actual: nat, limit: nat)
    requires reserved <= limit
    ensures (forall charges: map<Key<T>, Entry>, now :: LiveCharge(charges, k, now) && charges[k].amount == reserved ==>
               KeepsLimit(charges, k, actual, now, limit))
            <==> actual <= reserved
  {
    hide LiveTokens;
    forall charges: map<Key<T>, Entry>, now | LiveCharge(charges, k, now) && charges[k].amount == reserved && actual <= reserved
      ensures KeepsLimit(charges, k, actual, now, limit)
    {
      WhenSettlementFits(charges, k, actual, now, limit);
    }
    var others := limit - reserved;
    var full := map[k := Entry(1, reserved), Key(k.tenant, k.token + 1) := Entry(1, others)];
    BesideOthers(k, reserved, others, 0);
    WhenSettlementFits(full, k, actual, 0, limit);
    assert LiveCharge(full, k, 0) && full[k].amount == reserved;
    assert KeepsLimit(full, k, actual, 0, limit) <==> actual <= reserved;
  }

  /** For a charge that has lapsed: exactly when nothing was spent. */
  lemma WhenLateSettlingKeepsLimit<T(!new)>(k: Key<T>, actual: nat, limit: nat)
    ensures (forall charges: map<Key<T>, Entry>, now :: !LiveCharge(charges, k, now) ==> KeepsLimit(charges, k, actual, now, limit))
            <==> actual == 0
  {
    hide LiveTokens;
    forall charges: map<Key<T>, Entry>, now | !LiveCharge(charges, k, now) && actual == 0
      ensures KeepsLimit(charges, k, actual, now, limit)
    {
      WhenSettlementFits(charges, k, actual, now, limit);
    }
    var full := map[Key(k.tenant, k.token + 1) := Entry(1, limit)];
    BesideOthers(k, 0, limit, 0);
    WhenSettlementFits(full, k, actual, 0, limit);
    assert !LiveCharge(full, k, 0);
    assert KeepsLimit(full, k, actual, 0, limit) <==> actual == 0;
  }

  // Whole runs.

  /** Call i, if it settles a permit of t, fits on top of what else t has in the window. */
  ghost predicate Fits<T(!new)>(calls: seq<Call<T>>, i: nat, t: T, limits: Limits)
    requires i < |calls|
  {
    var s, call := After(calls, i, limits), calls[i];
    call.Settle? && call.reservation in s.permits && s.permits[call.reservation].token.Some? && s.permits[call.reservation].tenant == t ==>
      var k := Key(t, s.permits[call.reservation].token.value);
      LiveTokens(s.guard.charges, t, call.now) + call.actual <= limits.tokens + Counted(s.guard.charges, k, call.now)
  }

  /** Right after call i tenant t is within its token limit. */
  ghost predicate Within<T(!new)>(calls: seq<Call<T>>, i: nat, t: T, limits: Limits)
    requires i < |calls|
  {
    LiveTokens(After(calls, i + 1, limits).guard.charges, t, calls[i].now) <= limits.tokens
  }

  lemma WithinStep<T(!new)>(calls: seq<Call<T>>, i: nat, t: T, limits: Limits)
    requires i < |calls| && limits.tokens > 0
    requires LiveTokens(After(calls, i, limits).guard.charges, t, calls[i].now) <= limits.tokens
    ensures Within(calls, i, t, limits) <==> Fits(calls, i, t, limits)
  {
    hide LiveRequests, LiveTokens;
    var s := After(calls, i, limits);
    TokensStayCalls(calls, i, limits);
    match calls[i] {
      case Reserve(u, estimated, now) =>
        SettleMovesTotal(s.guard.charges, Key(u, i), estimated, now);
      case Settle(k, actual, now) =>
        if k in s.permits && s.permits[k].token.Some? {
          SettleMovesTotal(s.guard.charges, Key(s.permits[k].tenant, s.permits[k].token.value), actual, now);
        }
      case Release(_, _) =>
    }
  }

  lemma WithinBefore<T(!new)>(calls: seq<Call<T>>, i: nat, t: T, limits: Limits)
    requires i < |calls| && Orderly(calls) && (i > 0 ==> Within(calls, i - 1, t, limits))
    ensures LiveTokens(After(calls, i, limits).guard.charges, t, calls[i].now) <= limits.tokens
  {
    hide LiveTokens;
    if i == 0 {
      NoTokens<T>(t, calls[0].now);
    } else {
      TotalOnlyLapses(After(calls, i, limits).guard.charges, t, calls[i - 1].now, calls[i].now);
    }
  }

  /** A tenant is within its token limit after each call of a run exactly when each of its
      settlements fits: grants alone never pass the limit. */
  lemma {:induction false} WhenRunKeepsLimit<T(!new)>(calls: seq<Call<T>>, n: nat, t: T, limits: Limits)
    requires n <= |calls| && Orderly(calls) && limits.tokens > 0
    ensures (forall i :: 0 <= i < n ==> Within(calls, i, t, limits)) <==> (forall i :: 0 <= i < n ==> Fits(calls, i, t, limits))
  {
    hide Within, Fits, LiveTokens, After;
    if n > 0 {
      WhenRunKeepsLimit(calls, n - 1, t, limits);
      if forall i :: 0 <= i < n - 1 ==> Within(calls, i, t, limits) {
        WithinBefore(calls, n - 1, t, limits);
        WithinStep(calls, n - 1, t, limits);
      }
    }
  }

  /** Every overrun of every grantable reservation passes the limit on some run: one where
      the tenant's other requests have reserved the rest. */
  lemma SettlingMorePassesLimit(limit: nat, reserved: nat, actual: nat)
    requires 0 < limit && reserved <= limit && reserved < actual
    ensures var limits := Limits(0, 0, limit);
            var calls := [Reserve("tenant", reserved, 0), Reserve("tenant", limit - reserved, 0), Settle(0, actual, 0)];
            !Within(calls, 2, "tenant", limits)
  {
    hide LiveTokens;
    var limits := Limits(0, 0, limit);
    var calls := [Reserve("tenant", reserved, 0), Reserve("tenant", limit - reserved, 0), Settle(0, actual, 0)];
    NoTokens("tenant", 0);
    var s0 := After(calls, 0, limits);
    assert s0 == State(Guard(map[], [], map[]), map[]);
    SettleMovesTotal(s0.guard.charges, Key("tenant", 0), reserved, 0);
    var s1 := After(calls, 1, limits);
    assert s1 == Step(s0, calls[0], 0, limits);
    SettleMovesTotal(s1.guard.charges, Key("tenant", 1), limit - reserved, 0);
    var s2 := After(calls, 2, limits);
    assert s2 == Step(s1, calls[1], 1, limits);
    SettleMovesTotal(s2.guard.charges, Key("tenant", 0), actual, 0);
  }
}

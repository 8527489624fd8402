/** Whole runs of the tenant guard: its per-minute and in-flight bounds over every
    interleaving of calls. */
module TenantQuotaRuns {
  import opened Results
  import opened Sets
  import opened Sums
  import opened TenantQuota

  /** A call. Settle and release name the earlier call that made the reservation,
      whose index also serves as its token. */
  datatype Call<T> =
    | Reserve(tenant: T, estimated: nat, now: nat)
    | Settle(reservation: nat, actual: nat, now: nat)
    | Release(reservation: nat, now: nat)

  datatype State<T> = State(guard: Guard<T>, permits: map<nat, Permit<T>>)

  ghost function Step<T(!new)>(s: State<T>, call: Call<T>, n: nat, limits: Limits): State<T> {
    match call
    case Reserve(t, estimated, now) =>
      var answer := ReserveAnswer(s.guard, t, estimated, now, n, limits);
      State(Reserved(s.guard, t, estimated, now, n, limits),
            if answer.Granted? then s.permits[n := answer.permit] else s.permits)
    case Settle(k, actual, now) =>
      if k in s.permits then s.(guard := Settled(s.guard, s.permits[k], actual, now, limits)) else s
    case Release(k, _) =>
      if k in s.permits then s.(guard := Released(s.guard, s.permits[k])) else s
  }

  ghost function After<T(!new)>(calls: seq<Call<T>>, n: nat, limits: Limits): State<T>
    requires n <= |calls|
  {
    if n == 0 then State(Guard(map[], [], map[]), map[]) else Step(After(calls, n - 1, limits), calls[n - 1], n - 1, limits)
  }

  ghost predicate Orderly<T>(calls: seq<Call<T>>) {
    forall i, j :: 0 <= i < j < |calls| ==> calls[i].now <= calls[j].now
  }

  /** Call i reserved for tenant t and was granted. */
  ghost predicate GrantedTo<T(!new)>(calls: seq<Call<T>>, i: nat, t: T, limits: Limits) {
    i < |calls| && calls[i].Reserve? && calls[i].tenant == t && !Off(limits)
    && Refusal(After(calls, i, limits).guard, t, calls[i].estimated, calls[i].now, limits).None?
  }

  /** The tokens in the state are earlier calls; a permit names its own call. */
  ghost predicate TokensAreCalls<T(!new)>(s: State<T>, n: nat) {
    (forall k :: k in s.guard.charges ==> k.token < n)
    && (forall i :: 0 <= i < |s.guard.grants| ==> s.guard.grants[i].token < n)
    && (forall t, k :: t in s.guard.permits && k in s.guard.permits[t] ==> k < n)
    && (forall k :: k in s.permits ==> k < n && (s.permits[k].token.None? || s.permits[k].token == Some(k)))
  }

  lemma TokensStep<T(!new)>(s: State<T>, call: Call<T>, n: nat, limits: Limits)
    requires TokensAreCalls(s, n)
    ensures TokensAreCalls(Step(s, call, n, limits), n + 1)
  {
    hide Refusal;
    match call {
      case Reserve(_, _, _) =>
      case Settle(_, _, _) =>
      case Release(_, _) =>
    }
  }

  lemma {:induction false} TokensStayCalls<T(!new)>(calls: seq<Call<T>>, n: nat, limits: Limits)
    requires n <= |calls|
    ensures TokensAreCalls(After(calls, n, limits), n)
  {
    hide TokensAreCalls, Step;
    if n == 0 {
      NoTokensYet<T>();
    } else {
      TokensStayCalls(calls, n - 1, limits);
      TokensStep(After(calls, n - 1, limits), calls[n - 1], n - 1, limits);
    }
  }

  lemma NoTokensYet<T(!new)>()
    ensures TokensAreCalls<T>(State(Guard(map[], [], map[]), map[]), 0)
  {
  }

  // Requests per minute.

  /** How many of the first n calls were granted to t in the minute that ends at `end`. */
  ghost function GrantsInMinute<T(!new)>(calls: seq<Call<T>>, n: nat, t: T, end: nat, limits: Limits): nat
    requires n <= |calls|
  {
    if n == 0 then 0
    else
      GrantsInMinute(calls, n - 1, t, end, limits)
      + (if GrantedTo(calls, n - 1, t, limits) && calls[n - 1].now <= end < calls[n - 1].now + REQUEST_WINDOW_MS then 1 else 0)
  }

  lemma PushGrant<T>(grants: seq<Grant<T>>, g: Grant<T>, t: T, end: nat)
    ensures LiveRequests(grants + [g], t, end)
            == LiveRequests(grants, t, end) + (if g.tenant == t && g.at + REQUEST_WINDOW_MS > end then 1 else 0)
  {
    assert (grants + [g])[..|grants|] == grants;
  }

  lemma GrantStep<T(!new)>(calls: seq<Call<T>>, i: nat, limits: Limits)
    requires i < |calls| && limits.requests > 0
    ensures var grants := After(calls, i, limits).guard.grants;
            After(calls, i + 1, limits).guard.grants
            == if calls[i].Reserve? && GrantedTo(calls, i, calls[i].tenant, limits)
               then grants + [Grant(calls[i].now, calls[i].tenant, i)] else grants
  {
    hide Refusal;
  }

  lemma GrantedToOne<T(!new)>(calls: seq<Call<T>>, i: nat, t: T, limits: Limits)
    requires i < |calls|
    ensures GrantedTo(calls, i, t, limits) <==>
            calls[i].Reserve? && calls[i].tenant == t && GrantedTo(calls, i, calls[i].tenant, limits)
  {
    hide Refusal, After, Off;
  }

  lemma NoGrantsYet<T(!new)>(calls: seq<Call<T>>, t: T, end: nat, limits: Limits)
    ensures LiveRequests(After(calls, 0, limits).guard.grants, t, end) == GrantsInMinute(calls, 0, t, end, limits)
  {
  }

  lemma GrantsInMinuteStep<T(!new)>(calls: seq<Call<T>>, i: nat, t: T, end: nat, limits: Limits)
    requires i < |calls|
    ensures GrantsInMinute(calls, i + 1, t, end, limits)
            == GrantsInMinute(calls, i, t, end, limits)
               + (if GrantedTo(calls, i, t, limits) && calls[i].now <= end < calls[i].now + REQUEST_WINDOW_MS then 1 else 0)
  {
    hide GrantedTo;
  }

  lemma {:induction false} LiveRequestsAreGrants<T(!new)>(calls: seq<Call<T>>, n: nat, t: T, end: nat, limits: Limits)
    requires n <= |calls| && limits.requests > 0 && forall i :: 0 <= i < n ==> calls[i].now <= end
    ensures LiveRequests(After(calls, n, limits).guard.grants, t, end) == GrantsInMinute(calls, n, t, end, limits)
  {
    hide *;
    if n == 0 {
      NoGrantsYet(calls, t, end, limits);
    } else {
      LiveRequestsAreGrants(calls, n - 1, t, end, limits);
      GrantStep(calls, n - 1, limits);
      GrantedToOne(calls, n - 1, t, limits);
      GrantsInMinuteStep(calls, n - 1, t, end, limits);
      var call := calls[n - 1];
      if call.Reserve? {
        PushGrant(After(calls, n - 1, limits).guard.grants, Grant(call.now, call.tenant, n - 1), t, end);
      }
    }
  }

  lemma {:induction false} LaterMinuteHasNoMore<T(!new)>(calls: seq<Call<T>>, n: nat, t: T, now: nat, end: nat, limits: Limits)
    requires n <= |calls| && now <= end && forall i :: 0 <= i < n ==> calls[i].now <= now
    ensures GrantsInMinute(calls, n, t, end, limits) <= GrantsInMinute(calls, n, t, now, limits)
  {
    hide GrantedTo;
    if n > 0 {
      LaterMinuteHasNoMore(calls, n - 1, t, now, end, limits);
    }
  }

  /** No tenant is granted more requests than its limit in any minute of any run. */
  lemma {:induction false} AtMostLimitPerMinute<T(!new)>(calls: seq<Call<T>>, n: nat, t: T, end: nat, limits: Limits)
    requires n <= |calls| && Orderly(calls) && limits.requests > 0
    ensures GrantsInMinute(calls, n, t, end, limits) <= limits.requests
  {
    hide LiveRequests, After;
    if n > 0 {
      AtMostLimitPerMinute(calls, n - 1, t, end, limits);
      var now := calls[n - 1].now;
      if GrantedTo(calls, n - 1, t, limits) && now <= end {
        LaterMinuteHasNoMore(calls, n - 1, t, now, end, limits);
        LiveRequestsAreGrants(calls, n - 1, t, now, limits);
      }
    }
  }

  // Requests in flight.

  /** Call i was granted to t and no call before n released it. */
  ghost predicate Outstanding<T(!new)>(calls: seq<Call<T>>, i: nat, n: nat, t: T, limits: Limits)
    requires n <= |calls|
  {
    i < n && GrantedTo(calls, i, t, limits) && forall j :: i < j < n ==> calls[j] != Release(i, calls[j].now)
  }

  /** A granted call's permit is kept under its index. */
  lemma {:induction false} PermitOfCall<T(!new)>(calls: seq<Call<T>>, i: nat, n: nat, t: T, limits: Limits)
    requires n <= |calls| && i < n && limits.inFlight > 0
    ensures GrantedTo(calls, i, t, limits) <==>
            i in After(calls, n, limits).permits && After(calls, n, limits).permits[i] == Permit(t, Some(i), true)
    ensures i in After(calls, n, limits).permits ==>
              After(calls, n, limits).permits[i].token == Some(i) && After(calls, n, limits).permits[i].countedInFlight
    decreases n
  {
    hide Refusal;
    if i == n - 1 {
      TokensStayCalls(calls, n - 1, limits);
    } else {
      PermitOfCall(calls, i, n - 1, t, limits);
    }
  }

  /** The permits held are exactly the calls granted and not yet released. */
  lemma {:induction false} HeldIsOutstanding<T(!new)>(calls: seq<Call<T>>, n: nat, t: T, i: nat, limits: Limits)
    requires n <= |calls| && limits.inFlight > 0
    ensures i in HeldBy(After(calls, n, limits).guard.permits, t) <==> Outstanding(calls, i, n, t, limits)
  {
    hide Refusal;
    if n > 0 {
      HeldIsOutstanding(calls, n - 1, t, i, limits);
      TokensStayCalls(calls, n - 1, limits);
      if i < n - 1 {
        PermitOfCall(calls, i, n - 1, t, limits);
      }
      if calls[n - 1].Release? {
        var k := calls[n - 1].reservation;
        if k < n - 1 {
          PermitOfCall(calls, k, n - 1, t, limits);
        }
      }
    }
  }

  lemma {:induction false} HeldWithinLimit<T(!new)>(calls: seq<Call<T>>, n: nat, t: T, limits: Limits)
    requires n <= |calls| && limits.inFlight > 0
    ensures |HeldBy(After(calls, n, limits).guard.permits, t)| <= limits.inFlight
  {
    hide LiveRequests, LiveTokens;
    if n > 0 {
      HeldWithinLimit(calls, n - 1, t, limits);
      hide After;
      var s := After(calls, n - 1, limits);
      match calls[n - 1] {
        case Reserve(_, _, _) =>
        case Settle(_, _, _) =>
        case Release(k, _) =>
          if k in s.permits && s.permits[k].token.Some? {
            DroppedIsSmaller(s.guard.permits, s.permits[k].tenant, s.permits[k].token.value, t);
          }
      }
    }
  }

  lemma DroppedIsSmaller<T>(permits: map<T, set<Token>>, u: T, token: Token, t: T)
    ensures |HeldBy(DropPermit(permits, u, token), t)| <= |HeldBy(permits, t)|
  {
    SubsetSize(HeldBy(DropPermit(permits, u, token), t), HeldBy(permits, t));
  }

  /** No tenant ever has more granted and unreleased calls than its in-flight limit. */
  lemma AtMostLimitInFlight<T(!new)>(calls: seq<Call<T>>, n: nat, t: T, limits: Limits)
    requires n <= |calls| && limits.inFlight > 0
    ensures |set i | 0 <= i < n && Outstanding(calls, i, n, t, limits)| <= limits.inFlight
  {
    hide After, Outstanding;
    var held := HeldBy(After(calls, n, limits).guard.permits, t);
    HeldWithinLimit(calls, n, t, limits);
    forall i: nat
      ensures i in held <==> Outstanding(calls, i, n, t, limits)
    {
      HeldIsOutstanding(calls, n, t, i, limits);
    }
    SubsetSize((set i | 0 <= i < n && Outstanding(calls, i, n, t, limits)), held);
  }

  // Tokens per minute.

  /** Settling moves the tenant's total by the difference to what was counted, and a
      lapsed charge is counted again exactly once. */
  lemma SettleMovesTotal<T(!new)>(charges: map<Key<T>, Entry>, k: Key<T>, actual: nat, now: nat)
    ensures var counted := if k in charges && charges[k].expires > now then charges[k].amount else 0;
            LiveTokens(SettledCharges(charges, k, actual, now), k.tenant, now) + counted
            == LiveTokens(charges, k.tenant, now) + actual
    ensures forall t :: t != k.tenant ==>
              LiveTokens(SettledCharges(charges, k, actual, now), t, now) == LiveTokens(charges, t, now)
  {
    var after := SettledCharges(charges, k, actual, now);
    SumSet(LiveAmounts(charges, k.tenant, now), k, actual);
    assert LiveAmounts(after, k.tenant, now) == LiveAmounts(charges, k.tenant, now)[k := actual];
    forall t | t != k.tenant
      ensures LiveTokens(after, t, now) == LiveTokens(charges, t, now)
    {
      assert LiveAmounts(after, t, now) == LiveAmounts(charges, t, now);
    }
  }

  lemma TotalOnlyLapses<T(!new)>(charges: map<Key<T>, Entry>, t: T, now: nat, later: nat)
    requires now <= later
    ensures LiveTokens(charges, t, later) <= LiveTokens(charges, t, now)
  {
    SumOfPart(LiveAmounts(charges, t, later), LiveAmounts(charges, t, now));
  }

  /** Call i, if it settles, only lowers an amount that still counts. */
  ghost predicate OnlyLowers<T(!new)>(calls: seq<Call<T>>, i: nat, limits: Limits)
    requires i < |calls|
  {
    var s := After(calls, i, limits);
    calls[i].Settle? && calls[i].reservation in s.permits && s.permits[calls[i].reservation].token.Some? ==>
      var permit := s.permits[calls[i].reservation];
      var k := Key(permit.tenant, permit.token.value);
      k in s.guard.charges && s.guard.charges[k].expires > calls[i].now && calls[i].actual <= s.guard.charges[k].amount
  }

  /** While settlements only lower what counts, a tenant's tokens stay within its limit. */
  lemma {:induction false} TokensWithinLimit<T(!new)>(calls: seq<Call<T>>, n: nat, t: T, now: nat, limits: Limits)
    requires n <= |calls| && Orderly(calls) && limits.tokens > 0
    requires forall i :: 0 <= i < n ==> calls[i].now <= now && OnlyLowers(calls, i, limits)
    ensures LiveTokens(After(calls, n, limits).guard.charges, t, now) <= limits.tokens
  {
    hide Refusal, OnlyLowers, LiveTokens;
    if n == 0 {
      NoTokens<T>(t, now);
    } else {
      var call := calls[n - 1];
      TokensWithinLimit(calls, n - 1, t, call.now, limits);
      TotalStep(calls, n - 1, t, limits);
      TotalOnlyLapses(After(calls, n, limits).guard.charges, t, call.now, now);
    }
  }

  lemma NoTokens<T(!new)>(t: T, now: nat)
    ensures LiveTokens(map[], t, now) == 0
  {
    assert LiveAmounts<T>(map[], t, now) == map[];
  }

  lemma TotalStep<T(!new)>(calls: seq<Call<T>>, i: nat, t: T, limits: Limits)
    requires i < |calls| && limits.tokens > 0 && OnlyLowers(calls, i, limits)
    requires LiveTokens(After(calls, i, limits).guard.charges, t, calls[i].now) <= limits.tokens
    ensures LiveTokens(After(calls, i + 1, limits).guard.charges, t, calls[i].now) <= limits.tokens
  {
    hide LiveRequests, LiveTokens;
    var s := After(calls, i, limits);
    TokensStayCalls(calls, i, limits);
    match calls[i] {
      case Reserve(u, estimated, now) =>
        SettleMovesTotal(s.guard.charges, Key(u, i), estimated, now);
      case Settle(k, actual, now) =>
        if k in s.permits && s.permits[k].token.Some? {
          SettleMovesTotal(s.guard.charges, Key(s.permits[k].tenant, s.permits[k].token.value), actual, now);
        }
      case Release(_, _) =>
    }
  }
}

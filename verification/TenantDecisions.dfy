/** What the tenant guard answers, in terms of the calls made before: when each of the three
    limits refuses a call and when it is granted, for permits in memory and on lease. */
module TenantDecisions {
  import opened Results
  import opened Sums
  import opened TenantQuota
  import opened TenantLeases
  import opened TenantQuotaRuns
  import opened TenantBackends

  /** Which reservations were granted. */
  type Verdicts = nat -> bool

  ghost predicate GotGrant<T>(calls: seq<Call<T>>, d: Verdicts, i: nat, t: T) {
    i < |calls| && calls[i].Reserve? && calls[i].tenant == t && d(i)
  }

  ghost predicate GivenBack<T>(calls: seq<Call<T>>, i: nat, n: nat)
    requires n <= |calls|
  {
    exists m :: i < m < n && calls[m].Release? && calls[m].reservation == i
  }

  /** Calls of t that were granted and not given back. */
  ghost function InFlightCalls<T>(calls: seq<Call<T>>, d: Verdicts, n: nat, t: T): set<nat>
    requires n <= |calls|
  {
    set i | 0 <= i < n && GotGrant(calls, d, i, t) && !GivenBack(calls, i, n)
  }

  /** The same, within a lease. */
  ghost function LeasedCalls<T>(calls: seq<Call<T>>, d: Verdicts, n: nat, t: T, now: nat, leaseTtl: nat): set<nat>
    requires n <= |calls|
  {
    set i | i in InFlightCalls(calls, d, n, t) && now < calls[i].now + leaseTtl
  }

  /** Calls of t that were granted in the last sixty seconds. */
  ghost function RecentCalls<T>(calls: seq<Call<T>>, d: Verdicts, n: nat, t: T, now: nat): set<nat>
    requires n <= |calls|
  {
    set i | 0 <= i < n && GotGrant(calls, d, i, t) && now < calls[i].now + 60_000
  }

  /** Since when, and with how much, call i counts before call n: from its own time and with
      its estimate; a settlement within the minute changes the amount, a later one starts anew. */
  datatype Counting = Counting(since: nat, amount: nat)

  ghost function CountingOf<T>(calls: seq<Call<T>>, i: nat, n: nat): Counting
    requires i < n <= |calls| && calls[i].Reserve?
    decreases n
  {
    if n == i + 1 then Counting(calls[i].now, calls[i].estimated)
    else
      var before, call := CountingOf(calls, i, n - 1), calls[n - 1];
      if call.Settle? && call.reservation == i then
        Counting(if call.now < before.since + 60_000 then before.since else call.now, call.actual)
      else before
  }

  /** What t's granted calls count for in the last sixty seconds. */
  ghost function RecentTokens<T>(calls: seq<Call<T>>, d: Verdicts, n: nat, t: T, now: nat): map<nat, nat>
    requires n <= |calls|
  {
    map i | 0 <= i < n && GotGrant(calls, d, i, t) && now < CountingOf(calls, i, n).since + 60_000 :: CountingOf(calls, i, n).amount
  }

  // The state of a run with given verdicts.

  ghost function Next<T(!new)>(s: State<T>, call: Call<T>, n: nat, granted: bool, limits: Limits): State<T> {
    match call
    case Reserve(t, estimated, now) =>
      if granted then State(Charged(s.guard, t, estimated, now, n, limits),
                            s.permits[n := Permit(t, if Off(limits) then None else Some(n), limits.inFlight > 0)])
      else s
    case _ => Step(s, call, n, limits)
  }

  ghost function RunWith<T(!new)>(calls: seq<Call<T>>, d: Verdicts, n: nat, limits: Limits): State<T>
    requires n <= |calls|
  {
    if n == 0 then State(Guard(map[], [], map[]), map[])
    else Next(RunWith(calls, d, n - 1, limits), calls[n - 1], n - 1, d(n - 1), limits)
  }

  lemma {:induction false} PermitsOfRun<T(!new)>(calls: seq<Call<T>>, d: Verdicts, n: nat, k: nat, limits: Limits)
    requires n <= |calls|
    ensures k in RunWith(calls, d, n, limits).permits <==> k < n && calls[k].Reserve? && d(k)
    ensures k in RunWith(calls, d, n, limits).permits ==>
              RunWith(calls, d, n, limits).permits[k]
              == Permit(calls[k].tenant, if Off(limits) then None else Some(k), limits.inFlight > 0)
  {
    hide Off, Charged;
    if n > 0 {
      PermitsOfRun(calls, d, n - 1, k, limits);
    }
  }

  // Permits.

  ghost predicate HoldsPermit<T(!new)>(calls: seq<Call<T>>, d: Verdicts, i: nat, n: nat, t: T, limits: Limits)
    requires n <= |calls|
  {
    i in HeldBy(RunWith(calls, d, n, limits).guard.permits, t) <==> i < n && GotGrant(calls, d, i, t) && !GivenBack(calls, i, n)
  }

  lemma GivenBackStep<T>(calls: seq<Call<T>>, i: nat, n: nat)
    requires n < |calls|
    ensures GivenBack(calls, i, n + 1) <==> GivenBack(calls, i, n) || (i < n && calls[n].Release? && calls[n].reservation == i)
    ensures i >= n ==> !GivenBack(calls, i, n + 1)
  {
  }

  lemma HeldAfterHold<T>(permits: map<T, set<Token>>, u: T, token: Token, t: T)
    ensures HeldBy(HoldPermit(permits, u, token), t) == HeldBy(permits, t) + (if u == t then {token} else {})
  {
  }

  lemma {:induction false} PermitIsHeld<T(!new)>(calls: seq<Call<T>>, d: Verdicts, i: nat, n: nat, t: T, limits: Limits)
    requires n <= |calls| && limits.inFlight > 0
    ensures HoldsPermit(calls, d, i, n, t, limits)
    decreases n
  {
    hide GivenBack, HoldPermit, DropPermit, HeldBy;
    if n == 0 {
      NobodyHolds0(calls, d, t, limits);
    } else {
      var m := n - 1;
      PermitIsHeld(calls, d, i, m, t, limits);
      GivenBackStep(calls, i, m);
      var s := RunWith(calls, d, m, limits);
      match calls[m] {
        case Reserve(u, _, _) =>
          HeldAfterHold(s.guard.permits, u, m, t);
        case Settle(_, _, _) =>
        case Release(k, _) =>
          PermitsOfRun(calls, d, m, k, limits);
          if k in s.permits {
            HeldAfterDrop(s.guard.permits, calls[k].tenant, k, t);
          }
      }
    }
  }

  lemma NobodyHolds0<T(!new)>(calls: seq<Call<T>>, d: Verdicts, t: T, limits: Limits)
    ensures HeldBy(RunWith(calls, d, 0, limits).guard.permits, t) == {}
  {
  }

  lemma HeldAreCalls<T(!new)>(calls: seq<Call<T>>, d: Verdicts, n: nat, t: T, limits: Limits)
    requires n <= |calls| && limits.inFlight > 0
    ensures HeldBy(RunWith(calls, d, n, limits).guard.permits, t) == InFlightCalls(calls, d, n, t)
  {
    hide GotGrant, GivenBack, HeldBy, RunWith;
    forall i: nat
      ensures HoldsPermit(calls, d, i, n, t, limits)
    {
      PermitIsHeld(calls, d, i, n, t, limits);
    }
    var held, running := HeldBy(RunWith(calls, d, n, limits).guard.permits, t), InFlightCalls(calls, d, n, t);
    forall i: nat
      ensures i in held <==> i in running
    {
      assert HoldsPermit(calls, d, i, n, t, limits);
    }
  }

  // Requests.

  lemma {:induction false} RequestsAreCalls<T(!new)>(calls: seq<Call<T>>, d: Verdicts, n: nat, t: T, now: nat, limits: Limits)
    requires n <= |calls| && limits.requests > 0
    ensures LiveRequests(RunWith(calls, d, n, limits).guard.grants, t, now) == |RecentCalls(calls, d, n, t, now)|
  {
    hide LiveRequests;
    if n == 0 {
      NoRequests(calls, d, t, now, limits);
    } else {
      RequestsAreCalls(calls, d, n - 1, t, now, limits);
      RecentStep(calls, d, n - 1, t, now);
      if calls[n - 1].Reserve? && d(n - 1) {
        PushGrant(RunWith(calls, d, n - 1, limits).guard.grants, Grant(calls[n - 1].now, calls[n - 1].tenant, n - 1), t, now);
      }
    }
  }

  lemma NoRequests<T(!new)>(calls: seq<Call<T>>, d: Verdicts, t: T, now: nat, limits: Limits)
    ensures LiveRequests(RunWith(calls, d, 0, limits).guard.grants, t, now) == 0 && |RecentCalls(calls, d, 0, t, now)| == 0
  {
    assert RecentCalls(calls, d, 0, t, now) == {};
  }

  lemma RecentStep<T>(calls: seq<Call<T>>, d: Verdicts, n: nat, t: T, now: nat)
    requires n < |calls|
    ensures |RecentCalls(calls, d, n + 1, t, now)|
            == |RecentCalls(calls, d, n, t, now)| + (if GotGrant(calls, d, n, t) && now < calls[n].now + 60_000 then 1 else 0)
  {
    hide GotGrant;
    var recent := RecentCalls(calls, d, n, t, now);
    if GotGrant(calls, d, n, t) && now < calls[n].now + 60_000 {
      assert RecentCalls(calls, d, n + 1, t, now) == recent + {n};
    } else {
      assert RecentCalls(calls, d, n + 1, t, now) == recent;
    }
  }

  // Tokens.

  ghost predicate HoldsCharge<T(!new)>(calls: seq<Call<T>>, d: Verdicts, k: Key<T>, n: nat, limits: Limits)
    requires n <= |calls|
  {
    var charges := RunWith(calls, d, n, limits).guard.charges;
    (k in charges <==> k.token < n && GotGrant(calls, d, k.token, k.tenant))
    && (k in charges ==> k.token < n && calls[k.token].Reserve?
                         && charges[k] == Entry(CountingOf(calls, k.token, n).since + 60_000, CountingOf(calls, k.token, n).amount))
  }

  lemma {:induction false} ChargeIsHeld<T(!new)>(calls: seq<Call<T>>, d: Verdicts, k: Key<T>, n: nat, limits: Limits)
    requires n <= |calls| && limits.tokens > 0
    ensures HoldsCharge(calls, d, k, n, limits)
    decreases n
  {
    if n > 0 {
      ChargeIsHeld(calls, d, k, n - 1, limits);
      ChargeHeldStep(calls, d, k, n - 1, limits);
    }
  }

  lemma ChargeHeldStep<T(!new)>(calls: seq<Call<T>>, d: Verdicts, k: Key<T>, m: nat, limits: Limits)
    requires m < |calls| && limits.tokens > 0 && HoldsCharge(calls, d, k, m, limits)
    ensures HoldsCharge(calls, d, k, m + 1, limits)
  {
    match calls[m] {
      case Reserve(_, _, _) =>
      case Settle(r, _, _) =>
        PermitsOfRun(calls, d, m, r, limits);
      case Release(r, _) =>
        PermitsOfRun(calls, d, m, r, limits);
    }
  }

  lemma TokensAreCallsSum<T(!new)>(calls: seq<Call<T>>, d: Verdicts, n: nat, t: T, now: nat, limits: Limits)
    requires n <= |calls| && limits.tokens > 0
    ensures LiveTokens(RunWith(calls, d, n, limits).guard.charges, t, now) == Sum(RecentTokens(calls, d, n, t, now))
  {
    hide Sum, RunWith, CountingOf, GotGrant;
    var recent: map<nat, nat> := RecentTokens(calls, d, n, t, now);
    var live := LiveAmounts(RunWith(calls, d, n, limits).guard.charges, t, now);
    forall k: Key<T>
      ensures k in live <==> k.tenant == t && k.token in recent
      ensures k in live ==> live[k] == recent[k.token]
    {
      ChargeIsHeld(calls, d, k, n, limits);
      GrantedOnce(calls, d, k.token, k.tenant);
    }
    var f: map<nat, Key<T>> := map i | i in recent :: Key(t, i);
    KeysOf(live, recent, f, t);
    SumRenamed<nat, Key<T>>(recent, live, f);
  }

  lemma GrantedOnce<T>(calls: seq<Call<T>>, d: Verdicts, i: nat, t: T)
    ensures GotGrant(calls, d, i, t) ==> i < |calls| && calls[i].Reserve?
  {
  }

  lemma KeysOf<T(!new)>(live: map<Key<T>, nat>, recent: map<nat, nat>, f: map<nat, Key<T>>, t: T)
    requires f == map i | i in recent :: Key(t, i)
    requires forall k: Key<T> :: k in live <==> k.tenant == t && k.token in recent
    ensures f.Keys == recent.Keys && f.Values == live.Keys
  {
    forall k | k in live
      ensures k in f.Values
    {
      assert f[k.token] == Key(t, k.token) == k;
    }
  }

  // The verdicts.

  /** The three checks on what the calls before have left, and the permit otherwise. */
  ghost predicate Decides<T>(answer: Reservation<T>, inFlight: nat, requests: nat, tokens: nat, call: Call<T>, n: nat, limits: Limits)
    requires call.Reserve?
  {
    var noSlot := limits.inFlight > 0 && inFlight >= limits.inFlight;
    var noRequest := limits.requests > 0 && requests >= limits.requests;
    var noTokens := limits.tokens > 0 && tokens + call.estimated > limits.tokens;
    && (answer == Rejected(InFlight) <==> noSlot)
    && (answer == Rejected(RequestsPerMinute) <==> !noSlot && noRequest)
    && (answer == Rejected(TokensPerMinute) <==> !noSlot && !noRequest && noTokens)
    && (answer.Granted? <==> !noSlot && !noRequest && !noTokens)
    && (answer.Granted? ==>
          answer.permit.tenant == call.tenant && answer.permit.countedInFlight == (limits.inFlight > 0)
          && answer.permit.token
             == if limits.inFlight > 0 || limits.requests > 0 || limits.tokens > 0 then Some(n) else None)
  }

  /** The reference's own verdicts. */
  ghost function VerdictAt<T(!new)>(calls: seq<Call<T>>, i: nat, limits: Limits): Reservation<T>
    requires i < |calls| && calls[i].Reserve?
  {
    ReserveAnswer(After(calls, i, limits).guard, calls[i].tenant, calls[i].estimated, calls[i].now, i, limits)
  }

  ghost predicate GrantsOf<T(!new)>(calls: seq<Call<T>>, d: Verdicts, limits: Limits) {
    forall i :: 0 <= i < |calls| && calls[i].Reserve? ==> (d(i) <==> VerdictAt(calls, i, limits).Granted?)
  }

  lemma {:induction false} AfterIsRun<T(!new)>(calls: seq<Call<T>>, d: Verdicts, n: nat, limits: Limits)
    requires n <= |calls| && GrantsOf(calls, d, limits)
    ensures After(calls, n, limits) == RunWith(calls, d, n, limits)
  {
    hide Refusal;
    if n > 0 {
      AfterIsRun(calls, d, n - 1, limits);
      OffChargesNothing(After(calls, n - 1, limits).guard, calls[n - 1], n - 1, limits);
    }
  }

  lemma OffChargesNothing<T(!new)>(g: Guard<T>, call: Call<T>, n: nat, limits: Limits)
    ensures Off(limits) && call.Reserve? ==> Charged(g, call.tenant, call.estimated, call.now, n, limits) == g
  {
  }

  lemma RefusedDecides<T(!new)>(answer: Reservation<T>, held: nat, requests: nat, tokens: nat, call: Call<T>, n: nat, limits: Limits)
    requires call.Reserve?
    requires answer == if Off(limits) then Granted(Permit(call.tenant, None, false))
                       else
                         var refusal := Refused(held, requests, tokens, call.estimated, limits);
                         if refusal.Some? then Rejected(refusal.value) else Granted(Permit(call.tenant, Some(n), limits.inFlight > 0))
    ensures Decides(answer, held, requests, tokens, call, n, limits)
  {
  }

  /** A limit that is not set is compared with nothing. */
  lemma OnlySetLimits<T>(answer: Reservation<T>, a: nat, b: nat, c: nat, x: nat, y: nat, z: nat, call: Call<T>, n: nat, limits: Limits)
    requires call.Reserve? && Decides(answer, a, b, c, call, n, limits)
    requires (limits.inFlight > 0 ==> a == x) && (limits.requests > 0 ==> b == y) && (limits.tokens > 0 ==> c == z)
    ensures Decides(answer, x, y, z, call, n, limits)
  {
  }

  /** In memory: a call is refused for want of a slot exactly when that many calls of the
      tenant are granted and not given back; for requests exactly when not for a slot and that
      many were granted in the last minute; for tokens exactly when for neither and they
      would exceed what is left; and is granted otherwise. */
  lemma VerdictIsExact<T(!new)>(calls: seq<Call<T>>, d: Verdicts, n: nat, limits: Limits)
    requires n < |calls| && calls[n].Reserve? && GrantsOf(calls, d, limits)
    ensures var t, now := calls[n].tenant, calls[n].now;
            Decides(VerdictAt(calls, n, limits), |InFlightCalls(calls, d, n, t)|, |RecentCalls(calls, d, n, t, now)|,
                    Sum(RecentTokens(calls, d, n, t, now)), calls[n], n, limits)
  {
    hide Decides, Refused, Sum, LiveRequests, LiveTokens, RunWith, After, InFlightCalls, RecentCalls, RecentTokens, HeldBy;
    var t, now, s := calls[n].tenant, calls[n].now, After(calls, n, limits);
    AfterIsRun(calls, d, n, limits);
    HeldIsHeldBy(s.guard.permits, t);
    if limits.inFlight > 0 {
      HeldAreCalls(calls, d, n, t, limits);
    }
    if limits.requests > 0 {
      RequestsAreCalls(calls, d, n, t, now, limits);
    }
    if limits.tokens > 0 {
      TokensAreCallsSum(calls, d, n, t, now, limits);
    }
    var held, requests, tokens := Held(s.guard.permits, t), LiveRequests(s.guard.grants, t, now), LiveTokens(s.guard.charges, t, now);
    RefusedDecides(VerdictAt(calls, n, limits), held, requests, tokens, calls[n], n, limits);
    OnlySetLimits(VerdictAt(calls, n, limits), held, requests, tokens, |InFlightCalls(calls, d, n, t)|,
                  |RecentCalls(calls, d, n, t, now)|, Sum(RecentTokens(calls, d, n, t, now)), calls[n], n, limits);
  }

  lemma HeldIsHeldBy<T>(permits: map<T, set<Token>>, t: T)
    ensures Held(permits, t) == |HeldBy(permits, t)|
  {
  }

  // On lease.

  ghost function LeasedVerdictAt<T(!new)>(calls: seq<Call<T>>, i: nat, limits: Limits, leaseTtl: nat): Reservation<T>
    requires i < |calls| && calls[i].Reserve?
  {
    var s := LeasedAfter(calls, i, limits, leaseTtl);
    LeasedAnswer(s.state.guard, s.leases, calls[i].tenant, calls[i].estimated, calls[i].now, i, limits)
  }

  ghost predicate LeasedGrantsOf<T(!new)>(calls: seq<Call<T>>, d: Verdicts, limits: Limits, leaseTtl: nat) {
    forall i :: 0 <= i < |calls| && calls[i].Reserve? ==> (d(i) <==> LeasedVerdictAt(calls, i, limits, leaseTtl).Granted?)
  }

  lemma {:induction false} LeasedAfterIsRun<T(!new)>(calls: seq<Call<T>>, d: Verdicts, n: nat, limits: Limits, leaseTtl: nat)
    requires n <= |calls| && LeasedGrantsOf(calls, d, limits, leaseTtl)
    ensures LeasedAfter(calls, n, limits, leaseTtl).state == RunWith(calls, d, n, limits)
  {
    hide LeasedRefusal;
    if n > 0 {
      LeasedAfterIsRun(calls, d, n - 1, limits, leaseTtl);
      OffChargesNothing(LeasedAfter(calls, n - 1, limits, leaseTtl).state.guard, calls[n - 1], n - 1, limits);
    }
  }

  lemma {:induction false} LeaseOfCall<T(!new)>(calls: seq<Call<T>>, d: Verdicts, i: nat, n: nat, limits: Limits, leaseTtl: nat)
    requires n <= |calls| && LeasedGrantsOf(calls, d, limits, leaseTtl) && limits.inFlight > 0
    requires i < n && calls[i].Reserve? && d(i)
    ensures i in LeasedAfter(calls, n, limits, leaseTtl).leases
            && LeasedAfter(calls, n, limits, leaseTtl).leases[i] == calls[i].now + leaseTtl
    decreases n
  {
    hide LeasedRefusal, LeasedReserved;
    if i < n - 1 {
      LeaseOfCall(calls, d, i, n - 1, limits, leaseTtl);
    }
  }

  lemma LiveAreCalls<T(!new)>(calls: seq<Call<T>>, d: Verdicts, n: nat, t: T, now: nat, limits: Limits, leaseTtl: nat)
    requires n <= |calls| && LeasedGrantsOf(calls, d, limits, leaseTtl) && limits.inFlight > 0
    ensures var s := LeasedAfter(calls, n, limits, leaseTtl);
            LiveHeld(HeldBy(s.state.guard.permits, t), s.leases, now) == LeasedCalls(calls, d, n, t, now, leaseTtl)
  {
    hide LeasedAfter, RunWith, HeldBy, GivenBack, LeasedGrantsOf;
    LeasedAfterIsRun(calls, d, n, limits, leaseTtl);
    HeldAreCalls(calls, d, n, t, limits);
    forall i | i in InFlightCalls(calls, d, n, t)
      ensures i in LeasedAfter(calls, n, limits, leaseTtl).leases
              && LeasedAfter(calls, n, limits, leaseTtl).leases[i] == calls[i].now + leaseTtl
    {
      LeaseOfCall(calls, d, i, n, limits, leaseTtl);
    }
  }

  /** On lease: the same, with the calls that are granted, not given back and within their lease. */
  lemma LeasedVerdictIsExact<T(!new)>(calls: seq<Call<T>>, d: Verdicts, n: nat, limits: Limits, leaseTtl: nat)
    requires n < |calls| && calls[n].Reserve? && LeasedGrantsOf(calls, d, limits, leaseTtl)
    ensures var t, now := calls[n].tenant, calls[n].now;
            Decides(LeasedVerdictAt(calls, n, limits, leaseTtl), |LeasedCalls(calls, d, n, t, now, leaseTtl)|,
                    |RecentCalls(calls, d, n, t, now)|, Sum(RecentTokens(calls, d, n, t, now)), calls[n], n, limits)
  {
    hide Decides, Refused, Sum, LiveRequests, LiveTokens, RunWith, LeasedAfter, LeasedCalls, RecentCalls, RecentTokens, HeldBy, LiveHeld;
    var t, now, s := calls[n].tenant, calls[n].now, LeasedAfter(calls, n, limits, leaseTtl);
    LeasedAfterIsRun(calls, d, n, limits, leaseTtl);
    if limits.inFlight > 0 {
      LiveAreCalls(calls, d, n, t, now, limits, leaseTtl);
    }
    if limits.requests > 0 {
      RequestsAreCalls(calls, d, n, t, now, limits);
    }
    if limits.tokens > 0 {
      TokensAreCallsSum(calls, d, n, t, now, limits);
    }
    var g := s.state.guard;
    var held := |LiveHeld(HeldBy(g.permits, t), s.leases, now)|;
    var requests, tokens := LiveRequests(g.grants, t, now), LiveTokens(g.charges, t, now);
    RefusedDecides(LeasedVerdictAt(calls, n, limits, leaseTtl), held, requests, tokens, calls[n], n, limits);
    OnlySetLimits(LeasedVerdictAt(calls, n, limits, leaseTtl), held, requests, tokens, |LeasedCalls(calls, d, n, t, now, leaseTtl)|,
                  |RecentCalls(calls, d, n, t, now)|, Sum(RecentTokens(calls, d, n, t, now)), calls[n], n, limits);
  }

  // What the guards answer.

  /** The answers are the verdicts of the reservations, in order. */
  lemma AnswersAreVerdicts<T(!new)>(calls: seq<Call<T>>, n: nat, limits: Limits, leaseTtl: nat)
    requires n < |calls| && calls[n].Reserve?
    ensures Answers(calls, n + 1, limits) == Answers(calls, n, limits) + [VerdictAt(calls, n, limits)]
    ensures LeasedAnswers(calls, n + 1, limits, leaseTtl)
            == LeasedAnswers(calls, n, limits, leaseTtl) + [LeasedVerdictAt(calls, n, limits, leaseTtl)]
  {
  }
}

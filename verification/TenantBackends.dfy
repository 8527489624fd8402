/** The two backends of the tenant guard run side by side. They differ in one thing: a
    permit in Redis stops counting when its lease ends, one in memory when it is released. */
module TenantBackends {
  import opened Results
  import opened Sets
  import opened TenantQuota
  import opened TenantLeases
  import opened TenantQuotaRuns
  import Memory = TenantQuotaMemory
  import Redis = TenantQuotaRedis

  /** The answers to the reserve calls among the first n, in order. */
  ghost function Answers<T(!new)>(calls: seq<Call<T>>, n: nat, limits: Limits): seq<Reservation<T>>
    requires n <= |calls|
  {
    if n == 0 then []
    else
      var call := calls[n - 1];
      Answers(calls, n - 1, limits)
      + (if call.Reserve?
         then [ReserveAnswer(After(calls, n - 1, limits).guard, call.tenant, call.estimated, call.now, n - 1, limits)] else [])
  }

  lemma TokenIsUnused<T(!new)>(calls: seq<Call<T>>, n: nat, limits: Limits)
    requires n <= |calls|
    ensures Unused(After(calls, n, limits).guard, n)
    ensures forall k :: k in After(calls, n, limits).permits ==>
              (limits.tokens > 0 || limits.inFlight > 0 ==> After(calls, n, limits).permits[k].token.Some?)
  {
    TokensStayCalls(calls, n, limits);
    PermitsHaveTokens(calls, n, limits);
  }

  lemma {:induction false} PermitsHaveTokens<T(!new)>(calls: seq<Call<T>>, n: nat, limits: Limits)
    requires n <= |calls|
    ensures forall k :: k in After(calls, n, limits).permits ==>
              After(calls, n, limits).permits[k].countedInFlight == (limits.inFlight > 0)
              && (!Off(limits) ==> After(calls, n, limits).permits[k].token.Some?)
  {
    hide Refusal;
    if n > 0 {
      PermitsHaveTokens(calls, n - 1, limits);
    }
  }

  /** The in-memory guard answers every run as the reference does, in-flight limit included. */
  method RunMemory<T(==, !new)>(calls: seq<Call<T>>, limits: Limits) returns (answers: seq<Reservation<T>>)
    requires Orderly(calls)
    ensures answers == Answers(calls, |calls|, limits)
  {
    hide Reserved, ReserveAnswer, Settled, Released, Unused;
    var guard := new Memory.TenantGuard<T>(limits);
    var permits: map<nat, Permit<T>> := map[];
    answers := [];
    for i := 0 to |calls|
      invariant fresh(guard) && guard.Valid() && guard.limits == limits
      invariant forall j :: i <= j < |calls| ==> guard.clock <= calls[j].now
      invariant State(guard.guard, permits) == After(calls, i, limits) && answers == Answers(calls, i, limits)
    {
      TokenIsUnused(calls, i, limits);
      PermitsHaveTokens(calls, i, limits);
      match calls[i] {
        case Reserve(t, estimated, now) =>
          var answer := guard.Reserve(t, estimated, now, i);
          answers := answers + [answer];
          if answer.Granted? {
            permits := permits[i := answer.permit];
          }
        case Settle(k, actual, now) =>
          if k in permits {
            guard.Settle(permits[k], actual, now);
          }
        case Release(k, _) =>
          if k in permits {
            guard.Release(permits[k]);
          }
      }
    }
  }

  // Permits on lease.

  datatype LeasedState<T> = LeasedState(state: State<T>, leases: Leases)

  ghost function LeasedStep<T(!new)>(s: LeasedState<T>, call: Call<T>, n: nat, limits: Limits, leaseTtl: nat): LeasedState<T> {
    if call.Reserve? then
      var t, estimated, now := call.tenant, call.estimated, call.now;
      var answer := LeasedAnswer(s.state.guard, s.leases, t, estimated, now, n, limits);
      LeasedState(State(LeasedReserved(s.state.guard, s.leases, t, estimated, now, n, limits),
                        if answer.Granted? then s.state.permits[n := answer.permit] else s.state.permits),
                  if answer.Granted? && limits.inFlight > 0 then s.leases[n := now + leaseTtl] else s.leases)
    else s.(state := Step(s.state, call, n, limits))
  }

  ghost function LeasedAfter<T(!new)>(calls: seq<Call<T>>, n: nat, limits: Limits, leaseTtl: nat): LeasedState<T>
    requires n <= |calls|
  {
    if n == 0 then LeasedState(State(Guard(map[], [], map[]), map[]), map[])
    else LeasedStep(LeasedAfter(calls, n - 1, limits, leaseTtl), calls[n - 1], n - 1, limits, leaseTtl)
  }

  ghost function LeasedAnswers<T(!new)>(calls: seq<Call<T>>, n: nat, limits: Limits, leaseTtl: nat): seq<Reservation<T>>
    requires n <= |calls|
  {
    if n == 0 then []
    else
      var call, s := calls[n - 1], LeasedAfter(calls, n - 1, limits, leaseTtl);
      LeasedAnswers(calls, n - 1, limits, leaseTtl)
      + (if call.Reserve?
         then [LeasedAnswer(s.state.guard, s.leases, call.tenant, call.estimated, call.now, n - 1, limits)] else [])
  }

  lemma ChargedTokens<T(!new)>(s: State<T>, t: T, estimated: nat, now: nat, n: nat, limits: Limits, permit: Permit<T>)
    requires TokensAreCalls(s, n) && (permit.token.None? || permit.token == Some(n))
    ensures TokensAreCalls(State(Charged(s.guard, t, estimated, now, n, limits), s.permits[n := permit]), n + 1)
    ensures TokensAreCalls(State(s.guard, s.permits[n := permit]), n + 1) && TokensAreCalls(s, n + 1)
  {
  }

  lemma LeasedTokensStep<T(!new)>(s: LeasedState<T>, call: Call<T>, n: nat, limits: Limits, leaseTtl: nat)
    requires TokensAreCalls(s.state, n)
    ensures TokensAreCalls(LeasedStep(s, call, n, limits, leaseTtl).state, n + 1)
  {
    hide LeasedRefusal, TokensAreCalls, Charged;
    if call.Reserve? {
      ChargedTokens(s.state, call.tenant, call.estimated, call.now, n, limits, Permit(call.tenant, Some(n), limits.inFlight > 0));
      ChargedTokens(s.state, call.tenant, call.estimated, call.now, n, limits, Permit(call.tenant, None, false));
    } else {
      TokensStep(s.state, call, n, limits);
    }
  }

  lemma {:induction false} LeasedTokensStayCalls<T(!new)>(calls: seq<Call<T>>, n: nat, limits: Limits, leaseTtl: nat)
    requires n <= |calls|
    ensures TokensAreCalls(LeasedAfter(calls, n, limits, leaseTtl).state, n)
    ensures PermitsCounted(LeasedAfter(calls, n, limits, leaseTtl).state, limits)
  {
    hide TokensAreCalls, LeasedStep, PermitsCounted;
    if n == 0 {
      NoTokensYet<T>();
      NoPermitsYet<T>(limits);
    } else {
      LeasedTokensStayCalls(calls, n - 1, limits, leaseTtl);
      LeasedTokensStep(LeasedAfter(calls, n - 1, limits, leaseTtl), calls[n - 1], n - 1, limits, leaseTtl);
      LeasedPermitsStep(LeasedAfter(calls, n - 1, limits, leaseTtl), calls[n - 1], n - 1, limits, leaseTtl);
    }
  }

  /** A permit has a token when any check is on, and is counted when the in-flight one is. */
  ghost predicate PermitsCounted<T(!new)>(s: State<T>, limits: Limits) {
    forall k :: k in s.permits ==>
                  s.permits[k].countedInFlight == (limits.inFlight > 0) && (!Off(limits) ==> s.permits[k].token.Some?)
  }

  lemma NoPermitsYet<T(!new)>(limits: Limits)
    ensures PermitsCounted<T>(State(Guard(map[], [], map[]), map[]), limits)
  {
  }

  lemma LeasedPermitsStep<T(!new)>(s: LeasedState<T>, call: Call<T>, n: nat, limits: Limits, leaseTtl: nat)
    requires PermitsCounted(s.state, limits)
    ensures PermitsCounted(LeasedStep(s, call, n, limits, leaseTtl).state, limits)
  {
    hide LeasedRefusal, LeasedReserved;
  }

  lemma LeasedTokenIsUnused<T(!new)>(calls: seq<Call<T>>, n: nat, limits: Limits, leaseTtl: nat)
    requires n <= |calls|
    ensures Unused(LeasedAfter(calls, n, limits, leaseTtl).state.guard, n)
    ensures PermitsCounted(LeasedAfter(calls, n, limits, leaseTtl).state, limits)
  {
    hide LeasedAfter, PermitsCounted;
    LeasedTokensStayCalls(calls, n, limits, leaseTtl);
  }

  /** The Redis guard answers every run as the reference does with permits on lease. */
  method RunRedis<T(==, !new)>(calls: seq<Call<T>>, limits: Limits, leaseTtl: nat) returns (answers: seq<Reservation<T>>)
    requires Orderly(calls)
    ensures answers == LeasedAnswers(calls, |calls|, limits, leaseTtl)
  {
    hide LeasedReserved, LeasedAnswer, Settled, Released, Unused;
    var guard := new Redis.TenantGuard<T>(limits, leaseTtl);
    var permits: map<nat, Permit<T>> := map[];
    answers := [];
    for i := 0 to |calls|
      invariant fresh(guard) && guard.Valid() && guard.limits == limits && guard.leaseTtl == leaseTtl
      invariant forall j :: i <= j < |calls| ==> guard.clock <= calls[j].now
      invariant LeasedState(State(guard.guard, permits), guard.leases) == LeasedAfter(calls, i, limits, leaseTtl)
      invariant answers == LeasedAnswers(calls, i, limits, leaseTtl)
    {
      LeasedTokenIsUnused(calls, i, limits, leaseTtl);
      match calls[i] {
        case Reserve(t, estimated, now) =>
          var answer := guard.Reserve(t, estimated, now, i);
          answers := answers + [answer];
          if answer.Granted? {
            permits := permits[i := answer.permit];
          }
        case Settle(k, actual, now) =>
          if k in permits {
            guard.Settle(permits[k], actual, now);
          }
        case Release(k, now) =>
          if k in permits {
            guard.Release(permits[k], now);
          }
      }
    }
  }

  // How many permits run.

  lemma LiveAfterDrop<T>(permits: map<T, set<Token>>, u: T, token: Token, leases: Leases, t: T, now: nat)
    ensures |LiveHeld(HeldBy(DropPermit(permits, u, token), t), leases, now)| <= |LiveHeld(HeldBy(permits, t), leases, now)|
  {
    hide Running;
    SubsetSize(LiveHeld(HeldBy(DropPermit(permits, u, token), t), leases, now), LiveHeld(HeldBy(permits, t), leases, now));
  }

  lemma LiveOnlyEnds(held: set<Token>, leases: Leases, now: nat, later: nat)
    requires now <= later
    ensures |LiveHeld(held, leases, later)| <= |LiveHeld(held, leases, now)|
  {
    SubsetSize(LiveHeld(held, leases, later), LiveHeld(held, leases, now));
  }

  lemma LiveAfterGrant<T>(permits: map<T, set<Token>>, u: T, token: Token, leases: Leases, end: nat, t: T, now: nat)
    requires forall v :: v in permits ==> token !in permits[v]
    ensures |LiveHeld(HeldBy(HoldPermit(permits, u, token), t), leases[token := end], now)|
            <= |LiveHeld(HeldBy(permits, t), leases, now)| + (if t == u then 1 else 0)
  {
    var before, after := LiveHeld(HeldBy(permits, t), leases, now), LiveHeld(HeldBy(HoldPermit(permits, u, token), t), leases[token := end], now);
    SubsetSize(after, before + (if t == u then {token} else {}));
  }

  /** Also on lease, no tenant ever has more permits running than its in-flight limit. */
  lemma {:induction false} AtMostLimitOnLease<T(!new)>(calls: seq<Call<T>>, n: nat, t: T, now: nat, limits: Limits, leaseTtl: nat)
    requires n <= |calls| && Orderly(calls) && limits.inFlight > 0 && (n > 0 ==> calls[n - 1].now <= now)
    ensures var s := LeasedAfter(calls, n, limits, leaseTtl);
            |LiveHeld(HeldBy(s.state.guard.permits, t), s.leases, now)| <= limits.inFlight
  {
    hide LiveHeld, LeasedAfter, LeasedStep, DropPermit, HoldPermit;
    if n == 0 {
      NobodyHolds(calls, t, now, limits, leaseTtl);
    } else {
      var at := calls[n - 1].now;
      AtMostLimitOnLease(calls, n - 1, t, at, limits, leaseTtl);
      LeasedTokensStayCalls(calls, n - 1, limits, leaseTtl);
      OnLeaseStep(calls, n - 1, t, limits, leaseTtl);
      var s := LeasedAfter(calls, n, limits, leaseTtl);
      LiveOnlyEnds(HeldBy(s.state.guard.permits, t), s.leases, at, now);
    }
  }

  lemma NobodyHolds<T(!new)>(calls: seq<Call<T>>, t: T, now: nat, limits: Limits, leaseTtl: nat)
    ensures var s := LeasedAfter(calls, 0, limits, leaseTtl); |LiveHeld(HeldBy(s.state.guard.permits, t), s.leases, now)| == 0
  {
    assert LiveHeld({}, map[], now) == {};
  }

  lemma OnLeaseStep<T(!new)>(calls: seq<Call<T>>, i: nat, t: T, limits: Limits, leaseTtl: nat)
    requires i < |calls| && limits.inFlight > 0
    requires TokensAreCalls(LeasedAfter(calls, i, limits, leaseTtl).state, i)
    requires var s := LeasedAfter(calls, i, limits, leaseTtl);
             |LiveHeld(HeldBy(s.state.guard.permits, t), s.leases, calls[i].now)| <= limits.inFlight
    ensures var s := LeasedAfter(calls, i + 1, limits, leaseTtl);
            |LiveHeld(HeldBy(s.state.guard.permits, t), s.leases, calls[i].now)| <= limits.inFlight
  {
    hide LiveHeld, LiveRequests, LiveTokens, DropPermit, HoldPermit;
    var s := LeasedAfter(calls, i, limits, leaseTtl);
    match calls[i]
    case Reserve(u, _, now) =>
      LiveAfterGrant(s.state.guard.permits, u, i, s.leases, now + leaseTtl, t, now);
    case Settle(_, _, _) =>
    case Release(k, now) =>
      if k in s.state.permits && s.state.permits[k].token.Some? {
        LiveAfterDrop(s.state.guard.permits, s.state.permits[k].tenant, s.state.permits[k].token.value, s.leases, t, now);
      }
  }

  // When the backends agree.

  /** The lease of every call granted in a run of the plain reference. */
  ghost function RunLeases<T(!new)>(calls: seq<Call<T>>, n: nat, limits: Limits, leaseTtl: nat): Leases
    requires n <= |calls|
  {
    if n == 0 then map[]
    else
      var rest := RunLeases(calls, n - 1, limits, leaseTtl);
      if limits.inFlight > 0 && calls[n - 1].Reserve? && GrantedTo(calls, n - 1, calls[n - 1].tenant, limits)
      then rest[n - 1 := calls[n - 1].now + leaseTtl] else rest
  }

  /** At call i the limit is reached, but by counting calls whose lease has ended. */
  ghost predicate LapsedDecide<T(!new)>(calls: seq<Call<T>>, i: nat, limits: Limits, leaseTtl: nat)
    requires i < |calls|
  {
    calls[i].Reserve? && limits.inFlight > 0
    && var held := HeldBy(After(calls, i, limits).guard.permits, calls[i].tenant);
       |LiveHeld(held, RunLeases(calls, i, limits, leaseTtl), calls[i].now)| < limits.inFlight <= |held|
  }

  ghost predicate SameState<T(!new)>(calls: seq<Call<T>>, n: nat, limits: Limits, leaseTtl: nat)
    requires n <= |calls|
  {
    LeasedAfter(calls, n, limits, leaseTtl) == LeasedState(After(calls, n, limits), RunLeases(calls, n, limits, leaseTtl))
  }

  /** Until the two runs part their answers agree at call i exactly unless lapsed permits
      decide it, and agreeing there they stay together. */
  lemma SameStateStep<T(!new)>(calls: seq<Call<T>>, i: nat, limits: Limits, leaseTtl: nat)
    requires i < |calls| && SameState(calls, i, limits, leaseTtl)
    ensures !LapsedDecide(calls, i, limits, leaseTtl) ==> SameState(calls, i + 1, limits, leaseTtl)
    ensures calls[i].Reserve? ==>
              var s, call := After(calls, i, limits), calls[i];
              LeasedAnswer(s.guard, RunLeases(calls, i, limits, leaseTtl), call.tenant, call.estimated, call.now, i, limits)
              == ReserveAnswer(s.guard, call.tenant, call.estimated, call.now, i, limits)
              <==> !LapsedDecide(calls, i, limits, leaseTtl)
  {
    hide LiveHeld, LiveRequests, LiveTokens, Charged;
    var s, call := After(calls, i, limits), calls[i];
    if call.Reserve? {
      WhenLeasesAgree(s.guard, RunLeases(calls, i, limits, leaseTtl), call.tenant, call.estimated, call.now, i, limits);
    }
  }

  lemma {:induction false} AgreeingRuns<T(!new)>(calls: seq<Call<T>>, n: nat, limits: Limits, leaseTtl: nat)
    requires n <= |calls|
    ensures |LeasedAnswers(calls, n, limits, leaseTtl)| == |Answers(calls, n, limits)|
    ensures LeasedAnswers(calls, n, limits, leaseTtl) == Answers(calls, n, limits)
            <==> forall i :: 0 <= i < n ==> !LapsedDecide(calls, i, limits, leaseTtl)
    ensures (forall i :: 0 <= i < n ==> !LapsedDecide(calls, i, limits, leaseTtl)) ==> SameState(calls, n, limits, leaseTtl)
  {
    hide LapsedDecide, LeasedAnswer, ReserveAnswer, LeasedStep, Step, LeasedAfter, After, RunLeases;
    if n == 0 {
      SameAtFirst(calls, limits, leaseTtl);
    } else {
      AgreeingRuns(calls, n - 1, limits, leaseTtl);
      assert Answers(calls, n, limits)[..|Answers(calls, n - 1, limits)|] == Answers(calls, n - 1, limits);
      assert LeasedAnswers(calls, n, limits, leaseTtl)[..|Answers(calls, n - 1, limits)|] == LeasedAnswers(calls, n - 1, limits, leaseTtl);
      if forall i :: 0 <= i < n - 1 ==> !LapsedDecide(calls, i, limits, leaseTtl) {
        SameStateStep(calls, n - 1, limits, leaseTtl);
        if !calls[n - 1].Reserve? {
          OnlyReservesDecide(calls, n - 1, limits, leaseTtl);
        }
      }
    }
  }

  lemma SameAtFirst<T(!new)>(calls: seq<Call<T>>, limits: Limits, leaseTtl: nat)
    ensures SameState(calls, 0, limits, leaseTtl)
  {
  }

  lemma OnlyReservesDecide<T(!new)>(calls: seq<Call<T>>, i: nat, limits: Limits, leaseTtl: nat)
    requires i < |calls| && !calls[i].Reserve?
    ensures !LapsedDecide(calls, i, limits, leaseTtl)
  {
  }

  lemma OnePermitHeld<T(!new)>(calls: seq<Call<T>>, t: T, leaseTtl: nat)
    requires |calls| == 2 && calls[0] == Reserve(t, 0, 0)
    ensures var limits := Limits(1, 0, 0);
            var zero: set<Token> := {0};
            HeldBy(After(calls, 1, limits).guard.permits, t) == zero
            && RunLeases(calls, 1, limits, leaseTtl).Keys == zero && RunLeases(calls, 1, limits, leaseTtl)[0] == leaseTtl
            && Answers(calls, 1, limits) == [Granted(Permit(t, Some(0), true))]
  {
    hide LiveRequests, LiveTokens;
    var limits := Limits(1, 0, 0);
    var s0 := After(calls, 0, limits);
    assert Refusal(s0.guard, t, 0, 0, limits) == None;
    var none: set<Token> := {};
    var zero: set<Token> := {0};
    assert none + {0} == zero;
    assert After(calls, 1, limits) == Step(s0, calls[0], 0, limits);
    assert RunLeases(calls, 0, limits, leaseTtl) == map[] && GrantedTo(calls, 0, t, limits);
    assert Answers(calls, 0, limits) == [];
  }

  /** Lapsed leases do decide: with one permit at a time, the next request at the moment
      the lease of the first ends. */
  lemma LapsedDecideIsReached<T(!new)>(t: T, leaseTtl: nat)
    requires leaseTtl > 0
    ensures var limits := Limits(1, 0, 0);
            var calls := [Reserve(t, 0, 0), Reserve(t, 0, leaseTtl)];
            LapsedDecide(calls, 1, limits, leaseTtl)
            && Answers(calls, 2, limits) == [Granted(Permit(t, Some(0), true)), Rejected(InFlight)]
            && LeasedAnswers(calls, 2, limits, leaseTtl) != Answers(calls, 2, limits)
  {
    hide LiveRequests, LiveTokens, After, RunLeases, LeasedAnswers, LeasedAnswer;
    var limits, calls := Limits(1, 0, 0), [Reserve(t, 0, 0), Reserve(t, 0, leaseTtl)];
    OnePermitHeld(calls, t, leaseTtl);
    var zero: set<Token> := {0};
    assert LiveHeld(zero, RunLeases(calls, 1, limits, leaseTtl), leaseTtl) == {};
    assert LapsedDecide(calls, 1, limits, leaseTtl);
    AgreeingRuns(calls, 2, limits, leaseTtl);
  }

  /** Every call that still holds a permit when its tenant asks for another is within its lease. */
  ghost predicate InTime<T(!new)>(calls: seq<Call<T>>, limits: Limits, leaseTtl: nat) {
    forall i, k :: 0 <= k < i < |calls| && calls[i].Reserve? && Outstanding(calls, k, i, calls[i].tenant, limits) ==>
                     calls[i].now < calls[k].now + leaseTtl
  }

  lemma {:induction false} LeaseOfGrant<T(!new)>(calls: seq<Call<T>>, k: nat, n: nat, t: T, limits: Limits, leaseTtl: nat)
    requires k < n <= |calls| && limits.inFlight > 0 && GrantedTo(calls, k, t, limits)
    ensures k in RunLeases(calls, n, limits, leaseTtl) && RunLeases(calls, n, limits, leaseTtl)[k] == calls[k].now + leaseTtl
    decreases n
  {
    hide After, Refusal;
    if k < n - 1 {
      LeaseOfGrant(calls, k, n - 1, t, limits, leaseTtl);
    }
  }

  lemma InTimeDecidesAlike<T(!new)>(calls: seq<Call<T>>, i: nat, limits: Limits, leaseTtl: nat)
    requires i < |calls| && InTime(calls, limits, leaseTtl)
    ensures !LapsedDecide(calls, i, limits, leaseTtl)
  {
    hide After, Outstanding, RunLeases, GrantedTo;
    if calls[i].Reserve? && limits.inFlight > 0 {
      var t := calls[i].tenant;
      var held, leases := HeldBy(After(calls, i, limits).guard.permits, t), RunLeases(calls, i, limits, leaseTtl);
      forall k | k in held
        ensures Running(leases, k, calls[i].now)
      {
        HeldIsOutstanding(calls, i, t, k, limits);
        OutstandingIsGranted(calls, k, i, t, limits);
        LeaseOfGrant(calls, k, i, t, limits, leaseTtl);
      }
      WhenCountsAgree(held, leases, calls[i].now);
    }
  }

  lemma OutstandingIsGranted<T(!new)>(calls: seq<Call<T>>, k: nat, n: nat, t: T, limits: Limits)
    requires n <= |calls| && Outstanding(calls, k, n, t, limits)
    ensures k < n && GrantedTo(calls, k, t, limits)
  {
  }

  /** The two backends give the same verdicts for the same reasons on a run exactly when
      no verdict rests on lapsed leases. So they do on every run without an in-flight
      limit, and on every run that gives its permits back in time. */
  method BackendsAgree<T(==, !new)>(calls: seq<Call<T>>, limits: Limits, leaseTtl: nat)
    returns (memory: seq<Reservation<T>>, redis: seq<Reservation<T>>)
    requires Orderly(calls)
    ensures memory == Answers(calls, |calls|, limits) && |redis| == |memory|
    ensures memory == redis <==> forall i :: 0 <= i < |calls| ==> !LapsedDecide(calls, i, limits, leaseTtl)
    ensures limits.inFlight == 0 || InTime(calls, limits, leaseTtl) ==> memory == redis
  {
    hide LapsedDecide, InTime, Answers, LeasedAnswers;
    memory := RunMemory(calls, limits);
    redis := RunRedis(calls, limits, leaseTtl);
    AgreeingRuns(calls, |calls|, limits, leaseTtl);
    forall i | 0 <= i < |calls| && (limits.inFlight == 0 || InTime(calls, limits, leaseTtl))
      ensures !LapsedDecide(calls, i, limits, leaseTtl)
    {
      if limits.inFlight == 0 {
        NoLimitNoLapse(calls, i, limits, leaseTtl);
      } else {
        InTimeDecidesAlike(calls, i, limits, leaseTtl);
      }
    }
  }

  lemma NoLimitNoLapse<T(!new)>(calls: seq<Call<T>>, i: nat, limits: Limits, leaseTtl: nat)
    requires i < |calls| && limits.inFlight == 0
    ensures !LapsedDecide(calls, i, limits, leaseTtl)
  {
  }
}

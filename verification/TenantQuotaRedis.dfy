/** The Redis tenant guard: per-tenant sorted sets that each script prunes lazily. */
module TenantQuotaRedis {
  import opened Results
  import opened Sums
  import opened TenantQuota
  import opened TenantLeases

  /** The three keys of a tenant's token window, as a script reads them. */
  datatype TokenKeys = TokenKeys(events: map<Token, nat>, amounts: map<Token, nat>, total: int)

  /** ZREMRANGEBYSCORE up to the start of the window. */
  function InWindow(scores: map<Token, nat>, now: nat): map<Token, nat> {
    map k | k in scores && scores[k] + REQUEST_WINDOW_MS > now :: scores[k]
  }

  // The request set.

  ghost predicate UniqueTokens<T>(grants: seq<Grant<T>>) {
    forall i, j :: 0 <= i < j < |grants| ==> grants[i].token != grants[j].token
  }

  /** The set holds the tenant's grants, at least those still in the window. */
  ghost predicate RequestSetOk<T(!new)>(scores: map<Token, nat>, grants: seq<Grant<T>>, t: T, clock: nat) {
    (forall g :: g in grants && g.tenant == t && g.at + REQUEST_WINDOW_MS > clock ==> g.token in scores)
    && (forall k :: k in scores ==> Grant(scores[k], t, k) in grants)
  }

  ghost function LiveGrants<T>(grants: seq<Grant<T>>, t: T, now: nat): set<Token> {
    set g | g in grants && g.tenant == t && g.at + REQUEST_WINDOW_MS > now :: g.token
  }

  lemma LiveGrantsPush<T(!new)>(front: seq<Grant<T>>, last: Grant<T>, t: T, now: nat)
    ensures LiveGrants(front + [last], t, now)
            == LiveGrants(front, t, now) + (if last.tenant == t && last.at + REQUEST_WINDOW_MS > now then {last.token} else {})
  {
    var grants := front + [last];
    assert forall g :: g in grants <==> g in front || g == last;
  }

  lemma LastIsNew<T(!new)>(front: seq<Grant<T>>, last: Grant<T>, t: T, now: nat)
    requires UniqueTokens(front + [last])
    ensures UniqueTokens(front) && last.token !in LiveGrants(front, t, now)
  {
    var grants := front + [last];
    assert forall i :: 0 <= i < |front| ==> grants[i] == front[i];
    assert grants[|front|] == last;
  }

  lemma {:induction false} LiveGrantsCounted<T(!new)>(grants: seq<Grant<T>>, t: T, now: nat)
    requires UniqueTokens(grants)
    ensures |LiveGrants(grants, t, now)| == LiveRequests(grants, t, now)
  {
    hide UniqueTokens;
    if grants == [] {
      assert LiveGrants(grants, t, now) == {};
    } else {
      hide LiveGrants;
      var front, last := grants[..|grants| - 1], grants[|grants| - 1];
      assert grants == front + [last];
      LastIsNew(front, last, t, now);
      LiveGrantsCounted(front, t, now);
      LiveGrantsPush(front, last, t, now);
    }
  }

  lemma SameToken<T>(grants: seq<Grant<T>>, g: Grant<T>, h: Grant<T>)
    requires UniqueTokens(grants) && g in grants && h in grants && g.token == h.token
    ensures g == h
  {
  }

  lemma PrunedRequestSet<T(!new)>(scores: map<Token, nat>, grants: seq<Grant<T>>, t: T, now: nat)
    requires UniqueTokens(grants) && RequestSetOk(scores, grants, t, now)
    ensures RequestSetOk(InWindow(scores, now), grants, t, now)
    ensures |InWindow(scores, now)| == LiveRequests(grants, t, now)
  {
    LiveGrantsCounted(grants, t, now);
    forall g | g in grants && g.tenant == t && g.at + REQUEST_WINDOW_MS > now
      ensures g.token in InWindow(scores, now)
    {
      SameToken(grants, g, Grant(scores[g.token], t, g.token));
    }
    assert InWindow(scores, now).Keys == LiveGrants(grants, t, now) by {
      forall k | k in InWindow(scores, now)
        ensures k in LiveGrants(grants, t, now)
      {
        assert Grant(scores[k], t, k) in grants;
      }
    }
  }

  // The token keys.

  /** The keys agree with each other and hold the tenant's charges, at least the live ones. */
  ghost predicate TokenKeysOk<T(!new)>(s: TokenKeys, charges: map<Key<T>, Entry>, t: T, clock: nat) {
    s.events.Keys == s.amounts.Keys && s.total == Sum(s.amounts)
    && (forall k :: k in s.events ==>
          Key(t, k) in charges && charges[Key(t, k)] == Entry(s.events[k] + REQUEST_WINDOW_MS, s.amounts[k]))
    && (forall k :: Key(t, k) in charges && charges[Key(t, k)].expires > clock ==> k in s.events)
  }

  lemma PrunedTotalIsLive<T(!new)>(s: TokenKeys, charges: map<Key<T>, Entry>, t: T, now: nat)
    requires TokenKeysOk(s, charges, t, now) && forall k :: k in s.events ==> s.events[k] + REQUEST_WINDOW_MS > now
    ensures s.total == LiveTokens(charges, t, now)
  {
    var live := LiveAmounts(charges, t, now);
    var f := map k | k in s.amounts :: Key(t, k);
    assert f.Keys == s.amounts.Keys;
    forall k | k in live
      ensures k in f.Values
    {
      assert k == Key(t, k.token) && k.token in s.events;
      assert f[k.token] == k;
    }
    assert f.Values == live.Keys;
    SumRenamed(s.amounts, live, f);
  }

  /** Forgetting one lapsed member: DECRBY when the amount is positive, then HDEL. */
  function Forget(s: TokenKeys, k: Token): TokenKeys {
    var amount := if k in s.amounts then s.amounts[k] else 0;
    s.(amounts := s.amounts - {k}, total := if amount > 0 then s.total - amount else s.total)
  }

  /** While the lapsed members are forgotten the sorted set still lists all of them. */
  ghost predicate Forgetting<T(!new)>(s: TokenKeys, left: set<Token>, charges: map<Key<T>, Entry>, t: T, now: nat) {
    var lapsed := s.events.Keys - InWindow(s.events, now).Keys;
    left <= lapsed && s.amounts.Keys == InWindow(s.events, now).Keys + left && s.total == Sum(s.amounts)
    && (forall k :: k in s.amounts ==>
          Key(t, k) in charges && charges[Key(t, k)] == Entry(s.events[k] + REQUEST_WINDOW_MS, s.amounts[k]))
    && (forall k :: Key(t, k) in charges && charges[Key(t, k)].expires > now ==> k in InWindow(s.events, now))
  }

  lemma ForgettingStarts<T(!new)>(s: TokenKeys, charges: map<Key<T>, Entry>, t: T, now: nat)
    requires TokenKeysOk(s, charges, t, now)
    ensures Forgetting(s, s.events.Keys - InWindow(s.events, now).Keys, charges, t, now)
  {
  }

  lemma ForgettingGoesOn<T(!new)>(s: TokenKeys, left: set<Token>, k: Token, charges: map<Key<T>, Entry>, t: T, now: nat)
    requires Forgetting(s, left, charges, t, now) && k in left
    ensures Forgetting(Forget(s, k), left - {k}, charges, t, now)
  {
    SumRemove(s.amounts, k);
  }

  lemma ForgettingEnds<T(!new)>(s: TokenKeys, charges: map<Key<T>, Entry>, t: T, now: nat)
    requires Forgetting(s, {}, charges, t, now)
    ensures TokenKeysOk(TokenKeys(InWindow(s.events, now), s.amounts, s.total), charges, t, now)
  {
    var kept := InWindow(s.events, now);
    assert kept.Keys == s.amounts.Keys;
    forall k | k in kept
      ensures Key(t, k) in charges && charges[Key(t, k)] == Entry(kept[k] + REQUEST_WINDOW_MS, s.amounts[k])
    {
      assert k in s.amounts;
    }
    forall k | Key(t, k) in charges && charges[Key(t, k)].expires > now
      ensures k in kept
    {
      assert k in InWindow(s.events, now);
    }
  }

  /** A charge written with a score and the total moved by the difference. */
  function Write(s: TokenKeys, k: Token, score: nat, amount: nat): TokenKeys {
    TokenKeys(s.events[k := score], s.amounts[k := amount],
              s.total - (if k in s.amounts then s.amounts[k] else 0) + amount)
  }

  lemma WriteKeepsKeys<T(!new)>(s: TokenKeys, charges: map<Key<T>, Entry>, t: T, k: Token, score: nat, amount: nat, now: nat)
    requires TokenKeysOk(s, charges, t, now)
    ensures TokenKeysOk(Write(s, k, score, amount), charges[Key(t, k) := Entry(score + REQUEST_WINDOW_MS, amount)], t, now)
  {
    SumSet(s.amounts, k, amount);
  }

  lemma OtherTenantKeepsKeys<T(!new)>(s: TokenKeys, charges: map<Key<T>, Entry>, t: T, k: Key<T>, e: Entry, now: nat)
    requires TokenKeysOk(s, charges, t, now) && k.tenant != t
    ensures TokenKeysOk(s, charges[k := e], t, now)
  {
  }

  // Reading at a later time, when keys may have been dropped.

  ghost predicate Timely(scores: map<Token, nat>, deadline: nat, clock: nat) {
    forall k :: k in scores ==> scores[k] <= clock && scores[k] + 2 * REQUEST_WINDOW_MS <= deadline
  }

  lemma DroppedRequestsAreLapsed<T(!new)>(stored: Stored<map<Token, nat>>, grants: seq<Grant<T>>, t: T, clock: nat, now: nat)
    requires UniqueTokens(grants) && RequestSetOk(stored.value, grants, t, clock) && clock <= now
    requires Timely(stored.value, stored.deadline, clock)
    ensures RequestSetOk(if now <= stored.deadline then stored.value else map[], grants, t, now)
  {
    if now > stored.deadline {
      forall g | g in grants && g.tenant == t && g.at + REQUEST_WINDOW_MS > now
        ensures false
      {
        SameToken(grants, g, Grant(stored.value[g.token], t, g.token));
      }
    }
  }

  lemma DroppedTokensAreLapsed<T(!new)>(s: TokenKeys, deadline: nat, charges: map<Key<T>, Entry>, t: T, clock: nat, now: nat)
    requires TokenKeysOk(s, charges, t, clock) && clock <= now && Timely(s.events, deadline, clock)
    ensures TokenKeysOk(if now <= deadline then s else TokenKeys(map[], map[], 0), charges, t, now)
  {
  }

  // The stores of all tenants.

  const NoTokens := TokenKeys(map[], map[], 0)

  ghost predicate RequestSlotOk<T(!new)>(requests: map<T, Stored<map<Token, nat>>>, grants: seq<Grant<T>>, t: T, clock: nat) {
    RequestSetOk(Read(requests, t, clock, map[]), grants, t, clock)
    && (t in requests ==> Timely(requests[t].value, requests[t].deadline, clock))
  }

  ghost predicate RequestStoreOk<T(!new)>(requests: map<T, Stored<map<Token, nat>>>, grants: seq<Grant<T>>, clock: nat) {
    UniqueTokens(grants) && forall t :: RequestSlotOk(requests, grants, t, clock)
  }

  ghost predicate TokenSlotOk<T(!new)>(tokens: map<T, Stored<TokenKeys>>, charges: map<Key<T>, Entry>, t: T, clock: nat) {
    TokenKeysOk(Read(tokens, t, clock, NoTokens), charges, t, clock)
    && (t in tokens ==> Timely(tokens[t].value.events, tokens[t].deadline, clock))
  }

  ghost predicate TokenStoreOk<T(!new)>(tokens: map<T, Stored<TokenKeys>>, charges: map<Key<T>, Entry>, clock: nat) {
    forall t :: TokenSlotOk(tokens, charges, t, clock)
  }

  lemma LaterRequests<T(!new)>(requests: map<T, Stored<map<Token, nat>>>, grants: seq<Grant<T>>, clock: nat, now: nat)
    requires RequestStoreOk(requests, grants, clock) && clock <= now
    ensures RequestStoreOk(requests, grants, now)
  {
    hide RequestSetOk, UniqueTokens, Timely;
    forall t
      ensures RequestSlotOk(requests, grants, t, now)
    {
      assert RequestSlotOk(requests, grants, t, clock);
      if t in requests {
        LaterIsTimely(requests[t].value, requests[t].deadline, clock, now);
      }
      if t in requests && clock <= requests[t].deadline {
        DroppedRequestsAreLapsed(requests[t], grants, t, clock, now);
      } else {
        EmptyStaysOk(grants, t, clock, now);
      }
    }
  }

  lemma EmptyStaysOk<T(!new)>(grants: seq<Grant<T>>, t: T, clock: nat, now: nat)
    requires RequestSetOk(map[], grants, t, clock) && clock <= now
    ensures RequestSetOk(map[], grants, t, now)
  {
  }

  lemma LaterTokens<T(!new)>(tokens: map<T, Stored<TokenKeys>>, charges: map<Key<T>, Entry>, clock: nat, now: nat)
    requires TokenStoreOk(tokens, charges, clock) && clock <= now
    ensures TokenStoreOk(tokens, charges, now)
  {
    hide TokenKeysOk, Timely;
    forall t
      ensures TokenSlotOk(tokens, charges, t, now)
    {
      assert TokenSlotOk(tokens, charges, t, clock);
      if t in tokens {
        LaterIsTimely(tokens[t].value.events, tokens[t].deadline, clock, now);
      }
      if t in tokens && clock <= tokens[t].deadline {
        DroppedTokensAreLapsed(tokens[t].value, tokens[t].deadline, charges, t, clock, now);
      } else {
        NoTokensStayOk(charges, t, clock, now);
      }
    }
  }

  lemma NoTokensStayOk<T(!new)>(charges: map<Key<T>, Entry>, t: T, clock: nat, now: nat)
    requires TokenKeysOk(NoTokens, charges, t, clock) && clock <= now
    ensures TokenKeysOk(NoTokens, charges, t, now)
  {
  }

  lemma ReplaceRequests<T(!new)>(requests: map<T, Stored<map<Token, nat>>>, grants: seq<Grant<T>>, t: T,
                                 stored: Stored<map<Token, nat>>, now: nat)
    requires RequestStoreOk(requests, grants, now) && now <= stored.deadline
    requires RequestSetOk(stored.value, grants, t, now) && Timely(stored.value, stored.deadline, now)
    ensures RequestStoreOk(requests[t := stored], grants, now)
  {
    hide RequestSetOk, UniqueTokens, Timely;
    var after := requests[t := stored];
    forall u
      ensures RequestSlotOk(after, grants, u, now)
    {
      assert RequestSlotOk(requests, grants, u, now);
    }
  }

  lemma ReplaceTokens<T(!new)>(tokens: map<T, Stored<TokenKeys>>, charges: map<Key<T>, Entry>, t: T,
                               stored: Stored<TokenKeys>, now: nat)
    requires TokenStoreOk(tokens, charges, now) && now <= stored.deadline
    requires TokenKeysOk(stored.value, charges, t, now) && Timely(stored.value.events, stored.deadline, now)
    ensures TokenStoreOk(tokens[t := stored], charges, now)
  {
    hide TokenKeysOk, Timely;
    var after := tokens[t := stored];
    forall u
      ensures TokenSlotOk(after, charges, u, now)
    {
      assert TokenSlotOk(tokens, charges, u, now);
    }
  }

  /** ZADD of a new grant. */
  lemma AddGrant<T(!new)>(requests: map<T, Stored<map<Token, nat>>>, grants: seq<Grant<T>>, t: T, token: Token, now: nat)
    requires RequestStoreOk(requests, grants, now) && forall i :: 0 <= i < |grants| ==> grants[i].token != token
    ensures var scores := Read(requests, t, now, map[])[token := now];
            RequestStoreOk(requests[t := Stored(scores, now + 2 * REQUEST_WINDOW_MS)], grants + [Grant(now, t, token)], now)
  {
    hide RequestSetOk, UniqueTokens, Timely;
    var more := grants + [Grant(now, t, token)];
    var stored := Stored(Read(requests, t, now, map[])[token := now], now + 2 * REQUEST_WINDOW_MS);
    StillUnique(grants, Grant(now, t, token));
    var after := requests[t := stored];
    forall u
      ensures RequestSlotOk(after, more, u, now)
    {
      assert RequestSlotOk(requests, grants, u, now);
      if u == t {
        assert RequestSlotOk(requests, grants, t, now);
        AddScore(Read(requests, t, now, map[]), grants, t, token, now);
        ReadIsTimely(requests, t, now, token);
      } else {
        OtherGrant(Read(requests, u, now, map[]), grants, u, Grant(now, t, token), now);
      }
    }
  }

  lemma StillUnique<T>(grants: seq<Grant<T>>, g: Grant<T>)
    requires UniqueTokens(grants) && forall i :: 0 <= i < |grants| ==> grants[i].token != g.token
    ensures UniqueTokens(grants + [g])
  {
  }

  lemma AddScore<T(!new)>(scores: map<Token, nat>, grants: seq<Grant<T>>, t: T, token: Token, now: nat)
    requires RequestSetOk(scores, grants, t, now)
    ensures RequestSetOk(scores[token := now], grants + [Grant(now, t, token)], t, now)
  {
    assert forall g :: g in grants + [Grant(now, t, token)] <==> g in grants || g == Grant(now, t, token);
  }

  lemma OtherGrant<T(!new)>(scores: map<Token, nat>, grants: seq<Grant<T>>, u: T, g: Grant<T>, now: nat)
    requires RequestSetOk(scores, grants, u, now) && g.tenant != u
    ensures RequestSetOk(scores, grants + [g], u, now)
  {
    assert forall h :: h in grants + [g] <==> h in grants || h == g;
  }

  lemma ReadIsTimely<T(!new)>(requests: map<T, Stored<map<Token, nat>>>, t: T, now: nat, token: Token)
    requires t in requests ==> Timely(requests[t].value, requests[t].deadline, now)
    ensures Timely(Read(requests, t, now, map[])[token := now], now + 2 * REQUEST_WINDOW_MS, now)
  {
  }

  lemma LaterIsTimely(scores: map<Token, nat>, deadline: nat, clock: nat, now: nat)
    requires Timely(scores, deadline, clock) && clock <= now
    ensures Timely(scores, deadline, now)
  {
  }

  /** The token keys of one tenant rewritten, charging key k when the charges change. */
  lemma RechargeTokens<T(!new)>(tokens: map<T, Stored<TokenKeys>>, charges: map<Key<T>, Entry>, t: T, k: Token, score: nat,
                                amount: nat, now: nat)
    requires TokenStoreOk(tokens, charges, now) && score <= now
    ensures var stored := Stored(Write(Read(tokens, t, now, NoTokens), k, score, amount), now + 2 * REQUEST_WINDOW_MS);
            TokenStoreOk(tokens[t := stored], charges[Key(t, k) := Entry(score + REQUEST_WINDOW_MS, amount)], now)
  {
    hide TokenKeysOk, Timely, Write;
    var keys := Read(tokens, t, now, NoTokens);
    var after := tokens[t := Stored(Write(keys, k, score, amount), now + 2 * REQUEST_WINDOW_MS)];
    var e := Entry(score + REQUEST_WINDOW_MS, amount);
    var recharged := charges[Key(t, k) := e];
    forall u
      ensures TokenSlotOk(after, recharged, u, now)
    {
      assert TokenSlotOk(tokens, charges, u, now);
      if u == t {
        WriteKeepsKeys(keys, charges, t, k, score, amount, now);
        WriteIsTimely(tokens, t, k, score, amount, now);
      } else {
        OtherTenantKeepsKeys(Read(tokens, u, now, NoTokens), charges, u, Key(t, k), e, now);
      }
    }
  }

  lemma WriteIsTimely<T(!new)>(tokens: map<T, Stored<TokenKeys>>, t: T, k: Token, score: nat, amount: nat, now: nat)
    requires (t in tokens ==> Timely(tokens[t].value.events, tokens[t].deadline, now)) && score <= now
    ensures Timely(Write(Read(tokens, t, now, NoTokens), k, score, amount).events, now + 2 * REQUEST_WINDOW_MS, now)
  {
  }

  lemma InWindowIsTimely(scores: map<Token, nat>, deadline: nat, now: nat)
    requires Timely(scores, deadline, now)
    ensures Timely(InWindow(scores, now), deadline, now)
  {
  }

  class TenantGuard<T(==, !new)> {
    var permits: LeaseStore<T>
    var requests: map<T, Stored<map<Token, nat>>>
    var tokens: map<T, Stored<TokenKeys>>
    const limits: Limits
    const leaseTtl: nat
    ghost var guard: Guard<T>
    ghost var leases: Leases
    ghost var clock: nat

    ghost predicate Valid()
      reads this
    {
      LeaseStoreOk(permits, guard.permits, leases, clock, leaseTtl)
      && RequestStoreOk(requests, guard.grants, clock) && TokenStoreOk(tokens, guard.charges, clock)
    }

    constructor (limits: Limits, leaseTtl: nat)
      ensures Valid() && guard == Guard(map[], [], map[]) && leases == map[] && clock == 0
      ensures this.limits == limits && this.leaseTtl == leaseTtl
    {
      this.limits, this.leaseTtl := limits, leaseTtl;
      permits, requests, tokens := map[], map[], map[];
      guard, leases, clock := Guard(map[], [], map[]), map[], 0;
    }

    /** ZREMRANGEBYSCORE and ZCARD on the in-flight set. */
    method PrunePermits(t: T, now: nat) returns (count: nat)
      requires Valid() && clock == now
      modifies `permits
      ensures Valid() && count == |LiveHeld(HeldBy(guard.permits, t), leases, now)|
    {
      hide RequestStoreOk, TokenStoreOk, LeaseSetOk, LeasesTimely, Unlapsed, LiveHeld;
      assert LeaseSlotOk(permits, guard.permits, leases, t, now, leaseTtl);
      var scores := Read(permits, t, now, map[]);
      PrunedLeaseSet(scores, HeldBy(guard.permits, t), leases, now);
      var kept := Unlapsed(scores, now);
      if t in permits && now <= permits[t].deadline {
        UnlapsedIsTimely(scores, permits[t].deadline, now, leaseTtl);
        ReplaceLeases(permits, guard.permits, leases, t, Stored(kept, permits[t].deadline), now, leaseTtl);
        permits := permits[t := Stored(kept, permits[t].deadline)];
      }
      count := |kept|;
    }

    /** ZREMRANGEBYSCORE and ZCARD on the request set. */
    method PruneRequests(t: T, now: nat) returns (count: nat)
      requires Valid() && clock == now
      modifies `requests
      ensures Valid() && count == LiveRequests(guard.grants, t, now)
    {
      hide LeaseStoreOk, RequestSetOk, TokenStoreOk, UniqueTokens, Timely, InWindow;
      assert RequestSlotOk(requests, guard.grants, t, now);
      var scores := Read(requests, t, now, map[]);
      PrunedRequestSet(scores, guard.grants, t, now);
      var kept := InWindow(scores, now);
      if t in requests && now <= requests[t].deadline {
        InWindowIsTimely(scores, requests[t].deadline, now);
        ReplaceRequests(requests, guard.grants, t, Stored(kept, requests[t].deadline), now);
        requests := requests[t := Stored(kept, requests[t].deadline)];
      }
      count := |kept|;
    }

    /** The lapsed members' amounts are subtracted, then the members dropped. */
    method PruneTokens(t: T, now: nat) returns (current: int)
      requires Valid() && clock == now
      modifies `tokens
      ensures Valid() && current == LiveTokens(guard.charges, t, now)
    {
      hide LeaseStoreOk, RequestStoreOk, TokenKeysOk, Timely, LiveTokens, InWindow;
      assert TokenSlotOk(tokens, guard.charges, t, now);
      var before := Read(tokens, t, now, NoTokens);
      var keys := ForgetLapsed(before, t, now);
      AllInWindow(before.events, now);
      PrunedTotalIsLive(keys, guard.charges, t, now);
      if t in tokens && now <= tokens[t].deadline {
        InWindowIsTimely(before.events, tokens[t].deadline, now);
        ReplaceTokens(tokens, guard.charges, t, Stored(keys, tokens[t].deadline), now);
        tokens := tokens[t := Stored(keys, tokens[t].deadline)];
      }
      current := keys.total;
    }

    method ForgetLapsed(s: TokenKeys, t: T, now: nat) returns (r: TokenKeys)
      requires TokenKeysOk(s, guard.charges, t, now)
      ensures TokenKeysOk(r, guard.charges, t, now) && r.events == InWindow(s.events, now)
    {
      hide TokenKeysOk, Forgetting, InWindow;
      ForgettingStarts(s, guard.charges, t, now);
      var expired := s.events.Keys - InWindow(s.events, now).Keys;
      r := s;
      while expired != {}
        invariant r.events == s.events && Forgetting(r, expired, guard.charges, t, now)
        decreases |expired|
      {
        var member :| member in expired;
        ForgettingGoesOn(r, expired, member, guard.charges, t, now);
        r := Forget(r, member);
        expired := expired - {member};
      }
      ForgettingEnds(r, guard.charges, t, now);
      r := TokenKeys(InWindow(s.events, now), r.amounts, r.total);
    }

    /** RESERVE_PERMIT. */
    method Reserve(t: T, estimated: nat, now: nat, token: Token) returns (r: Reservation<T>)
      requires Valid() && clock <= now && Unused(guard, token)
      modifies this
      ensures Valid() && old(clock) <= clock <= now
      ensures r == LeasedAnswer(old(guard), old(leases), t, estimated, now, token, limits)
      ensures guard == LeasedReserved(old(guard), old(leases), t, estimated, now, token, limits)
      ensures leases == if r.Granted? && limits.inFlight > 0 then old(leases)[token := now + leaseTtl] else old(leases)
    {
      hide LeaseStoreOk, RequestStoreOk, TokenStoreOk, LiveHeld, LiveRequests, LiveTokens;
      if Off(limits) {
        return Granted(Permit(t, None, false));
      }
      Later(now);
      var held := PrunePermits(t, now);
      var requestCount := PruneRequests(t, now);
      var current := PruneTokens(t, now);
      if limits.inFlight > 0 && held >= limits.inFlight {
        return Rejected(InFlight);
      }
      if limits.requests > 0 && requestCount >= limits.requests {
        return Rejected(RequestsPerMinute);
      }
      if limits.tokens > 0 && current + estimated > limits.tokens {
        return Rejected(TokensPerMinute);
      }
      Record(t, estimated, now, token);
      r := Granted(Permit(t, Some(token), limits.inFlight > 0));
    }

    /** Keys may have been dropped since the script before. */
    ghost method Later(now: nat)
      requires Valid() && clock <= now
      modifies `clock
      ensures Valid() && clock == now
    {
      hide LeaseStoreOk, RequestStoreOk, TokenStoreOk;
      LaterLeases(permits, guard.permits, leases, clock, now, leaseTtl);
      LaterRequests(requests, guard.grants, clock, now);
      LaterTokens(tokens, guard.charges, clock, now);
      clock := now;
    }

    /** What a grant writes: the permit, the request and the charge. */
    method Record(t: T, estimated: nat, now: nat, token: Token)
      requires Valid() && clock == now && Unused(guard, token)
      modifies `permits, `requests, `tokens, `guard, `leases
      ensures Valid() && guard == Charged(old(guard), t, estimated, now, token, limits)
      ensures leases == if limits.inFlight > 0 then old(leases)[token := now + leaseTtl] else old(leases)
    {
      hide LeaseStoreOk, RequestStoreOk, TokenStoreOk, HoldPermit;
      if limits.inFlight > 0 {
        AddLease(permits, guard.permits, leases, t, token, now, leaseTtl);
        permits := permits[t := Stored(Read(permits, t, now, map[])[token := now + leaseTtl], now + 2 * leaseTtl)];
        leases := leases[token := now + leaseTtl];
        guard := guard.(permits := HoldPermit(guard.permits, t, token));
      }
      if limits.requests > 0 {
        AddGrant(requests, guard.grants, t, token, now);
        requests := requests[t := Stored(Read(requests, t, now, map[])[token := now], now + 2 * REQUEST_WINDOW_MS)];
        guard := guard.(grants := guard.grants + [Grant(now, t, token)]);
      }
      if limits.tokens > 0 {
        RecordTokens(t, estimated, now, token);
      }
    }

    method RecordTokens(t: T, estimated: nat, now: nat, token: Token)
      requires Valid() && clock == now && Key(t, token) !in guard.charges
      modifies `tokens, `guard
      ensures Valid()
      ensures guard == old(guard).(charges := old(guard).charges[Key(t, token) := Entry(now + REQUEST_WINDOW_MS, estimated)])
    {
      hide LeaseStoreOk, RequestStoreOk, TokenStoreOk;
      RechargeTokens(tokens, guard.charges, t, token, now, estimated, now);
      var s := Read(tokens, t, now, NoTokens);
      SlotOfStore(tokens, guard.charges, t, now);
      s := s.(events := s.events[token := now]);
      s := s.(amounts := s.amounts[token := estimated]);
      s := s.(total := s.total + estimated);
      tokens := tokens[t := Stored(s, now + 2 * REQUEST_WINDOW_MS)];
      guard := guard.(charges := guard.charges[Key(t, token) := Entry(now + REQUEST_WINDOW_MS, estimated)]);
    }

    /** ZREM from the in-flight set. */
    method Release(permit: Permit<T>, now: nat)
      requires Valid() && clock <= now
      requires permit.countedInFlight ==> permit.token.Some?
      modifies `permits, `guard, `clock
      ensures Valid() && old(clock) <= clock <= now && guard == Released(old(guard), permit)
    {
      hide LeaseStoreOk, RequestStoreOk, TokenStoreOk, DropPermit;
      if !permit.countedInFlight {
        return;
      }
      Later(now);
      var t, token := permit.tenant, permit.token.value;
      DropLease(permits, guard.permits, leases, t, token, now, leaseTtl);
      if t in permits {
        permits := permits[t := Stored(permits[t].value - {token}, permits[t].deadline)];
      }
      guard := guard.(permits := DropPermit(guard.permits, t, token));
    }

    /** SETTLE_TOKENS: correct a live charge, otherwise enter the window anew. */
    method Settle(permit: Permit<T>, actual: nat, now: nat)
      requires Valid() && clock <= now && (limits.tokens > 0 ==> permit.token.Some?)
      modifies this
      ensures Valid() && old(clock) <= clock <= now && guard == Settled(old(guard), permit, actual, now, limits)
      ensures leases == old(leases)
    {
      hide LeaseStoreOk, RequestStoreOk, TokenStoreOk;
      if limits.tokens == 0 {
        return;
      }
      Later(now);
      var t, token := permit.tenant, permit.token.value;
      var s := Read(tokens, t, now, NoTokens);
      SlotOfStore(tokens, guard.charges, t, now);
      if token in s.amounts && token in s.events && s.events[token] + REQUEST_WINDOW_MS > now {
        RechargeTokens(tokens, guard.charges, t, token, s.events[token], actual, now);
        assert s.events[token := s.events[token]] == s.events;
        s := s.(total := s.total + (actual - s.amounts[token]));
      } else {
        RechargeTokens(tokens, guard.charges, t, token, now, actual, now);
        if token in s.amounts {
          s := s.(total := s.total - s.amounts[token]);
        }
        s := s.(events := s.events[token := now]);
        s := s.(total := s.total + actual);
      }
      s := s.(amounts := s.amounts[token := actual]);
      tokens := tokens[t := Stored(s, now + 2 * REQUEST_WINDOW_MS)];
      guard := guard.(charges := SettledCharges(guard.charges, Key(t, token), actual, now));
    }
  }

  lemma SlotOfStore<T(!new)>(tokens: map<T, Stored<TokenKeys>>, charges: map<Key<T>, Entry>, t: T, now: nat)
    requires TokenStoreOk(tokens, charges, now)
    ensures TokenKeysOk(Read(tokens, t, now, NoTokens), charges, t, now)
    ensures forall k :: k in Read(tokens, t, now, NoTokens).events ==> Read(tokens, t, now, NoTokens).events[k] <= now
  {
    assert TokenSlotOk(tokens, charges, t, now);
  }

  lemma AllInWindow(scores: map<Token, nat>, now: nat)
    ensures forall k :: k in InWindow(scores, now) ==> InWindow(scores, now)[k] + REQUEST_WINDOW_MS > now
  {
  }
}

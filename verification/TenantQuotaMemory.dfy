/** The in-memory tenant guard: one request queue and one token queue shared by all
    tenants, pruned from the front. */
module TenantQuotaMemory {
  import opened Results
  import opened Sums
  import opened TenantQuota

  datatype RequestExpiry<T> = RequestExpiry(at: nat, tenant: T)

  datatype TokenExpiry<T> = TokenExpiry(at: nat, key: Key<T>)

  function CountOf<T>(counts: map<T, nat>, t: T): nat {
    if t in counts then counts[t] else 0
  }

  // The request queue.

  ghost function Occurrences<T>(queue: seq<RequestExpiry<T>>, t: T): nat {
    if queue == [] then 0
    else Occurrences(queue[..|queue| - 1], t) + (if queue[|queue| - 1].tenant == t then 1 else 0)
  }

  lemma {:induction false} PopOccurrence<T>(queue: seq<RequestExpiry<T>>, t: T)
    requires queue != []
    ensures Occurrences(queue, t) == Occurrences(queue[1..], t) + (if queue[0].tenant == t then 1 else 0)
  {
    if |queue| > 1 {
      PopOccurrence(queue[..|queue| - 1], t);
      assert queue[..|queue| - 1][1..] == queue[1..][..|queue| - 2];
    }
  }

  lemma PushOccurrence<T>(queue: seq<RequestExpiry<T>>, e: RequestExpiry<T>, t: T)
    ensures Occurrences(queue + [e], t) == Occurrences(queue, t) + (if e.tenant == t then 1 else 0)
  {
    assert (queue + [e])[..|queue|] == queue;
  }

  /** The queue is the end of the history; everything before it has lapsed. */
  ghost predicate QueueOk<T>(queue: seq<RequestExpiry<T>>, grants: seq<Grant<T>>, clock: nat) {
    |queue| <= |grants|
    && (forall i, j :: 0 <= i < j < |grants| ==> grants[i].at <= grants[j].at)
    && (forall i :: 0 <= i < |grants| ==> grants[i].at <= clock)
    && (forall i :: 0 <= i < |grants| - |queue| ==> grants[i].at + REQUEST_WINDOW_MS <= clock)
    && (forall i :: |grants| - |queue| <= i < |grants| ==>
          queue[i - (|grants| - |queue|)] == RequestExpiry(grants[i].at + REQUEST_WINDOW_MS, grants[i].tenant))
  }

  ghost predicate CountsOk<T(!new)>(counts: map<T, nat>, queue: seq<RequestExpiry<T>>) {
    (forall t :: CountOf(counts, t) == Occurrences(queue, t))
    && (forall t :: t in counts ==> counts[t] > 0)
  }

  lemma {:induction false} PrunedQueueCountsLive<T>(queue: seq<RequestExpiry<T>>, grants: seq<Grant<T>>, t: T, now: nat)
    requires QueueOk(queue, grants, now) && (queue != [] ==> queue[0].at > now)
    ensures Occurrences(queue, t) == LiveRequests(grants, t, now)
    decreases |grants|
  {
    if grants != [] {
      var front := grants[..|grants| - 1];
      if queue == [] {
        PrunedQueueCountsLive(queue, front, t, now);
      } else {
        var popped, n := |grants| - |queue|, |grants| - 1;
        assert queue[0] == RequestExpiry(grants[popped].at + REQUEST_WINDOW_MS, grants[popped].tenant);
        assert queue[|queue| - 1] == RequestExpiry(grants[n].at + REQUEST_WINDOW_MS, grants[n].tenant);
        PrunedQueueCountsLive(queue[..|queue| - 1], front, t, now);
      }
    }
  }

  /** What popping the front entry does to the counts. */
  function LessOne<T>(counts: map<T, nat>, t: T): map<T, nat> {
    if t !in counts then counts
    else if counts[t] <= 1 then counts - {t}
    else counts[t := counts[t] - 1]
  }

  lemma PopKeepsCounts<T(!new)>(counts: map<T, nat>, queue: seq<RequestExpiry<T>>)
    requires queue != [] && CountsOk(counts, queue)
    ensures CountsOk(LessOne(counts, queue[0].tenant), queue[1..])
  {
    forall t
      ensures CountOf(LessOne(counts, queue[0].tenant), t) == Occurrences(queue[1..], t)
    {
      PopOccurrence(queue, t);
    }
  }

  lemma PopKeepsQueue<T>(queue: seq<RequestExpiry<T>>, grants: seq<Grant<T>>, clock: nat)
    requires queue != [] && QueueOk(queue, grants, clock) && queue[0].at <= clock
    ensures QueueOk(queue[1..], grants, clock)
  {
  }

  lemma PushKeepsRequests<T(!new)>(counts: map<T, nat>, queue: seq<RequestExpiry<T>>, grants: seq<Grant<T>>, t: T, now: nat, token: Token)
    requires CountsOk(counts, queue) && QueueOk(queue, grants, now)
    ensures var e := RequestExpiry(now + REQUEST_WINDOW_MS, t);
            CountsOk(counts[t := CountOf(counts, t) + 1], queue + [e]) && QueueOk(queue + [e], grants + [Grant(now, t, token)], now)
  {
    var e := RequestExpiry(now + REQUEST_WINDOW_MS, t);
    forall u
      ensures CountOf(counts[t := CountOf(counts, t) + 1], u) == Occurrences(queue + [e], u)
    {
      PushOccurrence(queue, e, u);
    }
  }

  // The token queue.

  ghost function AmountsOf<T>(amounts: map<Key<T>, nat>, t: T): map<Key<T>, nat> {
    map k | k in amounts && k.tenant == t :: amounts[k]
  }

  lemma AmountsAfterSet<T(!new)>(amounts: map<Key<T>, nat>, k: Key<T>, v: nat, t: T)
    ensures Sum(AmountsOf(amounts[k := v], t))
            == Sum(AmountsOf(amounts, t)) - (if k in amounts && k.tenant == t then amounts[k] else 0) + (if k.tenant == t then v else 0)
    ensures k in amounts && k.tenant == t ==> amounts[k] <= Sum(AmountsOf(amounts, t))
  {
    if k.tenant == t {
      SumSet(AmountsOf(amounts, t), k, v);
      assert AmountsOf(amounts[k := v], t) == AmountsOf(amounts, t)[k := v];
    } else {
      assert AmountsOf(amounts[k := v], t) == AmountsOf(amounts, t);
    }
  }

  lemma AmountsAfterRemove<T(!new)>(amounts: map<Key<T>, nat>, k: Key<T>, t: T)
    requires k in amounts
    ensures Sum(AmountsOf(amounts, t)) == Sum(AmountsOf(amounts - {k}, t)) + (if k.tenant == t then amounts[k] else 0)
  {
    if k.tenant == t {
      SumRemove(AmountsOf(amounts, t), k);
      assert AmountsOf(amounts - {k}, t) == AmountsOf(amounts, t) - {k};
    } else {
      assert AmountsOf(amounts - {k}, t) == AmountsOf(amounts, t);
    }
  }

  ghost predicate TotalsOk<T(!new)>(totals: map<T, nat>, amounts: map<Key<T>, nat>) {
    forall t :: CountOf(totals, t) == Sum(AmountsOf(amounts, t))
  }

  ghost function KeysOf<T>(queue: seq<TokenExpiry<T>>): set<Key<T>> {
    set i | 0 <= i < |queue| :: queue[i].key
  }

  /** Each counted key stands in the queue once, in order of its end. */
  ghost predicate TokenQueueOk<T>(queue: seq<TokenExpiry<T>>, amounts: map<Key<T>, nat>, charges: map<Key<T>, Entry>) {
    amounts.Keys == KeysOf(queue)
    && (forall i, j :: 0 <= i < j < |queue| ==> queue[i].key != queue[j].key && queue[i].at <= queue[j].at)
    && (forall i :: 0 <= i < |queue| ==> queue[i].key in charges && queue[i].at == charges[queue[i].key].expires)
    && (forall k :: k in amounts && k in charges ==> amounts[k] == charges[k].amount)
  }

  ghost predicate ChargesOk<T>(amounts: map<Key<T>, nat>, charges: map<Key<T>, Entry>, clock: nat) {
    forall k :: k in charges ==> charges[k].expires <= clock + REQUEST_WINDOW_MS && (charges[k].expires > clock ==> k in amounts)
  }

  lemma PopTokenKeepsQueue<T>(queue: seq<TokenExpiry<T>>, amounts: map<Key<T>, nat>, charges: map<Key<T>, Entry>, clock: nat)
    requires queue != [] && TokenQueueOk(queue, amounts, charges) && ChargesOk(amounts, charges, clock) && queue[0].at <= clock
    ensures queue[0].key in amounts
    ensures TokenQueueOk(queue[1..], amounts - {queue[0].key}, charges) && ChargesOk(amounts - {queue[0].key}, charges, clock)
  {
    assert queue[0].key in KeysOf(queue);
    forall k
      ensures k in amounts - {queue[0].key} <==> k in KeysOf(queue[1..])
    {
      if k in KeysOf(queue[1..]) {
        var i :| 0 <= i < |queue[1..]| && queue[1..][i].key == k;
        assert queue[i + 1].key == k;
      }
      if k in amounts - {queue[0].key} {
        assert k in KeysOf(queue);
        var i :| 0 <= i < |queue| && queue[i].key == k;
        assert queue[1..][i - 1].key == k;
      }
    }
    assert (amounts - {queue[0].key}).Keys == KeysOf(queue[1..]);
  }

  function Less<T>(totals: map<T, nat>, t: T, amount: nat): map<T, nat> {
    if t !in totals then totals
    else if totals[t] <= amount then totals - {t}
    else totals[t := totals[t] - amount]
  }

  lemma PopTokenKeepsTotals<T(!new)>(totals: map<T, nat>, amounts: map<Key<T>, nat>, k: Key<T>)
    requires k in amounts && TotalsOk(totals, amounts)
    ensures TotalsOk(Less(totals, k.tenant, amounts[k]), amounts - {k})
  {
    forall t
      ensures CountOf(Less(totals, k.tenant, amounts[k]), t) == Sum(AmountsOf(amounts - {k}, t))
    {
      AmountsAfterRemove(amounts, k, t);
    }
  }

  lemma SetKeepsTotals<T(!new)>(totals: map<T, nat>, amounts: map<Key<T>, nat>, k: Key<T>, v: nat)
    requires TotalsOk(totals, amounts)
    ensures k in amounts ==> CountOf(totals, k.tenant) >= amounts[k]
    ensures TotalsOk(totals[k.tenant := CountOf(totals, k.tenant) - (if k in amounts then amounts[k] else 0) + v], amounts[k := v])
  {
    AmountsAfterSet(amounts, k, v, k.tenant);
    var total := CountOf(totals, k.tenant) - (if k in amounts then amounts[k] else 0) + v;
    var after := totals[k.tenant := total];
    forall t
      ensures CountOf(after, t) == Sum(AmountsOf(amounts[k := v], t))
    {
      AmountsAfterSet(amounts, k, v, t);
    }
  }

  lemma PushedKeys<T>(queue: seq<TokenExpiry<T>>, last: TokenExpiry<T>)
    ensures KeysOf(queue + [last]) == KeysOf(queue) + {last.key}
    ensures forall i :: 0 <= i < |queue| ==> queue[i].key in KeysOf(queue)
  {
    var pushed := queue + [last];
    forall x
      ensures x in KeysOf(pushed) <==> x in KeysOf(queue) || x == last.key
    {
      if x in KeysOf(queue) {
        var i :| 0 <= i < |queue| && queue[i].key == x;
        assert pushed[i].key == x;
      }
      assert pushed[|queue|].key == last.key;
    }
  }

  lemma PushKeepsTokenQueue<T>(queue: seq<TokenExpiry<T>>, amounts: map<Key<T>, nat>, charges: map<Key<T>, Entry>, k: Key<T>, v: nat, now: nat)
    requires TokenQueueOk(queue, amounts, charges) && ChargesOk(amounts, charges, now) && k !in amounts
    ensures var e := Entry(now + REQUEST_WINDOW_MS, v);
            TokenQueueOk(queue + [TokenExpiry(e.expires, k)], amounts[k := v], charges[k := e])
            && ChargesOk(amounts[k := v], charges[k := e], now)
  {
    PushedKeys(queue, TokenExpiry(now + REQUEST_WINDOW_MS, k));
    hide KeysOf;
    assert amounts[k := v].Keys == amounts.Keys + {k};
  }

  lemma CorrectKeepsTokenQueue<T>(queue: seq<TokenExpiry<T>>, amounts: map<Key<T>, nat>, charges: map<Key<T>, Entry>, k: Key<T>, v: nat, clock: nat)
    requires TokenQueueOk(queue, amounts, charges) && ChargesOk(amounts, charges, clock) && k in amounts && k in charges
    ensures TokenQueueOk(queue, amounts[k := v], charges[k := Entry(charges[k].expires, v)])
    ensures ChargesOk(amounts[k := v], charges[k := Entry(charges[k].expires, v)], clock)
  {
    assert amounts[k := v].Keys == amounts.Keys;
  }

  /** Once pruned, the counted amounts are the live ones. */
  lemma PrunedAmountsAreLive<T(!new)>(queue: seq<TokenExpiry<T>>, amounts: map<Key<T>, nat>, charges: map<Key<T>, Entry>, t: T, now: nat)
    requires TokenQueueOk(queue, amounts, charges) && ChargesOk(amounts, charges, now) && (queue != [] ==> queue[0].at > now)
    ensures AmountsOf(amounts, t) == LiveAmounts(charges, t, now)
    ensures forall k :: k in amounts ==> k in charges && charges[k].expires > now
  {
    forall k | k in amounts
      ensures k in charges && charges[k].expires > now && amounts[k] == charges[k].amount
    {
      assert k in KeysOf(queue);
      var i :| 0 <= i < |queue| && queue[i].key == k;
      assert i > 0 ==> queue[0].at <= queue[i].at;
    }
  }

  class TenantGuard<T(==, !new)> {
    var permits: map<T, set<Token>>
    var requestCounts: map<T, nat>
    var requestExpirations: seq<RequestExpiry<T>>
    var tokenAmounts: map<Key<T>, nat>
    var tokenTotals: map<T, nat>
    var tokenExpirations: seq<TokenExpiry<T>>
    const limits: Limits
    ghost var guard: Guard<T>
    ghost var clock: nat

    ghost predicate Valid()
      reads this
    {
      permits == guard.permits && RequestsOk() && TokensOk()
    }

    ghost predicate RequestsOk()
      reads this
    {
      CountsOk(requestCounts, requestExpirations) && QueueOk(requestExpirations, guard.grants, clock)
    }

    ghost predicate TokensOk()
      reads this
    {
      TotalsOk(tokenTotals, tokenAmounts)
      && TokenQueueOk(tokenExpirations, tokenAmounts, guard.charges) && ChargesOk(tokenAmounts, guard.charges, clock)
    }

    constructor (limits: Limits)
      ensures Valid() && guard == Guard(map[], [], map[]) && clock == 0 && this.limits == limits
    {
      this.limits := limits;
      permits, requestCounts, requestExpirations := map[], map[], [];
      tokenAmounts, tokenTotals, tokenExpirations := map[], map[], [];
      guard, clock := Guard(map[], [], map[]), 0;
      new;
      assert forall t: T :: AmountsOf(tokenAmounts, t) == map[];
    }

    method PruneRequests(now: nat)
      requires RequestsOk() && clock <= now
      modifies `requestCounts, `requestExpirations
      ensures CountsOk(requestCounts, requestExpirations) && QueueOk(requestExpirations, guard.grants, now)
      ensures requestExpirations != [] ==> requestExpirations[0].at > now
    {
      hide CountsOk, QueueOk;
      LaterQueue(requestExpirations, guard.grants, clock, now);
      while requestExpirations != [] && requestExpirations[0].at <= now
        invariant CountsOk(requestCounts, requestExpirations) && QueueOk(requestExpirations, guard.grants, now)
        decreases |requestExpirations|
      {
        var tenant := requestExpirations[0].tenant;
        PopKeepsCounts(requestCounts, requestExpirations);
        PopKeepsQueue(requestExpirations, guard.grants, now);
        ghost var before := requestCounts;
        requestExpirations := requestExpirations[1..];
        if tenant in requestCounts {
          var count := if requestCounts[tenant] > 0 then requestCounts[tenant] - 1 else 0;
          requestCounts := requestCounts[tenant := count];
          if count == 0 {
            requestCounts := requestCounts - {tenant};
          }
        }
        assert requestCounts == LessOne(before, tenant);
      }
    }

    method PruneTokens(now: nat)
      requires TokensOk() && clock <= now
      modifies `tokenAmounts, `tokenTotals, `tokenExpirations
      ensures TotalsOk(tokenTotals, tokenAmounts)
      ensures TokenQueueOk(tokenExpirations, tokenAmounts, guard.charges) && ChargesOk(tokenAmounts, guard.charges, now)
      ensures tokenExpirations != [] ==> tokenExpirations[0].at > now
    {
      hide TotalsOk, TokenQueueOk, ChargesOk;
      LaterCharges(tokenAmounts, guard.charges, clock, now);
      while tokenExpirations != [] && tokenExpirations[0].at <= now
        invariant TotalsOk(tokenTotals, tokenAmounts)
        invariant TokenQueueOk(tokenExpirations, tokenAmounts, guard.charges) && ChargesOk(tokenAmounts, guard.charges, now)
        decreases |tokenExpirations|
      {
        var key := tokenExpirations[0].key;
        PopTokenKeepsQueue(tokenExpirations, tokenAmounts, guard.charges, now);
        PopTokenKeepsTotals(tokenTotals, tokenAmounts, key);
        ghost var before := tokenTotals;
        tokenExpirations := tokenExpirations[1..];
        var amount := if key in tokenAmounts then tokenAmounts[key] else 0;
        tokenAmounts := tokenAmounts - {key};
        if key.tenant in tokenTotals {
          var total := tokenTotals[key.tenant];
          tokenTotals := tokenTotals[key.tenant := if total > amount then total - amount else 0];
          if tokenTotals[key.tenant] == 0 {
            tokenTotals := tokenTotals - {key.tenant};
          }
        }
        assert tokenTotals == Less(before, key.tenant, amount);
      }
    }

    method Reserve(t: T, estimated: nat, now: nat, token: Token) returns (r: Reservation<T>)
      requires Valid() && clock <= now && Unused(guard, token)
      modifies this
      ensures Valid() && old(clock) <= clock <= now
      ensures r == ReserveAnswer(old(guard), t, estimated, now, token, limits)
      ensures guard == Reserved(old(guard), t, estimated, now, token, limits)
    {
      hide CountsOk, QueueOk, TotalsOk, TokenQueueOk, ChargesOk, LiveRequests, LiveTokens, Unused, Charged;
      if Off(limits) {
        return Granted(Permit(t, None, false));
      }
      Prune(now, t);
      if limits.inFlight > 0 && Held(permits, t) >= limits.inFlight {
        return Rejected(InFlight);
      }
      if limits.requests > 0 && CountOf(requestCounts, t) >= limits.requests {
        return Rejected(RequestsPerMinute);
      }
      if limits.tokens > 0 && CountOf(tokenTotals, t) + estimated > limits.tokens {
        return Rejected(TokensPerMinute);
      }
      Record(t, estimated, now, token);
      r := Granted(Permit(t, Some(token), limits.inFlight > 0));
    }

    method Prune(now: nat, ghost t: T)
      requires Valid() && clock <= now
      modifies `requestCounts, `requestExpirations, `tokenAmounts, `tokenTotals, `tokenExpirations, `clock
      ensures Valid() && clock == now
      ensures CountOf(requestCounts, t) == LiveRequests(guard.grants, t, now)
      ensures CountOf(tokenTotals, t) == LiveTokens(guard.charges, t, now)
      ensures forall k :: k in tokenAmounts ==> k in guard.charges && guard.charges[k].expires > now
    {
      hide TokenQueueOk, QueueOk, ChargesOk, Occurrences;
      PruneRequests(now);
      PruneTokens(now);
      clock := now;
      PrunedQueueCountsLive(requestExpirations, guard.grants, t, now);
      PrunedAmountsAreLive(tokenExpirations, tokenAmounts, guard.charges, t, now);
    }

    method Record(t: T, estimated: nat, now: nat, token: Token)
      requires Valid() && clock == now && Unused(guard, token)
      requires forall k :: k in tokenAmounts ==> k in guard.charges
      modifies this
      ensures Valid() && clock == now && guard == Charged(old(guard), t, estimated, now, token, limits)
    {
      hide CountsOk, QueueOk, TotalsOk, TokenQueueOk, ChargesOk;
      if limits.inFlight > 0 {
        permits := permits[t := (if t in permits then permits[t] else {}) + {token}];
        guard := guard.(permits := permits);
      }
      if limits.requests > 0 {
        PushKeepsRequests(requestCounts, requestExpirations, guard.grants, t, now, token);
        requestCounts := requestCounts[t := CountOf(requestCounts, t) + 1];
        requestExpirations := requestExpirations + [RequestExpiry(now + REQUEST_WINDOW_MS, t)];
        guard := guard.(grants := guard.grants + [Grant(now, t, token)]);
      }
      if limits.tokens > 0 {
        Enter(Key(t, token), estimated, now);
      }
    }

    /** A key that is not counted enters the window. */
    method Enter(key: Key<T>, amount: nat, now: nat)
      requires Valid() && clock == now && key !in tokenAmounts
      modifies `tokenAmounts, `tokenTotals, `tokenExpirations, `guard
      ensures Valid()
      ensures guard == old(guard).(charges := old(guard).charges[key := Entry(now + REQUEST_WINDOW_MS, amount)])
    {
      hide CountsOk, QueueOk, TotalsOk, TokenQueueOk, ChargesOk;
      SetKeepsTotals(tokenTotals, tokenAmounts, key, amount);
      PushKeepsTokenQueue(tokenExpirations, tokenAmounts, guard.charges, key, amount, now);
      tokenAmounts := tokenAmounts[key := amount];
      tokenTotals := tokenTotals[key.tenant := CountOf(tokenTotals, key.tenant) + amount];
      tokenExpirations := tokenExpirations + [TokenExpiry(now + REQUEST_WINDOW_MS, key)];
      guard := guard.(charges := guard.charges[key := Entry(now + REQUEST_WINDOW_MS, amount)]);
    }

    method Settle(permit: Permit<T>, actual: nat, now: nat)
      requires Valid() && clock <= now && (limits.tokens > 0 ==> permit.token.Some?)
      modifies this
      ensures Valid() && old(clock) <= clock <= now && guard == Settled(old(guard), permit, actual, now, limits)
    {
      hide CountsOk, QueueOk, TotalsOk, TokenQueueOk, ChargesOk;
      if limits.tokens == 0 {
        return;
      }
      var key := Key(permit.tenant, permit.token.value);
      SettlePrune(now, key);
      if key in tokenAmounts {
        var prior := tokenAmounts[key];
        SetKeepsTotals(tokenTotals, tokenAmounts, key, actual);
        CorrectKeepsTokenQueue(tokenExpirations, tokenAmounts, guard.charges, key, actual, now);
        tokenAmounts := tokenAmounts[key := actual];
        tokenTotals := tokenTotals[key.tenant := CountOf(tokenTotals, key.tenant) - prior + actual];
        guard := guard.(charges := guard.charges[key := Entry(guard.charges[key].expires, actual)]);
      } else {
        Enter(key, actual, now);
      }
    }

    /** Settling prunes the token queue alone. */
    method SettlePrune(now: nat, ghost key: Key<T>)
      requires Valid() && clock <= now
      modifies `tokenAmounts, `tokenTotals, `tokenExpirations, `clock
      ensures Valid() && clock == now
      ensures key in tokenAmounts <==> key in guard.charges && guard.charges[key].expires > now
    {
      hide CountsOk, QueueOk, TotalsOk, TokenQueueOk, AmountsOf, LiveAmounts;
      PruneTokens(now);
      LaterQueue(requestExpirations, guard.grants, clock, now);
      clock := now;
      PrunedAmountsAreLive(tokenExpirations, tokenAmounts, guard.charges, key.tenant, now);
    }

    method Release(permit: Permit<T>)
      requires Valid() && (permit.countedInFlight ==> permit.token.Some?)
      modifies `permits, `guard
      ensures Valid() && guard == Released(old(guard), permit)
    {
      hide CountsOk, QueueOk, TotalsOk, TokenQueueOk, ChargesOk;
      if !permit.countedInFlight {
        return;
      }
      var t := permit.tenant;
      if t in permits {
        permits := permits[t := permits[t] - {permit.token.value}];
        if permits[t] == {} {
          permits := permits - {t};
        }
      }
      guard := guard.(permits := DropPermit(guard.permits, t, permit.token.value));
    }
  }

  lemma LaterQueue<T>(queue: seq<RequestExpiry<T>>, grants: seq<Grant<T>>, clock: nat, now: nat)
    requires QueueOk(queue, grants, clock) && clock <= now
    ensures QueueOk(queue, grants, now)
  {
  }

  lemma LaterCharges<T>(amounts: map<Key<T>, nat>, charges: map<Key<T>, Entry>, clock: nat, now: nat)
    requires ChargesOk(amounts, charges, clock) && clock <= now
    ensures ChargesOk(amounts, charges, now)
  {
  }
}

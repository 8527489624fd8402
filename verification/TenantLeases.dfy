/** The in-flight sorted set of the Redis tenant guard: a permit counts until it is
    released or its lease ends, whichever comes first. */
module TenantLeases {
  import opened Results
  import opened Sets
  import opened TenantQuota

  /** The end of each lease ever granted, by token. */
  type Leases = map<Token, nat>

  ghost predicate Running(leases: Leases, k: Token, now: nat) {
    k in leases && leases[k] > now
  }

  ghost function LiveHeld(held: set<Token>, leases: Leases, now: nat): set<Token> {
    set k | k in held && Running(leases, k, now)
  }

  /** The reference's answer, with permits counted only while their lease runs. */
  ghost function LeasedRefusal<T(!new)>(g: Guard<T>, leases: Leases, t: T, estimated: nat, now: nat, limits: Limits): Option<Rejection> {
    Refused(|LiveHeld(HeldBy(g.permits, t), leases, now)|, LiveRequests(g.grants, t, now), LiveTokens(g.charges, t, now),
            estimated, limits)
  }

  ghost function LeasedAnswer<T(!new)>(g: Guard<T>, leases: Leases, t: T, estimated: nat, now: nat, token: Token, limits: Limits)
    : Reservation<T>
  {
    if Off(limits) then Granted(Permit(t, None, false))
    else
      var refusal := LeasedRefusal(g, leases, t, estimated, now, limits);
      if refusal.Some? then Rejected(refusal.value) else Granted(Permit(t, Some(token), limits.inFlight > 0))
  }

  ghost function LeasedReserved<T(!new)>(g: Guard<T>, leases: Leases, t: T, estimated: nat, now: nat, token: Token, limits: Limits)
    : Guard<T>
  {
    if Off(limits) || LeasedRefusal(g, leases, t, estimated, now, limits).Some? then g
    else Charged(g, t, estimated, now, token, limits)
  }

  /** The tenant holds no permit whose lease has ended. */
  ghost predicate NoneLapsed(held: set<Token>, leases: Leases, now: nat) {
    forall k :: k in held ==> Running(leases, k, now)
  }

  /** Both ways of counting agree exactly while no permit outlives its lease. */
  lemma WhenCountsAgree(held: set<Token>, leases: Leases, now: nat)
    ensures |LiveHeld(held, leases, now)| <= |held|
    ensures |LiveHeld(held, leases, now)| == |held| <==> NoneLapsed(held, leases, now)
  {
    hide Running;
    var live := LiveHeld(held, leases, now);
    SubsetSize(live, held);
    if |live| == |held| {
      SubsetOfSameSize(live, held);
      forall k | k in held
        ensures Running(leases, k, now)
      {
        assert k in live;
      }
    }
    if NoneLapsed(held, leases, now) {
      assert live == held;
    }
  }

  /** The verdicts agree exactly unless the limit is reached by counting lapsed permits only. */
  lemma WhenLeasesAgree<T(!new)>(g: Guard<T>, leases: Leases, t: T, estimated: nat, now: nat, token: Token, limits: Limits)
    ensures LeasedAnswer(g, leases, t, estimated, now, token, limits) == ReserveAnswer(g, t, estimated, now, token, limits)
            <==> (limits.inFlight == 0
                  || !(|LiveHeld(HeldBy(g.permits, t), leases, now)| < limits.inFlight <= |HeldBy(g.permits, t)|))
    ensures NoneLapsed(HeldBy(g.permits, t), leases, now) ==>
              LeasedAnswer(g, leases, t, estimated, now, token, limits) == ReserveAnswer(g, t, estimated, now, token, limits)
              && LeasedReserved(g, leases, t, estimated, now, token, limits) == Reserved(g, t, estimated, now, token, limits)
  {
    hide LiveHeld, NoneLapsed, LiveRequests, LiveTokens, Charged;
    WhenCountsAgree(HeldBy(g.permits, t), leases, now);
  }

  // The stored set.

  /** The set holds the tenant's permits, at least those whose lease runs. */
  ghost predicate LeaseSetOk(scores: map<Token, nat>, held: set<Token>, leases: Leases, clock: nat) {
    (forall k :: k in scores ==> k in held && k in leases && scores[k] == leases[k])
    && (forall k :: k in held && Running(leases, k, clock) ==> k in scores)
  }

  /** Every lease ends by the key's deadline, and was granted by now. */
  ghost predicate LeasesTimely(scores: map<Token, nat>, deadline: nat, clock: nat, leaseTtl: nat) {
    forall k :: k in scores ==> scores[k] <= deadline && scores[k] <= clock + leaseTtl
  }

  /** ZREMRANGEBYSCORE up to now. */
  function Unlapsed(scores: map<Token, nat>, now: nat): map<Token, nat> {
    map k | k in scores && scores[k] > now :: scores[k]
  }

  lemma PrunedLeaseSet(scores: map<Token, nat>, held: set<Token>, leases: Leases, now: nat)
    requires LeaseSetOk(scores, held, leases, now)
    ensures LeaseSetOk(Unlapsed(scores, now), held, leases, now)
    ensures |Unlapsed(scores, now)| == |LiveHeld(held, leases, now)|
  {
    assert Unlapsed(scores, now).Keys == LiveHeld(held, leases, now);
    assert |Unlapsed(scores, now)| == |Unlapsed(scores, now).Keys|;
  }

  lemma UnlapsedIsTimely(scores: map<Token, nat>, deadline: nat, now: nat, leaseTtl: nat)
    requires LeasesTimely(scores, deadline, now, leaseTtl)
    ensures LeasesTimely(Unlapsed(scores, now), deadline, now, leaseTtl)
  {
  }

  type LeaseStore<T> = map<T, Stored<map<Token, nat>>>

  ghost predicate LeaseSlotOk<T>(store: LeaseStore<T>, permits: map<T, set<Token>>, leases: Leases, t: T, clock: nat, leaseTtl: nat) {
    LeaseSetOk(Read(store, t, clock, map[]), HeldBy(permits, t), leases, clock)
    && (t in store ==> LeasesTimely(store[t].value, store[t].deadline, clock, leaseTtl))
  }

  ghost predicate LeaseStoreOk<T(!new)>(store: LeaseStore<T>, permits: map<T, set<Token>>, leases: Leases, clock: nat, leaseTtl: nat) {
    forall t :: LeaseSlotOk(store, permits, leases, t, clock, leaseTtl)
  }

  /** A set that expires holds only leases that have ended. */
  lemma DroppedLeasesHaveEnded<T>(store: LeaseStore<T>, permits: map<T, set<Token>>, leases: Leases, t: T, clock: nat, now: nat,
                                  leaseTtl: nat)
    requires LeaseSlotOk(store, permits, leases, t, clock, leaseTtl) && clock <= now
    ensures LeaseSlotOk(store, permits, leases, t, now, leaseTtl)
  {
    var held := HeldBy(permits, t);
    forall k | k in held && Running(leases, k, now)
      ensures k in Read(store, t, now, map[])
    {
      assert Running(leases, k, clock);
      assert k in Read(store, t, clock, map[]);
    }
  }

  lemma LaterLeases<T(!new)>(store: LeaseStore<T>, permits: map<T, set<Token>>, leases: Leases, clock: nat, now: nat, leaseTtl: nat)
    requires LeaseStoreOk(store, permits, leases, clock, leaseTtl) && clock <= now
    ensures LeaseStoreOk(store, permits, leases, now, leaseTtl)
  {
    hide LeaseSlotOk;
    forall t
      ensures LeaseSlotOk(store, permits, leases, t, now, leaseTtl)
    {
      DroppedLeasesHaveEnded(store, permits, leases, t, clock, now, leaseTtl);
    }
  }

  /** One tenant's set rewritten while nothing else changes. */
  lemma ReplaceLeases<T(!new)>(store: LeaseStore<T>, permits: map<T, set<Token>>, leases: Leases, t: T,
                               stored: Stored<map<Token, nat>>, now: nat, leaseTtl: nat)
    requires LeaseStoreOk(store, permits, leases, now, leaseTtl) && now <= stored.deadline
    requires LeaseSetOk(stored.value, HeldBy(permits, t), leases, now)
    requires LeasesTimely(stored.value, stored.deadline, now, leaseTtl)
    ensures LeaseStoreOk(store[t := stored], permits, leases, now, leaseTtl)
  {
    hide LeaseSetOk, LeasesTimely;
    var after := store[t := stored];
    forall u
      ensures LeaseSlotOk(after, permits, leases, u, now, leaseTtl)
    {
      assert LeaseSlotOk(store, permits, leases, u, now, leaseTtl);
    }
  }

  lemma AddScore(scores: map<Token, nat>, deadline: nat, held: set<Token>, leases: Leases, token: Token, now: nat, leaseTtl: nat)
    requires LeaseSetOk(scores, held, leases, now) && LeasesTimely(scores, deadline, now, leaseTtl) && token !in held
    ensures LeaseSetOk(scores[token := now + leaseTtl], held + {token}, leases[token := now + leaseTtl], now)
    ensures LeasesTimely(scores[token := now + leaseTtl], now + 2 * leaseTtl, now, leaseTtl)
  {
    var more := leases[token := now + leaseTtl];
    forall k | k in held + {token} && Running(more, k, now)
      ensures k in scores[token := now + leaseTtl]
    {
      assert k != token ==> Running(leases, k, now);
    }
  }

  lemma OtherLease(scores: map<Token, nat>, held: set<Token>, leases: Leases, token: Token, end: nat, now: nat)
    requires LeaseSetOk(scores, held, leases, now) && token !in held
    ensures LeaseSetOk(scores, held, leases[token := end], now)
  {
    var more := leases[token := end];
    forall k | k in held && Running(more, k, now)
      ensures k in scores
    {
      assert Running(leases, k, now);
    }
  }

  lemma ReadLeasesAreTimely<T>(store: LeaseStore<T>, permits: map<T, set<Token>>, leases: Leases, t: T, now: nat, leaseTtl: nat)
    requires LeaseSlotOk(store, permits, leases, t, now, leaseTtl)
    ensures exists deadline :: LeasesTimely(Read(store, t, now, map[]), deadline, now, leaseTtl)
  {
    if t in store && now <= store[t].deadline {
      assert LeasesTimely(Read(store, t, now, map[]), store[t].deadline, now, leaseTtl);
    } else {
      assert LeasesTimely(map[], 0, now, leaseTtl);
    }
  }

  /** ZADD of a new lease. */
  lemma AddLease<T(!new)>(store: LeaseStore<T>, permits: map<T, set<Token>>, leases: Leases, t: T, token: Token, now: nat, leaseTtl: nat)
    requires LeaseStoreOk(store, permits, leases, now, leaseTtl) && forall u :: u in permits ==> token !in permits[u]
    ensures var stored := Stored(Read(store, t, now, map[])[token := now + leaseTtl], now + 2 * leaseTtl);
            LeaseStoreOk(store[t := stored], HoldPermit(permits, t, token), leases[token := now + leaseTtl], now, leaseTtl)
  {
    hide LeaseSetOk, LeasesTimely;
    var end := now + leaseTtl;
    var after := store[t := Stored(Read(store, t, now, map[])[token := end], now + 2 * leaseTtl)];
    var held, more := HoldPermit(permits, t, token), leases[token := end];
    forall u
      ensures LeaseSlotOk(after, held, more, u, now, leaseTtl)
    {
      assert LeaseSlotOk(store, permits, leases, u, now, leaseTtl);
      if u == t {
        assert LeaseSlotOk(store, permits, leases, t, now, leaseTtl);
        ReadLeasesAreTimely(store, permits, leases, t, now, leaseTtl);
        var deadline :| LeasesTimely(Read(store, t, now, map[]), deadline, now, leaseTtl);
        AddScore(Read(store, t, now, map[]), deadline, HeldBy(permits, t), leases, token, now, leaseTtl);
      } else {
        OtherLease(Read(store, u, now, map[]), HeldBy(permits, u), leases, token, end, now);
      }
    }
  }

  lemma DropScore(scores: map<Token, nat>, held: set<Token>, leases: Leases, token: Token, now: nat)
    requires LeaseSetOk(scores, held, leases, now)
    ensures LeaseSetOk(scores - {token}, held - {token}, leases, now)
  {
    assert forall k :: k in scores - {token} ==> k in scores && (scores - {token})[k] == scores[k];
  }

  lemma HeldAfterDrop<T>(permits: map<T, set<Token>>, t: T, token: Token, u: T)
    ensures HeldBy(DropPermit(permits, t, token), u) == if u == t then HeldBy(permits, u) - {token} else HeldBy(permits, u)
  {
  }

  /** ZREM of a lease. */
  lemma DropLease<T(!new)>(store: LeaseStore<T>, permits: map<T, set<Token>>, leases: Leases, t: T, token: Token, now: nat, leaseTtl: nat)
    requires LeaseStoreOk(store, permits, leases, now, leaseTtl)
    ensures var after := if t in store then store[t := Stored(store[t].value - {token}, store[t].deadline)] else store;
            LeaseStoreOk(after, DropPermit(permits, t, token), leases, now, leaseTtl)
  {
    hide LeaseSetOk, LeasesTimely, DropPermit;
    var after := if t in store then store[t := Stored(store[t].value - {token}, store[t].deadline)] else store;
    var rest := DropPermit(permits, t, token);
    forall u
      ensures LeaseSlotOk(after, rest, leases, u, now, leaseTtl)
    {
      assert LeaseSlotOk(store, permits, leases, u, now, leaseTtl);
      HeldAfterDrop(permits, t, token, u);
      if u == t {
        var none: map<Token, nat> := map[];
        assert none - {token} == none;
        DropScore(Read(store, t, now, map[]), HeldBy(permits, t), leases, token, now);
        if t in store {
          DropTimely(store[t].value, store[t].deadline, token, now, leaseTtl);
        }
      }
    }
  }

  lemma DropTimely(scores: map<Token, nat>, deadline: nat, token: Token, now: nat, leaseTtl: nat)
    requires LeasesTimely(scores, deadline, now, leaseTtl)
    ensures LeasesTimely(scores - {token}, deadline, now, leaseTtl)
  {
    assert forall k :: k in scores - {token} ==> k in scores && (scores - {token})[k] == scores[k];
  }
}

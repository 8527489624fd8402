/** The in-memory backend as an object: every call prunes, decides and writes in
    place, and answers exactly as the book prescribes. */
module MemoryQuotaLedger {
  import opened Results
  import opened Arithmetic
  import opened QuotaPlanning
  import opened QuotaBook
  import opened MemoryQuota

  class MemoryLedger {
    var events: map<Counter, Queue>
    var amounts: map<(Counter, Token), nat>
    var totals: map<Counter, nat>
    var inFlight: map<Counter, map<Token, nat>>
    var ticket: nat
    const leaseTtl: nat
    ghost var book: Book
    ghost var clock: nat

    ghost function State(): Store
      reads this
    {
      Store(events, amounts, totals, inFlight)
    }

    ghost predicate Valid()
      reads this
    {
      StoreOk(State(), book, clock) && TokensIssued(book, ticket)
    }

    constructor (leaseTtl: nat)
      ensures Valid() && book == map[] && clock == 0 && this.leaseTtl == leaseTtl && ticket == 0
    {
      this.leaseTtl := leaseTtl;
      events, amounts, totals, inFlight, ticket := map[], map[], map[], map[], 0;
      book, clock := map[], 0;
      new;
      EmptyStoreOk();
    }

    /** Age out permits, then drop the expired front of every queue. */
    method Prune(now: nat)
      requires Valid() && clock <= now
      modifies `events, `amounts, `totals, `inFlight, `clock
      ensures Valid() && clock == now && StorePruned(State(), now)
    {
      hide StoreOk, TokensIssued;
      RetainLiveOk(State(), book, clock, now);
      inFlight := RetainLive(inFlight, now);
      clock := now;
      var keys := events.Keys;
      while keys != {}
        invariant Valid() && clock == now && keys <= events.Keys
        invariant PermitsPruned(inFlight, now) && QueuesPruned(events, keys, now)
      {
        var key :| key in keys;
        PruneCounter(key, now);
        keys := keys - {key};
      }
    }

    method PruneCounter(key: Counter, now: nat)
      requires Valid() && clock == now && key in events
      modifies `events, `amounts, `totals
      ensures Valid() && OnlyPops(old(events), events, key) && QueuePruned(events[key], now)
    {
      hide StoreOk, TokensIssued;
      while events[key] != [] && events[key][0].0 <= now
        invariant Valid() && OnlyPops(old(events), events, key)
        decreases |events[key]|
      {
        PopExpired(key, now);
      }
    }

    method PopExpired(key: Counter, now: nat)
      requires Valid() && clock == now && key in events && events[key] != [] && events[key][0].0 <= now
      modifies `events, `amounts, `totals
      ensures Valid() && events == old(events)[key := old(events)[key][1..]]
    {
      hide StoreOk, TokensIssued;
      PopFrontOk(State(), key, book, now);
      DropFront(key);
    }

    method DropFront(key: Counter)
      requires key in events && events[key] != []
      modifies `events, `amounts, `totals
      ensures State() == PopFront(old(State()), key)
    {
      var token := events[key][0].1;
      events := events[key := events[key][1..]];
      var amount := if (key, token) in amounts then amounts[(key, token)] else 0;
      amounts := amounts - {(key, token)};
      totals := SubtractTotal(totals, key, amount);
    }

    /** Usage of every charged counter as the running totals have it. */
    function Observe(plan: QuotaChargePlan, now: nat): (observation: seq<QuotaCounter>)
      reads this
      ensures observation == ObservationOf(plan, UsedNow(State(), plan), now)
    {
      seq(|plan|, i requires 0 <= i < |plan| reads this =>
        var c := plan[i].counter;
        var used := if c.window == InFlight then |Get(inFlight, c, map[])| else Get(totals, c, 0);
        QuotaCounter(c.scope, c.window, c.dimension, used, plan[i].limit, plan[i].ResetMillis(now)))
    }

    /** Evaluate every charge, then apply all of them or none. On a refusal the
        book is untouched, and the pruned store is the book's live part. */
    method Reserve(plan: QuotaChargePlan, now: nat) returns (response: Response, token: Token)
      requires Valid() && Executable(plan) && clock <= now
      modifies this
      ensures Valid() && clock >= old(clock) && (plan != [] ==> clock == now) && clock <= now
      ensures response == Respond(plan, UsedBy(old(book), plan, now), now, SlotGains(plan))
      ensures response.Granted? ==> book == ChargeAll(old(book), plan, token, now, leaseTtl)
                                    && forall c :: token !in At(old(book), c)
      ensures response.Refused? ==> book == old(book) && ticket == old(ticket) && StorePruned(State(), now)
      ensures ticket >= old(ticket) && (response.Granted? && plan != [] ==> old(ticket) <= token < ticket)
    {
      hide StoreOk, TokensIssued;
      token := ticket;
      FreshToken(State(), book, clock, ticket);
      if plan == [] {
        response := Granted([]);
        return;
      }
      Prune(now);
      PrunedStoreReportsUsage(State(), book, plan, now);
      ghost var used := UsedBy(book, plan, now);
      var observation := Observe(plan, now);
      var verdict := Decide(plan, observation, used, now);
      if verdict.Err? {
        response := Refused(WithObservedReset(verdict.error, observation), observation);
        ResetAt(plan, used, now, FirstBreach(plan, used).value, 0);
        assert observation[0..] == observation;
        return;
      }
      Grant(plan, token, now);
      response := Granted(Observe(plan, now));
    }

    /** The admission predicate on the ledger's own observation. */
    method Decide(plan: QuotaChargePlan, observation: seq<QuotaCounter>, ghost used: seq<nat>, ghost now: nat)
      returns (verdict: Result<(), QuotaBreach>)
      requires |used| == |plan| && StrictlyRanked(plan) && observation == ObservationOf(plan, used, now)
      ensures match FirstBreach(plan, used)
              case Some(i) => verdict == Err(BreachOf(plan[i]))
              case None => verdict.Ok?
    {
      hide StrictlyRanked, ObservationOf, Over;
      verdict := EvaluateQuotaPlan(plan, observation);
      EvaluationIsFirstBreach(plan, used, now);
    }

    /** Write every charge of an admitted plan. */
    method Grant(plan: QuotaChargePlan, token: Token, now: nat)
      requires Valid() && clock == now && Executable(plan) && token == ticket
      modifies this
      ensures Valid() && clock == now && ticket == token + 1
      ensures book == ChargeAll(old(book), plan, token, now, leaseTtl)
      ensures UsedNow(State(), plan) == Plus(UsedNow(old(State()), plan), SlotGains(plan))
    {
      hide StoreOk, TokensIssued;
      ghost var before := State();
      FreshToken(before, book, clock, token);
      ApplyAllOk(before, plan, token, now, leaseTtl, book);
      ApplyAllGains(before, plan, token, now, leaseTtl);
      ChargeAllIssues(book, plan, token, now, leaseTtl);
      ticket := ticket + 1;
      ApplyCharges(plan, token, now);
      book := ChargeAll(book, plan, token, now, leaseTtl);
    }

    method ApplyCharges(plan: QuotaChargePlan, token: Token, now: nat)
      modifies `events, `amounts, `totals, `inFlight
      ensures State() == ApplyAll(old(State()), plan, token, now, leaseTtl)
    {
      ghost var before := State();
      for i := 0 to |plan|
        invariant State() == ApplyAll(before, plan[..i], token, now, leaseTtl)
      {
        assert plan[..i + 1][..i] == plan[..i];
        ApplyCharge(plan[i], token, now);
      }
      assert plan[..|plan|] == plan;
    }

    method ApplyCharge(charge: QuotaCharge, token: Token, now: nat)
      modifies `events, `amounts, `totals, `inFlight
      ensures State() == Apply(old(State()), charge, token, now, leaseTtl)
    {
      var c := charge.counter;
      match c.window {
        case InFlight =>
          inFlight := inFlight[c := Get(inFlight, c, map[])[token := now + leaseTtl]];
        case Minute =>
          events := events[c := Get(events, c, []) + [(now + charge.windowMillis, token)]];
          amounts := amounts[(c, token) := charge.amount];
          totals := totals[c := Get(totals, c, 0) + charge.amount];
        case Day =>
          amounts := amounts[(c, token) := charge.amount];
          totals := totals[c := Get(totals, c, 0) + charge.amount];
      }
    }

    /** Replace the reserved token amounts with what was consumed. */
    method Settle(plan: QuotaChargePlan, token: Token, actual: nat)
      requires Valid()
      modifies `amounts, `totals, `book
      ensures Valid() && book == SettleAll(old(book), plan, token, actual)
    {
      hide StoreOk, TokensIssued;
      SettleEachOk(State(), plan, token, actual, book, clock);
      SettleAllIssues(book, plan, token, actual, ticket);
      SettleCharges(plan, token, actual);
      book := SettleAll(book, plan, token, actual);
    }

    method SettleCharges(plan: QuotaChargePlan, token: Token, actual: nat)
      modifies `amounts, `totals
      ensures State() == SettleEach(old(State()), plan, token, actual)
    {
      ghost var before := State();
      for i := 0 to |plan|
        invariant State() == SettleEach(before, plan[..i], token, actual)
      {
        assert plan[..i + 1][..i] == plan[..i];
        SettleCharge(plan[i], token, actual);
      }
      assert plan[..|plan|] == plan;
    }

    method SettleCharge(charge: QuotaCharge, token: Token, actual: nat)
      modifies `amounts, `totals
      ensures State() == SettleOne(old(State()), charge, token, actual)
    {
      var c := charge.counter;
      if c.dimension == QuotaPlanning.Tokens && (c, token) in amounts {
        var previous := amounts[(c, token)];
        amounts := amounts[(c, token) := actual];
        if c in totals {
          totals := totals[c := Minus(totals[c], previous) + actual];
        }
      }
    }

    /** Give the concurrency slots back; nothing else is refunded. */
    method Release(plan: QuotaChargePlan, token: Token)
      requires Valid()
      modifies `inFlight, `book
      ensures Valid() && book == ReleaseAll(old(book), plan, token)
    {
      hide StoreOk, TokensIssued;
      ReleaseEachOk(State(), plan, token, book, clock);
      ReleaseAllIssues(book, plan, token, ticket);
      ReleaseCharges(plan, token);
      book := ReleaseAll(book, plan, token);
    }

    method ReleaseCharges(plan: QuotaChargePlan, token: Token)
      modifies `inFlight
      ensures State() == ReleaseEach(old(State()), plan, token)
    {
      ghost var before := State();
      for i := 0 to |plan|
        invariant State() == ReleaseEach(before, plan[..i], token)
      {
        assert plan[..i + 1][..i] == plan[..i];
        ReleaseCharge(plan[i], token);
      }
      assert plan[..|plan|] == plan;
    }

    method ReleaseCharge(charge: QuotaCharge, token: Token)
      modifies `inFlight
      ensures State() == ReleaseOne(old(State()), charge, token)
    {
      var c := charge.counter;
      if c.window == InFlight && c in inFlight {
        var permits := inFlight[c] - {token};
        inFlight := if permits == map[] then inFlight - {c} else inFlight[c := permits];
      }
    }
  }

  lemma EmptyStoreOk()
    ensures StoreOk(Store(map[], map[], map[], map[]), map[], 0)
  {
    forall c: Counter
      ensures SlotOk(c.window, SlotAt(Store(map[], map[], map[], map[]), c), map[], 0)
    {
      assert AmountsAt(map[], c) == map[];
    }
  }

  lemma FreshToken(s: Store, book: Book, clock: nat, token: Token)
    requires StoreOk(s, book, clock) && TokensIssued(book, token)
    ensures forall c: Counter :: token !in At(book, c) && token !in Get(s.inFlight, c, map[])
  {
    forall c: Counter
      ensures token !in At(book, c) && token !in Get(s.inFlight, c, map[])
    {
      assert SlotOk(c.window, SlotAt(s, c), At(book, c), clock);
    }
  }

  ghost predicate PermitsPruned(inFlight: map<Counter, map<Token, nat>>, now: nat) {
    forall c: Counter, t :: c in inFlight && t in inFlight[c] ==> inFlight[c][t] > now
  }

  /** Only the queue of `key` changed, and only by dropping entries. */
  ghost predicate OnlyPops(before: map<Counter, Queue>, after: map<Counter, Queue>, key: Counter) {
    key in after && after == before[key := after[key]]
  }

  ghost predicate QueuesPruned(events: map<Counter, Queue>, pending: set<Counter>, now: nat) {
    forall c :: c in events && c !in pending ==> QueuePruned(events[c], now)
  }
}

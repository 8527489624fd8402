/** The Redis backend as an object: each Lua script is one atomic method that
    reads, decides and writes the keys in its passes. */
module RedisQuotaLedger {
  import opened Results
  import opened QuotaPlanning
  import opened QuotaBook
  import opened RedisQuota

  class RedisLedger {
    var events: map<Counter, map<Token, nat>>
    var amounts: map<Counter, map<Token, nat>>
    var totals: map<Counter, int>
    var deadlines: map<Counter, nat>
    const leaseTtl: nat
    ghost var book: Book
    ghost var clock: nat

    function State(): RedisStore
      reads this
    {
      RedisStore(events, amounts, totals, deadlines)
    }

    ghost predicate Valid()
      reads this
    {
      StoreOk(State(), book, clock) && Timely(State(), clock, leaseTtl) && UndatedIsEmpty(State())
    }

    constructor (leaseTtl: nat)
      ensures Valid() && book == map[] && clock == 0 && this.leaseTtl == leaseTtl
    {
      this.leaseTtl := leaseTtl;
      events, amounts, totals, deadlines := map[], map[], map[], map[];
      book, clock := map[], 0;
    }

    /** What the server does before a script runs: keys past their deadline are gone. */
    method Expire(now: nat)
      requires Valid() && clock <= now
      modifies `events, `amounts, `totals, `deadlines, `clock, `book
      ensures Valid() && clock == now && book == KeptBook(old(book), now)
    {
      hide StoreOk, Timely, UndatedIsEmpty, KeptBook;
      ExpireKeysOk(State(), book, clock, now);
      ExpireKeysTimely(State(), clock, now, leaseTtl);
      var kept := ExpireKeys(State(), now);
      events, amounts, totals, deadlines := kept.events, kept.amounts, kept.totals, kept.deadlines;
      clock, book := now, KeptBook(book, now);
    }

    /** RESERVE_PLAN: prune and read, decide, only then write. */
    method Reserve(plan: QuotaChargePlan, now: nat, token: Token) returns (response: Response)
      requires Valid() && Executable(plan) && clock <= now
      requires forall c: Counter :: token !in At(book, c)
      modifies this
      ensures Valid() && old(clock) <= clock <= now
      ensures response == Respond(plan, UsedBy(KeptBook(old(book), now), plan, now), now, AmountGains(plan))
      ensures response.Granted? ==>
                book == if plan == [] then old(book) else ChargeAll(KeptBook(old(book), now), plan, token, now, leaseTtl)
      ensures response.Refused? ==> book == KeptBook(old(book), now)
    {
      hide StoreOk, Timely, UndatedIsEmpty, KeptBook;
      if plan == [] {
        return Granted([]);
      }
      KeptHasNoOther(book, token, now);
      Expire(now);
      var used := PruneAndRead(plan, now);
      var breach := Decide(plan, used);
      if breach.Some? {
        var observation := ObservationOf(plan, used, now);
        ResetAt(plan, used, now, breach.value, 0);
        assert observation[0..] == observation;
        return Refused(WithObservedReset(BreachOf(plan[breach.value]), observation), observation);
      }
      ApplyCharges(plan, token, now);
      response := Granted(ObservationOf(plan, Plus(used, AmountGains(plan)), now));
    }

    /** Pass 1: drop the members that ended, then read every counter. */
    method PruneAndRead(plan: QuotaChargePlan, now: nat) returns (used: seq<nat>)
      requires Valid() && Executable(plan) && clock == now
      modifies `events, `amounts, `totals
      ensures Valid() && used == UsedBy(book, plan, now)
    {
      hide StoreOk, Timely, UndatedIsEmpty;
      used := [];
      for i := 0 to |plan|
        invariant Valid()
        invariant |used| == i && forall k :: 0 <= k < i ==> used[k] == UsedBy(book, plan, now)[k]
      {
        var amount := PruneAndReadCounter(plan[i].counter, now);
        used := used + [amount];
      }
    }

    method PruneAndReadCounter(c: Counter, now: nat) returns (used: nat)
      requires Valid() && clock == now
      modifies `events, `amounts, `totals
      ensures Valid() && used == Usage(c.window, At(book, c), now)
    {
      hide Timely, UndatedIsEmpty;
      assert SlotOk(c, SlotAt(State(), c), At(book, c), now);
      hide StoreOk, SlotOk;
      ghost var before := State();
      PrunedSlotReportsUsage(c, SlotAt(before, c), At(book, c), now);
      PrunedSlotOk(c, SlotAt(before, c), At(book, c), now);
      PruneCounter(c, now);
      ReplacedOk(before, State(), c, SlotAt(State(), c), book, book, At(book, c), now);
      PrunedIsTimely(before, State(), c, now, leaseTtl);
      used := if c.window == InFlight then |Get(events, c, map[])| else Get(totals, c, 0);
    }

    method PruneCounter(c: Counter, now: nat)
      requires UndatedIsEmpty(State())
      modifies `events, `amounts, `totals
      ensures Replaced(old(State()), State(), c, PrunedSlot(c, SlotAt(old(State()), c), now)) && UndatedIsEmpty(State())
    {
      hide UndatedIsEmpty, Replaced, PrunedSlot, SlotAt, Ended;
      PrunedSlotParts(c, SlotAt(State(), c), now);
      ReplacedByItself(State(), c);
      match c.window {
        case InFlight => DropEnded(c, now);
        case Minute => ForgetAndDrop(c, now);
        case Day =>
      }
    }

    method ForgetAndDrop(c: Counter, now: nat)
      requires UndatedIsEmpty(State()) && c.window == Minute
      modifies `events, `amounts, `totals
      ensures UndatedIsEmpty(State())
      ensures var ended := Ended(c, SlotAt(old(State()), c).events, now);
              var kept := ForgottenSlot(SlotAt(old(State()), c), ended);
              Replaced(old(State()), State(), c, kept.(events := kept.events - ended))
    {
      ghost var before := State();
      var ended := Ended(c, Get(events, c, map[]), now);
      assert ended == Ended(c, SlotAt(before, c).events, now);
      hide UndatedIsEmpty, Replaced, SlotAt, Ended;
      ForgetMembers(c, ended);
      ghost var forgotten := State();
      ghost var kept := ForgottenSlot(SlotAt(before, c), ended);
      ReplacedAt(before, forgotten, c, kept);
      DropEnded(c, now);
      ReplacedTwice(before, forgotten, State(), c, kept, kept.(events := kept.events - ended));
    }

    method ForgetMembers(c: Counter, ended: set<Token>)
      requires UndatedIsEmpty(State())
      modifies `amounts, `totals
      ensures Replaced(old(State()), State(), c, ForgottenSlot(SlotAt(old(State()), c), ended)) && UndatedIsEmpty(State())
    {
      hide UndatedIsEmpty, Replaced, SlotAt, ForgottenSlot;
      ghost var before, slot := State(), SlotAt(State(), c);
      ReplacedByItself(before, c);
      var pending := ended;
      assert ended - pending == {};
      while pending != {}
        invariant pending <= ended && UndatedIsEmpty(State())
        invariant Replaced(before, State(), c, ForgottenSlot(slot, ended - pending))
      {
        var member :| member in pending;
        ghost var current := State();
        assert ended - (pending - {member}) == ended - pending + {member};
        ForgetMember(c, member);
        ForgottenFurther(before, current, State(), c, slot, ended - pending, member);
        pending := pending - {member};
      }
      assert ended - pending == ended;
    }

    /** HGET, DECRBY when positive, HDEL. */
    method ForgetMember(c: Counter, member: Token)
      requires UndatedIsEmpty(State())
      modifies `amounts, `totals
      ensures UndatedIsEmpty(State())
      ensures var slot := SlotAt(old(State()), c);
              Replaced(old(State()), State(), c,
                       slot.(amounts := slot.amounts - {member}, total := slot.total - AmountOf(slot.amounts, member)))
    {
      var amount := AmountOf(Get(amounts, c, map[]), member);
      if amount > 0 {
        totals := totals[c := Get(totals, c, 0) - amount];
      }
      if c in amounts {
        amounts := amounts[c := amounts[c] - {member}];
      }
    }

    /** ZREMRANGEBYSCORE. */
    method DropEnded(c: Counter, now: nat)
      requires UndatedIsEmpty(State())
      modifies `events
      ensures UndatedIsEmpty(State())
      ensures var slot := SlotAt(old(State()), c);
              Replaced(old(State()), State(), c, slot.(events := slot.events - Ended(c, slot.events, now)))
    {
      RemoveMembers(c, Ended(c, Get(events, c, map[]), now));
    }

    /** ZREM. */
    method RemoveMembers(c: Counter, members: set<Token>)
      requires UndatedIsEmpty(State())
      modifies `events
      ensures UndatedIsEmpty(State())
      ensures Replaced(old(State()), State(), c, SlotAt(old(State()), c).(events := SlotAt(old(State()), c).events - members))
    {
      if c in events {
        events := events[c := events[c] - members];
      }
    }

    /** Pass 2: the first charge that does not fit, before any write. */
    method Decide(plan: QuotaChargePlan, used: seq<nat>) returns (breach: Option<nat>)
      requires |used| == |plan|
      ensures breach == FirstBreach(plan, used)
    {
      var i := 0;
      while i < |plan|
        invariant i <= |plan| && FirstBreach(plan, used) == FirstBreachFrom(plan, used, i)
      {
        if used[i] + plan[i].amount > plan[i].limit {
          return Some(i);
        }
        i := i + 1;
      }
      return None;
    }

    /** Pass 3: write every charge of the admitted plan. */
    method ApplyCharges(plan: QuotaChargePlan, token: Token, now: nat)
      requires Valid() && Executable(plan) && clock == now
      requires forall c: Counter :: token !in At(book, c)
      modifies `events, `amounts, `totals, `deadlines, `book
      ensures Valid() && book == ChargeAll(old(book), plan, token, now, leaseTtl)
    {
      hide StoreOk, Timely, UndatedIsEmpty;
      ghost var before := book;
      for i := 0 to |plan|
        invariant Valid() && book == ChargeAll(before, plan[..i], token, now, leaseTtl)
      {
        assert plan[..i + 1][..i] == plan[..i];
        forall k | 0 <= k < i
          ensures plan[..i][k].counter != plan[i].counter
        {
          DistinctCounters(plan, k, i);
        }
        ChargeAllElsewhere(before, plan[..i], token, now, leaseTtl, plan[i].counter);
        ApplyCharge(plan[i], token, now);
      }
      assert plan[..|plan|] == plan;
    }

    method ApplyCharge(charge: QuotaCharge, token: Token, now: nat)
      requires Valid() && Shaped(charge) && clock == now
      requires token !in At(book, charge.counter)
      modifies `events, `amounts, `totals, `deadlines, `book
      ensures Valid() && book == Charged(old(book), charge, token, now, leaseTtl)
    {
      hide UndatedIsEmpty;
      var c := charge.counter;
      ghost var before := State();
      assert SlotOk(c, SlotAt(before, c), At(book, c), now);
      assert NothingLater(c, SlotAt(before, c), now, leaseTtl);
      hide StoreOk, Timely, SlotOk, NothingLater;
      AppliedSlotOk(charge, SlotAt(before, c), At(book, c), token, now, leaseTtl);
      WriteCharge(charge, token, now);
      ghost var slot := AppliedSlot(charge, SlotAt(before, c), token, now, leaseTtl);
      ghost var charged := Charged(book, charge, token, now, leaseTtl);
      ReplacedOk(before, State(), c, slot, book, charged, At(charged, c), now);
      ReplacedTimely(before, State(), c, slot, now, leaseTtl);
      book := charged;
    }

    method WriteCharge(charge: QuotaCharge, token: Token, now: nat)
      requires UndatedIsEmpty(State())
      modifies `events, `amounts, `totals, `deadlines
      ensures UndatedIsEmpty(State())
      ensures Replaced(old(State()), State(), charge.counter,
                       AppliedSlot(charge, SlotAt(old(State()), charge.counter), token, now, leaseTtl))
    {
      hide UndatedIsEmpty, Replaced, AppliedSlot;
      var c := charge.counter;
      if c.window == InFlight {
        LeaseWritten(State(), charge, token, now, leaseTtl);
        events := events[c := Get(events, c, map[])[token := now + leaseTtl]];
        deadlines := deadlines[c := now + leaseTtl * 2];
      } else {
        ChargeWritten(State(), charge, token, now, leaseTtl);
        if c.window == Minute {
          events := events[c := Get(events, c, map[])[token := now]];
        }
        amounts := amounts[c := Get(amounts, c, map[])[token := charge.amount]];
        totals := totals[c := Get(totals, c, 0) + charge.amount];
        deadlines := deadlines[c := now + charge.windowMillis * 2];
      }
    }

    /** SETTLE_PLAN over the token charges of the plan. */
    method Settle(plan: QuotaChargePlan, token: Token, actual: nat, now: nat)
      requires Valid() && clock <= now
      modifies this
      ensures Valid() && clock == now && book == SettleAll(KeptBook(old(book), now), plan, token, actual)
    {
      hide StoreOk, Timely, UndatedIsEmpty;
      Expire(now);
      ghost var before := book;
      for i := 0 to |plan|
        invariant Valid() && clock == now && book == SettleAll(before, plan[..i], token, actual)
      {
        assert plan[..i + 1][..i] == plan[..i];
        SettleCharge(plan[i], token, actual);
      }
      assert plan[..|plan|] == plan;
    }

    method SettleCharge(charge: QuotaCharge, token: Token, actual: nat)
      requires Valid()
      modifies `amounts, `totals, `book
      ensures Valid() && book == Settled(old(book), charge, token, actual)
    {
      hide UndatedIsEmpty;
      var c := charge.counter;
      ghost var before := State();
      assert SlotOk(c, SlotAt(before, c), At(book, c), clock);
      assert NothingLater(c, SlotAt(before, c), clock, leaseTtl);
      hide StoreOk, Timely, SlotOk;
      SettledSlotOk(charge, SlotAt(before, c), At(book, c), clock, token, actual);
      WriteSettled(charge, token, actual);
      ghost var slot := SettledSlot(charge, SlotAt(before, c), token, actual);
      ghost var settled := Settled(book, charge, token, actual);
      ReplacedOk(before, State(), c, slot, book, settled, At(settled, c), clock);
      ReplacedTimely(before, State(), c, slot, clock, leaseTtl);
      book := settled;
    }

    method WriteSettled(charge: QuotaCharge, token: Token, actual: nat)
      requires UndatedIsEmpty(State())
      modifies `amounts, `totals
      ensures UndatedIsEmpty(State())
      ensures Replaced(old(State()), State(), charge.counter,
                       SettledSlot(charge, SlotAt(old(State()), charge.counter), token, actual))
    {
      var c := charge.counter;
      if c.dimension == QuotaPlanning.Tokens && token in Get(amounts, c, map[]) {
        totals := totals[c := Get(totals, c, 0) + (actual - amounts[c][token])];
        var hash: map<Token, nat> := amounts[c][token := actual];
        amounts := amounts[c := hash];
      }
    }

    /** RELEASE_PLAN over the in-flight charges of the plan. */
    method Release(plan: QuotaChargePlan, token: Token, now: nat)
      requires Valid() && clock <= now
      modifies this
      ensures Valid() && clock == now && book == ReleaseAll(KeptBook(old(book), now), plan, token)
    {
      hide StoreOk, Timely, UndatedIsEmpty;
      Expire(now);
      ghost var before := book;
      for i := 0 to |plan|
        invariant Valid() && clock == now && book == ReleaseAll(before, plan[..i], token)
      {
        assert plan[..i + 1][..i] == plan[..i];
        ReleaseCharge(plan[i], token);
      }
      assert plan[..|plan|] == plan;
    }

    method ReleaseCharge(charge: QuotaCharge, token: Token)
      requires Valid()
      modifies `events, `book
      ensures Valid() && book == Released(old(book), charge, token)
    {
      hide UndatedIsEmpty;
      var c := charge.counter;
      ghost var before := State();
      assert SlotOk(c, SlotAt(before, c), At(book, c), clock);
      assert NothingLater(c, SlotAt(before, c), clock, leaseTtl);
      hide StoreOk, Timely, SlotOk;
      ReleasedSlotOk(charge, SlotAt(before, c), At(book, c), clock, token);
      if c.window == InFlight {
        RemoveMembers(c, {token});
        ghost var slot := ReleasedSlot(charge, SlotAt(before, c), token);
        ghost var released := Released(book, charge, token);
        assert At(released, c) == At(book, c) - {token};
        ReplacedOk(before, State(), c, slot, book, released, At(released, c), clock);
        ReplacedTimely(before, State(), c, slot, clock, leaseTtl);
        book := released;
      }
    }
  }

  lemma KeptHasNoOther(book: Book, token: Token, now: nat)
    requires forall c: Counter :: token !in At(book, c)
    ensures forall c: Counter :: token !in At(KeptBook(book, now), c)
  {
    forall c: Counter
      ensures token !in At(KeptBook(book, now), c)
    {
      KeptAt(book, c, now);
    }
  }
}

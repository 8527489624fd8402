/** The in-memory scoped quota ledger: expiry queues, per-token amounts and
    running totals updated in place, proved to report what the book says. */
module MemoryQuota {
  import opened Arithmetic
  import opened Sums
  import opened QuotaPlanning
  import opened QuotaBook

  type Queue = seq<(nat, Token)>

  datatype Store = Store(
    events: map<Counter, Queue>,
    amounts: map<(Counter, Token), nat>,
    totals: map<Counter, nat>,
    inFlight: map<Counter, map<Token, nat>>)

  /** Everything the store holds about one counter. */
  datatype Slot = Slot(queue: Queue, amounts: map<Token, nat>, total: nat, inFlight: map<Token, nat>)

  function Get<V>(m: map<Counter, V>, c: Counter, default: V): V {
    if c in m then m[c] else default
  }

  ghost function AmountsAt(amounts: map<(Counter, Token), nat>, c: Counter): map<Token, nat> {
    map p | p in amounts && p.0 == c :: p.1 := amounts[p]
  }

  ghost function SlotAt(s: Store, c: Counter): Slot {
    Slot(Get(s.events, c, []), AmountsAt(s.amounts, c), Get(s.totals, c, 0), Get(s.inFlight, c, map[]))
  }

  // The invariant, one counter at a time.

  ghost function QueuedTokens(queue: Queue): set<Token> {
    set i | 0 <= i < |queue| :: queue[i].1
  }

  /** Expiries never decrease towards the back and no token is queued twice. */
  ghost predicate QueueOrdered(queue: Queue) {
    forall i, j :: 0 <= i < j < |queue| ==> queue[i].0 <= queue[j].0 && queue[i].1 != queue[j].1
  }

  /** The queued expiries are the book's, none later than a window from now. */
  ghost predicate QueueOk(queue: Queue, entries: Entries, clock: nat) {
    QueueOrdered(queue)
    && forall i :: 0 <= i < |queue| ==>
         queue[i].0 <= clock + MINUTE_WINDOW_MILLIS && queue[i].1 in entries && entries[queue[i].1].expires == queue[i].0
  }

  /** The stored amounts are the book's, and nothing live is missing. */
  ghost predicate AmountsOk(amounts: map<Token, nat>, entries: Entries, clock: nat) {
    (forall t :: t in amounts ==> t in entries && amounts[t] == entries[t].amount)
    && (forall t :: t in entries && entries[t].expires > clock ==> t in amounts)
  }

  ghost predicate MinuteOk(slot: Slot, entries: Entries, clock: nat) {
    && QueueOk(slot.queue, entries, clock)
    && AmountsOk(slot.amounts, entries, clock)
    && slot.amounts.Keys == QueuedTokens(slot.queue)
    && slot.total == Sum(slot.amounts)
    && slot.inFlight == map[]
  }

  ghost predicate DayOk(slot: Slot, entries: Entries) {
    && slot.queue == [] && slot.inFlight == map[]
    && slot.amounts.Keys == entries.Keys
    && (forall t :: t in entries ==> slot.amounts[t] == entries[t].amount)
    && slot.total == Sum(slot.amounts)
  }

  ghost predicate InFlightOk(slot: Slot, entries: Entries, clock: nat) {
    && slot.queue == [] && slot.amounts == map[] && slot.total == 0
    && (forall t :: t in slot.inFlight ==> t in entries && entries[t].expires == slot.inFlight[t])
    && (forall t :: t in entries && entries[t].expires > clock ==> t in slot.inFlight)
  }

  ghost predicate SlotOk(window: Window, slot: Slot, entries: Entries, clock: nat) {
    match window
    case Minute => MinuteOk(slot, entries, clock)
    case Day => DayOk(slot, entries)
    case InFlight => InFlightOk(slot, entries, clock)
  }

  /** The store holds nothing that has expired. */
  ghost predicate Pruned(window: Window, slot: Slot, now: nat) {
    (forall i :: 0 <= i < |slot.queue| ==> slot.queue[i].0 > now)
    && (forall t :: t in slot.inFlight ==> slot.inFlight[t] > now)
  }

  function UsedIn(window: Window, slot: Slot): nat {
    if window == InFlight then |slot.inFlight| else slot.total
  }

  /** After pruning, the running totals are exactly the book's usage. */
  lemma PrunedSlotReportsUsage(window: Window, slot: Slot, entries: Entries, now: nat)
    requires SlotOk(window, slot, entries, now) && Pruned(window, slot, now)
    ensures UsedIn(window, slot) == Usage(window, entries, now)
  {
    match window
    case InFlight =>
      assert slot.inFlight.Keys == LiveEntries(window, entries, now).Keys;
      assert |slot.inFlight| == |slot.inFlight.Keys|;
      assert |LiveEntries(window, entries, now)| == |LiveEntries(window, entries, now).Keys|;
    case Minute =>
      forall t
        ensures t in slot.amounts <==> t in LiveAmounts(window, entries, now)
      {
        if t in slot.amounts {
          var i :| 0 <= i < |slot.queue| && slot.queue[i].1 == t;
        }
      }
      assert slot.amounts == LiveAmounts(window, entries, now);
    case Day =>
      assert slot.amounts == LiveAmounts(window, entries, now);
  }

  // Single updates of a slot.

  lemma PopTokens(queue: Queue)
    requires QueueOrdered(queue) && queue != []
    ensures QueuedTokens(queue[1..]) == QueuedTokens(queue) - {queue[0].1} && queue[0].1 in QueuedTokens(queue)
  {
    forall t | t in QueuedTokens(queue) && t != queue[0].1
      ensures t in QueuedTokens(queue[1..])
    {
      var i :| 0 <= i < |queue| && queue[i].1 == t;
      assert queue[1..][i - 1].1 == t;
    }
  }

  lemma PopQueue(queue: Queue, entries: Entries, clock: nat)
    requires QueueOk(queue, entries, clock) && queue != []
    ensures QueueOk(queue[1..], entries, clock)
  {
  }

  /** Popping the expired front entry and forgetting its amount. */
  lemma PopKeepsSlot(slot: Slot, entries: Entries, clock: nat)
    requires MinuteOk(slot, entries, clock) && slot.queue != [] && slot.queue[0].0 <= clock
    ensures slot.queue[0].1 in slot.amounts && slot.amounts[slot.queue[0].1] <= slot.total
    ensures var t := slot.queue[0].1;
            MinuteOk(slot.(queue := slot.queue[1..], amounts := slot.amounts - {t}, total := slot.total - slot.amounts[t]),
                     entries, clock)
  {
    PopTokens(slot.queue);
    PopQueue(slot.queue, entries, clock);
    SumRemove(slot.amounts, slot.queue[0].1);
  }

  lemma PushTokens(queue: Queue, e: (nat, Token))
    ensures QueuedTokens(queue + [e]) == QueuedTokens(queue) + {e.1}
  {
    var pushed := queue + [e];
    assert pushed[|queue|] == e;
    forall t | t in QueuedTokens(queue)
      ensures t in QueuedTokens(pushed)
    {
      var i :| 0 <= i < |queue| && queue[i].1 == t;
      assert pushed[i].1 == t;
    }
  }

  lemma PushQueue(queue: Queue, entries: Entries, now: nat, token: Token, amount: nat)
    requires QueueOk(queue, entries, now) && token !in entries
    ensures QueueOk(queue + [(now + MINUTE_WINDOW_MILLIS, token)],
                    entries[token := Entry(now + MINUTE_WINDOW_MILLIS, amount)], now)
  {
  }

  lemma PushKeepsSlot(slot: Slot, entries: Entries, now: nat, token: Token, amount: nat)
    requires MinuteOk(slot, entries, now) && token !in entries
    ensures MinuteOk(slot.(queue := slot.queue + [(now + MINUTE_WINDOW_MILLIS, token)],
                           amounts := slot.amounts[token := amount], total := slot.total + amount),
                     entries[token := Entry(now + MINUTE_WINDOW_MILLIS, amount)], now)
  {
    hide QueueOk, QueuedTokens;
    SumSet(slot.amounts, token, amount);
    PushTokens(slot.queue, (now + MINUTE_WINDOW_MILLIS, token));
    PushQueue(slot.queue, entries, now, token, amount);
  }

  lemma SettleKeepsSlot(window: Window, slot: Slot, entries: Entries, clock: nat, token: Token, actual: nat)
    requires window != InFlight && SlotOk(window, slot, entries, clock) && token in entries
    ensures token in slot.amounts ==> slot.amounts[token] <= slot.total
    ensures SlotOk(window,
                   if token in slot.amounts
                   then slot.(amounts := slot.amounts[token := actual], total := slot.total - slot.amounts[token] + actual)
                   else slot,
                   entries[token := entries[token].(amount := actual)], clock)
  {
    SumSet(slot.amounts, token, actual);
  }

  lemma {:induction false} ClockAdvances(window: Window, slot: Slot, entries: Entries, clock: nat, now: nat)
    requires SlotOk(window, slot, entries, clock) && clock <= now
    ensures SlotOk(window, slot, entries, now)
  {
  }

  // Updates of the store reach one slot.

  lemma AmountsSet(amounts: map<(Counter, Token), nat>, c: Counter, t: Token, v: nat, d: Counter)
    ensures AmountsAt(amounts[(c, t) := v], d) == (if d == c then AmountsAt(amounts, d)[t := v] else AmountsAt(amounts, d))
  {
    assert (d, t) in amounts[(c, t) := v] || d != c;
  }

  lemma AmountsRemoved(amounts: map<(Counter, Token), nat>, c: Counter, t: Token, d: Counter)
    ensures AmountsAt(amounts - {(c, t)}, d) == (if d == c then AmountsAt(amounts, d) - {t} else AmountsAt(amounts, d))
  {
  }

  lemma AmountsLookup(amounts: map<(Counter, Token), nat>, c: Counter, t: Token)
    ensures (c, t) in amounts <==> t in AmountsAt(amounts, c)
    ensures (c, t) in amounts ==> amounts[(c, t)] == AmountsAt(amounts, c)[t]
  {
  }

  // Updates of the whole store.

  /** Every counter is in order, and every amount belongs to a kept total. */
  ghost predicate StoreOk(s: Store, book: Book, clock: nat) {
    && (forall c: Counter :: SlotOk(c.window, SlotAt(s, c), At(book, c), clock))
    && forall p :: p in s.amounts ==> p.0 in s.totals
  }

  function SubtractTotal(totals: map<Counter, nat>, c: Counter, amount: nat): map<Counter, nat> {
    if c in totals then totals[c := Minus(totals[c], amount)] else totals
  }

  /** Drop the front of one queue together with its amount. */
  function PopFront(s: Store, c: Counter): Store
    requires c in s.events && s.events[c] != []
  {
    var t := s.events[c][0].1;
    var amount := if (c, t) in s.amounts then s.amounts[(c, t)] else 0;
    Store(s.events[c := s.events[c][1..]], s.amounts - {(c, t)}, SubtractTotal(s.totals, c, amount), s.inFlight)
  }

  lemma PopFrontAt(s: Store, c: Counter, entries: Entries, now: nat)
    requires c in s.events && s.events[c] != [] && s.events[c][0].0 <= now
    requires SlotOk(c.window, SlotAt(s, c), entries, now)
    ensures SlotOk(c.window, SlotAt(PopFront(s, c), c), entries, now)
  {
    hide MinuteOk;
    var t := s.events[c][0].1;
    var slot := SlotAt(s, c);
    PopKeepsSlot(slot, entries, now);
    AmountsLookup(s.amounts, c, t);
    AmountsRemoved(s.amounts, c, t, c);
    assert SlotAt(PopFront(s, c), c)
           == slot.(queue := slot.queue[1..], amounts := slot.amounts - {t}, total := slot.total - slot.amounts[t]);
  }

  lemma PopFrontElsewhere(s: Store, c: Counter, d: Counter)
    requires c in s.events && s.events[c] != [] && c != d
    ensures SlotAt(PopFront(s, c), d) == SlotAt(s, d)
  {
    AmountsRemoved(s.amounts, c, s.events[c][0].1, d);
  }

  lemma PopFrontOk(s: Store, c: Counter, book: Book, now: nat)
    requires StoreOk(s, book, now) && c in s.events && s.events[c] != [] && s.events[c][0].0 <= now
    ensures StoreOk(PopFront(s, c), book, now)
  {
    forall d: Counter
      ensures SlotOk(d.window, SlotAt(PopFront(s, c), d), At(book, d), now)
    {
      assert SlotOk(d.window, SlotAt(s, d), At(book, d), now);
      if d == c {
        PopFrontAt(s, c, At(book, c), now);
      } else {
        PopFrontElsewhere(s, c, d);
      }
    }
  }

  function LivePermits(permits: map<Token, nat>, now: nat): map<Token, nat> {
    map t | t in permits && permits[t] > now :: permits[t]
  }

  /** Age out permits past their lease deadline, dropping empty counters. */
  function RetainLive(inFlight: map<Counter, map<Token, nat>>, now: nat): map<Counter, map<Token, nat>> {
    map c | c in inFlight && LivePermits(inFlight[c], now) != map[] :: LivePermits(inFlight[c], now)
  }

  lemma RetainLiveAt(inFlight: map<Counter, map<Token, nat>>, c: Counter, now: nat)
    ensures Get(RetainLive(inFlight, now), c, map[]) == LivePermits(Get(inFlight, c, map[]), now)
  {
  }

  lemma RetainedAreLive(inFlight: map<Counter, map<Token, nat>>, now: nat)
    ensures forall c: Counter, t :: c in RetainLive(inFlight, now) && t in RetainLive(inFlight, now)[c] ==>
                                      RetainLive(inFlight, now)[c][t] > now
  {
  }

  lemma RetainLiveSlot(window: Window, slot: Slot, entries: Entries, clock: nat, now: nat)
    requires SlotOk(window, slot, entries, clock) && clock <= now
    ensures SlotOk(window, slot.(inFlight := LivePermits(slot.inFlight, now)), entries, now)
  {
    ClockAdvances(window, slot, entries, clock, now);
  }

  lemma RetainLiveOk(s: Store, book: Book, clock: nat, now: nat)
    requires StoreOk(s, book, clock) && clock <= now
    ensures StoreOk(s.(inFlight := RetainLive(s.inFlight, now)), book, now)
    ensures forall c: Counter, t :: c in RetainLive(s.inFlight, now) && t in RetainLive(s.inFlight, now)[c] ==>
                                      RetainLive(s.inFlight, now)[c][t] > now
  {
    hide SlotOk, LivePermits;
    var s' := s.(inFlight := RetainLive(s.inFlight, now));
    forall c: Counter
      ensures SlotOk(c.window, SlotAt(s', c), At(book, c), now)
    {
      assert SlotOk(c.window, SlotAt(s, c), At(book, c), clock);
      RetainLiveAt(s.inFlight, c, now);
      RetainLiveSlot(c.window, SlotAt(s, c), At(book, c), clock, now);
    }
    RetainedAreLive(s.inFlight, now);
  }

  ghost predicate QueuePruned(queue: Queue, now: nat) {
    queue == [] || queue[0].0 > now
  }

  /** No queue starts with an expired entry and no expired permit is left. */
  ghost predicate StorePruned(s: Store, now: nat) {
    (forall c: Counter :: c in s.events ==> QueuePruned(s.events[c], now))
    && forall c: Counter, t :: c in s.inFlight && t in s.inFlight[c] ==> s.inFlight[c][t] > now
  }

  ghost function UsedNow(s: Store, plan: QuotaChargePlan): seq<nat> {
    seq(|plan|, i requires 0 <= i < |plan| => UsedIn(plan[i].counter.window, SlotAt(s, plan[i].counter)))
  }

  lemma SortedQueuePruned(queue: Queue, now: nat)
    requires QueueOrdered(queue) && QueuePruned(queue, now)
    ensures forall i :: 0 <= i < |queue| ==> queue[i].0 > now
  {
  }

  lemma PrunedStoreReportsAt(s: Store, book: Book, c: Counter, now: nat)
    requires SlotOk(c.window, SlotAt(s, c), At(book, c), now) && StorePruned(s, now)
    ensures UsedIn(c.window, SlotAt(s, c)) == Usage(c.window, At(book, c), now)
  {
    if c.window == Minute {
      SortedQueuePruned(SlotAt(s, c).queue, now);
    }
    PrunedSlotReportsUsage(c.window, SlotAt(s, c), At(book, c), now);
  }

  /** What a pruned store reports is the book's usage at that moment. */
  lemma PrunedStoreReportsUsage(s: Store, book: Book, plan: QuotaChargePlan, now: nat)
    requires StoreOk(s, book, now) && StorePruned(s, now)
    ensures UsedNow(s, plan) == UsedBy(book, plan, now)
  {
    forall i | 0 <= i < |plan|
      ensures UsedNow(s, plan)[i] == UsedBy(book, plan, now)[i]
    {
      var c := plan[i].counter;
      assert SlotOk(c.window, SlotAt(s, c), At(book, c), now);
      PrunedStoreReportsAt(s, book, c, now);
    }
  }

  /** Record one charge of an admitted plan. */
  function Apply(s: Store, charge: QuotaCharge, token: Token, now: nat, leaseTtl: nat): Store {
    var c := charge.counter;
    match c.window
    case InFlight =>
      s.(inFlight := s.inFlight[c := Get(s.inFlight, c, map[])[token := now + leaseTtl]])
    case Minute =>
      s.(events := s.events[c := Get(s.events, c, []) + [(now + charge.windowMillis, token)]],
         amounts := s.amounts[(c, token) := charge.amount],
         totals := s.totals[c := Get(s.totals, c, 0) + charge.amount])
    case Day =>
      s.(amounts := s.amounts[(c, token) := charge.amount],
         totals := s.totals[c := Get(s.totals, c, 0) + charge.amount])
  }

  function Gain(charge: QuotaCharge): nat {
    if charge.counter.window == InFlight then 1 else charge.amount
  }

  /** The slot of the charged counter after the charge. */
  ghost function ChargedSlot(slot: Slot, charge: QuotaCharge, token: Token, now: nat, leaseTtl: nat): Slot {
    match charge.counter.window
    case InFlight => slot.(inFlight := slot.inFlight[token := now + leaseTtl])
    case Minute =>
      slot.(queue := slot.queue + [(now + charge.windowMillis, token)],
            amounts := slot.amounts[token := charge.amount], total := slot.total + charge.amount)
    case Day => slot.(amounts := slot.amounts[token := charge.amount], total := slot.total + charge.amount)
  }

  lemma ApplySlots(s: Store, charge: QuotaCharge, token: Token, now: nat, leaseTtl: nat, d: Counter)
    ensures SlotAt(Apply(s, charge, token, now, leaseTtl), d)
            == if d == charge.counter then ChargedSlot(SlotAt(s, d), charge, token, now, leaseTtl) else SlotAt(s, d)
  {
    hide AmountsAt;
    if charge.counter.window != InFlight {
      AmountsSet(s.amounts, charge.counter, token, charge.amount, d);
    }
  }

  lemma LeaseKeepsSlot(slot: Slot, entries: Entries, now: nat, token: Token, expires: nat, amount: nat)
    requires InFlightOk(slot, entries, now) && token !in entries
    ensures InFlightOk(slot.(inFlight := slot.inFlight[token := expires]), entries[token := Entry(expires, amount)], now)
  {
  }

  lemma DayKeepsSlot(slot: Slot, entries: Entries, token: Token, e: Entry)
    requires DayOk(slot, entries) && token !in entries
    ensures DayOk(slot.(amounts := slot.amounts[token := e.amount], total := slot.total + e.amount), entries[token := e])
  {
    SumSet(slot.amounts, token, e.amount);
  }

  lemma ChargedSlotOk(slot: Slot, charge: QuotaCharge, token: Token, now: nat, leaseTtl: nat, entries: Entries)
    requires Shaped(charge) && token !in entries && SlotOk(charge.counter.window, slot, entries, now)
    ensures SlotOk(charge.counter.window, ChargedSlot(slot, charge, token, now, leaseTtl),
                   entries[token := Entry(ExpiryOf(charge, now, leaseTtl), charge.amount)], now)
  {
    hide MinuteOk, DayOk, InFlightOk;
    match charge.counter.window
    case InFlight => LeaseKeepsSlot(slot, entries, now, token, now + leaseTtl, charge.amount);
    case Minute => PushKeepsSlot(slot, entries, now, token, charge.amount);
    case Day => DayKeepsSlot(slot, entries, token, Entry(ExpiryOf(charge, now, leaseTtl), charge.amount));
  }

  lemma ChargedSlotGains(slot: Slot, charge: QuotaCharge, token: Token, now: nat, leaseTtl: nat)
    requires token !in slot.inFlight
    ensures UsedIn(charge.counter.window, ChargedSlot(slot, charge, token, now, leaseTtl))
            == UsedIn(charge.counter.window, slot) + Gain(charge)
  {
    var permits := slot.inFlight[token := now + leaseTtl];
    assert permits.Keys == slot.inFlight.Keys + {token};
    assert |permits| == |permits.Keys| && |slot.inFlight| == |slot.inFlight.Keys|;
  }

  lemma ChargedAt(book: Book, charge: QuotaCharge, token: Token, now: nat, leaseTtl: nat, d: Counter)
    ensures At(Charged(book, charge, token, now, leaseTtl), d)
            == if d == charge.counter then At(book, d)[token := Entry(ExpiryOf(charge, now, leaseTtl), charge.amount)] else At(book, d)
  {
  }

  lemma ApplyTotals(s: Store, charge: QuotaCharge, token: Token, now: nat, leaseTtl: nat)
    requires forall p :: p in s.amounts ==> p.0 in s.totals
    ensures var after := Apply(s, charge, token, now, leaseTtl); forall p :: p in after.amounts ==> p.0 in after.totals
  {
  }

  lemma ApplyOk(s: Store, charge: QuotaCharge, token: Token, now: nat, leaseTtl: nat, book: Book)
    requires StoreOk(s, book, now) && Shaped(charge) && token !in At(book, charge.counter)
    ensures StoreOk(Apply(s, charge, token, now, leaseTtl), Charged(book, charge, token, now, leaseTtl), now)
  {
    hide SlotOk, ChargedSlot, Apply, SlotAt, Charged;
    ApplyTotals(s, charge, token, now, leaseTtl);
    var book' := Charged(book, charge, token, now, leaseTtl);
    forall d: Counter
      ensures SlotOk(d.window, SlotAt(Apply(s, charge, token, now, leaseTtl), d), At(book', d), now)
    {
      assert SlotOk(d.window, SlotAt(s, d), At(book, d), now);
      ApplySlots(s, charge, token, now, leaseTtl, d);
      ChargedAt(book, charge, token, now, leaseTtl, d);
      if d == charge.counter {
        ChargedSlotOk(SlotAt(s, d), charge, token, now, leaseTtl, At(book, d));
      }
    }
  }

  function ApplyAll(s: Store, plan: QuotaChargePlan, token: Token, now: nat, leaseTtl: nat): Store {
    if plan == [] then s
    else
      var n := |plan| - 1;
      Apply(ApplyAll(s, plan[..n], token, now, leaseTtl), plan[n], token, now, leaseTtl)
  }

  lemma ExecutablePrefix(plan: QuotaChargePlan, n: nat)
    requires Executable(plan) && n <= |plan|
    ensures Executable(plan[..n])
  {
  }

  lemma {:induction false} ApplyAllOk(s: Store, plan: QuotaChargePlan, token: Token, now: nat, leaseTtl: nat, book: Book)
    requires StoreOk(s, book, now) && Executable(plan) && forall c: Counter :: token !in At(book, c)
    ensures StoreOk(ApplyAll(s, plan, token, now, leaseTtl), ChargeAll(book, plan, token, now, leaseTtl), now)
  {
    if plan != [] {
      var n := |plan| - 1;
      ExecutablePrefix(plan, n);
      ApplyAllOk(s, plan[..n], token, now, leaseTtl, book);
      forall k | 0 <= k < n
        ensures plan[..n][k].counter != plan[n].counter
      {
        DistinctCounters(plan, k, n);
      }
      ChargeAllElsewhere(book, plan[..n], token, now, leaseTtl, plan[n].counter);
      ApplyOk(ApplyAll(s, plan[..n], token, now, leaseTtl), plan[n], token, now, leaseTtl,
              ChargeAll(book, plan[..n], token, now, leaseTtl));
    }
  }

  lemma {:induction false} ApplyAllElsewhere(s: Store, plan: QuotaChargePlan, token: Token, now: nat, leaseTtl: nat, d: Counter)
    requires forall i :: 0 <= i < |plan| ==> plan[i].counter != d
    ensures SlotAt(ApplyAll(s, plan, token, now, leaseTtl), d) == SlotAt(s, d)
  {
    if plan != [] {
      var n := |plan| - 1;
      ApplyAllElsewhere(s, plan[..n], token, now, leaseTtl, d);
      ApplySlots(ApplyAll(s, plan[..n], token, now, leaseTtl), plan[n], token, now, leaseTtl, d);
    }
  }

  lemma ApplyAllGainsAt(s: Store, plan: QuotaChargePlan, token: Token, now: nat, leaseTtl: nat, i: nat)
    requires StrictlyRanked(plan) && i < |plan| && token !in SlotAt(s, plan[i].counter).inFlight
    ensures UsedIn(plan[i].counter.window, SlotAt(ApplyAll(s, plan, token, now, leaseTtl), plan[i].counter))
            == UsedIn(plan[i].counter.window, SlotAt(s, plan[i].counter)) + Gain(plan[i])
  {
    ApplyAllAt(s, plan, token, now, leaseTtl, i);
    ChargedSlotGains(SlotAt(s, plan[i].counter), plan[i], token, now, leaseTtl);
  }

  /** After all charges each counter reports exactly its own gain. */
  lemma ApplyAllGains(s: Store, plan: QuotaChargePlan, token: Token, now: nat, leaseTtl: nat)
    requires StrictlyRanked(plan) && forall c: Counter :: token !in Get(s.inFlight, c, map[])
    ensures UsedNow(ApplyAll(s, plan, token, now, leaseTtl), plan) == Plus(UsedNow(s, plan), SlotGains(plan))
  {
    hide ApplyAll, UsedIn, StrictlyRanked;
    var after, before, gains := UsedNow(ApplyAll(s, plan, token, now, leaseTtl), plan), UsedNow(s, plan), SlotGains(plan);
    forall i | 0 <= i < |plan|
      ensures after[i] == Plus(before, gains)[i]
    {
      ApplyAllGainsAt(s, plan, token, now, leaseTtl, i);
    }
    assert |after| == |Plus(before, gains)|;
  }

  lemma {:induction false} ApplyAllAt(s: Store, plan: QuotaChargePlan, token: Token, now: nat, leaseTtl: nat, i: nat)
    requires StrictlyRanked(plan) && i < |plan|
    ensures SlotAt(ApplyAll(s, plan, token, now, leaseTtl), plan[i].counter)
            == ChargedSlot(SlotAt(s, plan[i].counter), plan[i], token, now, leaseTtl)
  {
    var n := |plan| - 1;
    var before := ApplyAll(s, plan[..n], token, now, leaseTtl);
    ApplySlots(before, plan[n], token, now, leaseTtl, plan[i].counter);
    if i < n {
      ApplyAllAt(s, plan[..n], token, now, leaseTtl, i);
      DistinctCounters(plan, i, n);
    } else {
      forall k | 0 <= k < n
        ensures plan[..n][k].counter != plan[n].counter
      {
        DistinctCounters(plan, k, n);
      }
      ApplyAllElsewhere(s, plan[..n], token, now, leaseTtl, plan[n].counter);
    }
  }

  /** Replace a reserved token amount, if it is still held. */
  function SettleOne(s: Store, charge: QuotaCharge, token: Token, actual: nat): Store {
    var c := charge.counter;
    if c.dimension == Tokens && (c, token) in s.amounts then
      s.(amounts := s.amounts[(c, token) := actual],
         totals := if c in s.totals then s.totals[c := Minus(s.totals[c], s.amounts[(c, token)]) + actual] else s.totals)
    else s
  }

  lemma SettleOneSlots(s: Store, charge: QuotaCharge, token: Token, actual: nat, d: Counter)
    requires forall p :: p in s.amounts ==> p.0 in s.totals
    requires (charge.counter, token) in s.amounts ==> s.amounts[(charge.counter, token)] <= Get(s.totals, charge.counter, 0)
    ensures var slot := SlotAt(s, d);
            SlotAt(SettleOne(s, charge, token, actual), d)
            == if d == charge.counter && d.dimension == Tokens && token in slot.amounts
               then slot.(amounts := slot.amounts[token := actual], total := slot.total - slot.amounts[token] + actual)
               else slot
  {
    AmountsLookup(s.amounts, charge.counter, token);
    AmountsSet(s.amounts, charge.counter, token, actual, d);
  }

  lemma SettleOneHit(s: Store, charge: QuotaCharge, token: Token, actual: nat, entries: Entries, clock: nat)
    requires forall p :: p in s.amounts ==> p.0 in s.totals
    requires charge.counter.window != InFlight && charge.counter.dimension == Tokens && token in entries
    requires SlotOk(charge.counter.window, SlotAt(s, charge.counter), entries, clock)
    ensures SlotOk(charge.counter.window, SlotAt(SettleOne(s, charge, token, actual), charge.counter),
                   entries[token := entries[token].(amount := actual)], clock)
  {
    var slot := SlotAt(s, charge.counter);
    AmountsLookup(s.amounts, charge.counter, token);
    SettleKeepsSlot(charge.counter.window, slot, entries, clock, token, actual);
    SettleOneSlots(s, charge, token, actual, charge.counter);
  }

  lemma SettleOneAt(s: Store, charge: QuotaCharge, token: Token, actual: nat, entries: Entries, clock: nat)
    requires forall p :: p in s.amounts ==> p.0 in s.totals
    requires SlotOk(charge.counter.window, SlotAt(s, charge.counter), entries, clock)
    ensures SlotOk(charge.counter.window, SlotAt(SettleOne(s, charge, token, actual), charge.counter),
                   if IsSettled(charge) && token in entries then entries[token := entries[token].(amount := actual)] else entries,
                   clock)
  {
    AmountsLookup(s.amounts, charge.counter, token);
    if IsSettled(charge) && token in entries {
      SettleOneHit(s, charge, token, actual, entries, clock);
    } else {
      assert SettleOne(s, charge, token, actual) == s;
    }
  }

  lemma SettleOneElsewhere(s: Store, charge: QuotaCharge, token: Token, actual: nat, book: Book, d: Counter)
    requires d != charge.counter
    ensures SlotAt(SettleOne(s, charge, token, actual), d) == SlotAt(s, d)
    ensures At(Settled(book, charge, token, actual), d) == At(book, d)
  {
    AmountsSet(s.amounts, charge.counter, token, actual, d);
  }

  lemma SettleOneSlotOk(s: Store, charge: QuotaCharge, token: Token, actual: nat, book: Book, clock: nat, d: Counter)
    requires StoreOk(s, book, clock)
    ensures SlotOk(d.window, SlotAt(SettleOne(s, charge, token, actual), d), At(Settled(book, charge, token, actual), d), clock)
  {
    assert SlotOk(d.window, SlotAt(s, d), At(book, d), clock);
    if d == charge.counter {
      SettleOneAt(s, charge, token, actual, At(book, d), clock);
    } else {
      SettleOneElsewhere(s, charge, token, actual, book, d);
    }
  }

  lemma SettleOneOk(s: Store, charge: QuotaCharge, token: Token, actual: nat, book: Book, clock: nat)
    requires StoreOk(s, book, clock)
    ensures StoreOk(SettleOne(s, charge, token, actual), Settled(book, charge, token, actual), clock)
  {
    forall d: Counter
      ensures SlotOk(d.window, SlotAt(SettleOne(s, charge, token, actual), d), At(Settled(book, charge, token, actual), d), clock)
    {
      SettleOneSlotOk(s, charge, token, actual, book, clock, d);
    }
  }

  function SettleEach(s: Store, plan: QuotaChargePlan, token: Token, actual: nat): Store {
    if plan == [] then s
    else SettleOne(SettleEach(s, plan[..|plan| - 1], token, actual), plan[|plan| - 1], token, actual)
  }

  lemma {:induction false} SettleEachOk(s: Store, plan: QuotaChargePlan, token: Token, actual: nat, book: Book, clock: nat)
    requires StoreOk(s, book, clock)
    ensures StoreOk(SettleEach(s, plan, token, actual), SettleAll(book, plan, token, actual), clock)
  {
    if plan != [] {
      var rest := plan[..|plan| - 1];
      SettleEachOk(s, rest, token, actual, book, clock);
      SettleOneOk(SettleEach(s, rest, token, actual), plan[|plan| - 1], token, actual, SettleAll(book, rest, token, actual), clock);
    }
  }

  /** Give one concurrency slot back. */
  function ReleaseOne(s: Store, charge: QuotaCharge, token: Token): Store {
    var c := charge.counter;
    if c.window == InFlight && c in s.inFlight then
      var permits := s.inFlight[c] - {token};
      s.(inFlight := if permits == map[] then s.inFlight - {c} else s.inFlight[c := permits])
    else s
  }

  lemma ReleaseOneSlots(s: Store, charge: QuotaCharge, token: Token, d: Counter)
    ensures SlotAt(ReleaseOne(s, charge, token), d)
            == if d == charge.counter && d.window == InFlight
               then SlotAt(s, d).(inFlight := SlotAt(s, d).inFlight - {token}) else SlotAt(s, d)
  {
  }

  lemma ReleaseKeepsSlot(slot: Slot, entries: Entries, clock: nat, token: Token)
    requires InFlightOk(slot, entries, clock)
    ensures InFlightOk(slot.(inFlight := slot.inFlight - {token}), entries - {token}, clock)
  {
  }

  lemma ReleaseOneSlotOk(s: Store, charge: QuotaCharge, token: Token, book: Book, clock: nat, d: Counter)
    requires SlotOk(d.window, SlotAt(s, d), At(book, d), clock)
    ensures SlotOk(d.window, SlotAt(ReleaseOne(s, charge, token), d), At(Released(book, charge, token), d), clock)
  {
    ReleaseOneSlots(s, charge, token, d);
    if d == charge.counter && d.window == InFlight {
      assert At(Released(book, charge, token), d) == At(book, d) - {token};
      ReleaseKeepsSlot(SlotAt(s, d), At(book, d), clock, token);
    }
  }

  lemma ReleaseOneOk(s: Store, charge: QuotaCharge, token: Token, book: Book, clock: nat)
    requires StoreOk(s, book, clock)
    ensures StoreOk(ReleaseOne(s, charge, token), Released(book, charge, token), clock)
  {
    forall d: Counter
      ensures SlotOk(d.window, SlotAt(ReleaseOne(s, charge, token), d), At(Released(book, charge, token), d), clock)
    {
      assert SlotOk(d.window, SlotAt(s, d), At(book, d), clock);
      ReleaseOneSlotOk(s, charge, token, book, clock, d);
    }
  }

  function ReleaseEach(s: Store, plan: QuotaChargePlan, token: Token): Store {
    if plan == [] then s
    else ReleaseOne(ReleaseEach(s, plan[..|plan| - 1], token), plan[|plan| - 1], token)
  }

  lemma {:induction false} ReleaseEachOk(s: Store, plan: QuotaChargePlan, token: Token, book: Book, clock: nat)
    requires StoreOk(s, book, clock)
    ensures StoreOk(ReleaseEach(s, plan, token), ReleaseAll(book, plan, token), clock)
  {
    if plan != [] {
      var rest := plan[..|plan| - 1];
      ReleaseEachOk(s, rest, token, book, clock);
      ReleaseOneOk(ReleaseEach(s, rest, token), plan[|plan| - 1], token, ReleaseAll(book, rest, token), clock);
    }
  }
}

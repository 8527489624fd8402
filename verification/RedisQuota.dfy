/** The Redis side of the scoped quota ledger as data: sorted sets, hashes,
    counters and key deadlines, one invariant per counter. */
module RedisQuota {
  import opened Sums
  import opened QuotaPlanning
  import opened QuotaBook

  /** `events`, `amounts` and `total` of a counter are always given the same time
      to live, so one deadline per counter describes all three keys. */
  datatype RedisStore = RedisStore(
    events: map<Counter, map<Token, nat>>,
    amounts: map<Counter, map<Token, nat>>,
    totals: map<Counter, int>,
    deadlines: map<Counter, nat>)

  datatype RedisSlot = RedisSlot(events: map<Token, nat>, amounts: map<Token, nat>, total: int, deadline: nat)

  /** A missing key reads as empty, or zero. */
  function Get<V>(m: map<Counter, V>, c: Counter, default: V): V {
    if c in m then m[c] else default
  }

  function SlotAt(s: RedisStore, c: Counter): RedisSlot {
    RedisSlot(Get(s.events, c, map[]), Get(s.amounts, c, map[]), Get(s.totals, c, 0), Get(s.deadlines, c, 0))
  }

  const Empty := RedisSlot(map[], map[], 0, 0)

  ghost predicate AmountsOk(amounts: map<Token, nat>, entries: Entries, clock: nat) {
    (forall t :: t in amounts ==> t in entries && amounts[t] == entries[t].amount)
    && (forall t :: t in entries && entries[t].expires > clock ==> t in amounts)
  }

  /** Members are scored with the time they were granted; the keys outlive every
      member by a full window. */
  ghost predicate MinuteOk(slot: RedisSlot, entries: Entries, clock: nat) {
    && slot.amounts.Keys == slot.events.Keys
    && AmountsOk(slot.amounts, entries, clock)
    && (forall t :: t in slot.events ==> t in entries && entries[t].expires == slot.events[t] + MINUTE_WINDOW_MILLIS)
    && (forall t :: t in slot.events ==> slot.events[t] + MINUTE_WINDOW_MILLIS <= slot.deadline)
    && slot.total == Sum(slot.amounts)
  }

  /** Members are scored with the moment their lease ends. */
  ghost predicate InFlightOk(slot: RedisSlot, entries: Entries, clock: nat) {
    && slot.amounts == map[] && slot.total == 0
    && (forall t :: t in slot.events ==> t in entries && entries[t].expires == slot.events[t] <= slot.deadline)
    && (forall t :: t in entries && entries[t].expires > clock ==> t in slot.events)
  }

  /** The keys of a day counter outlive its latest grant by two days. */
  ghost predicate DayKept(entries: Entries, now: nat) {
    entries == map[] || exists t :: t in entries && now <= entries[t].expires + DAY_WINDOW_MILLIS
  }

  ghost predicate DayInStep(slot: RedisSlot, entries: Entries) {
    && slot.events == map[]
    && slot.amounts.Keys == entries.Keys
    && (forall t :: t in entries ==> slot.amounts[t] == entries[t].amount)
    && slot.total == Sum(slot.amounts)
    && (forall t :: t in entries ==> entries[t].expires + DAY_WINDOW_MILLIS <= slot.deadline)
    && (entries != map[] ==> exists t :: t in entries && entries[t].expires + DAY_WINDOW_MILLIS == slot.deadline)
  }

  ghost predicate DayOk(slot: RedisSlot, entries: Entries, clock: nat) {
    && (forall t :: t in entries ==> entries[t].expires <= clock + DAY_WINDOW_MILLIS)
    && DayInStep(slot, entries)
  }

  ghost predicate SlotOk(c: Counter, slot: RedisSlot, entries: Entries, clock: nat) {
    match c.window
    case Minute => MinuteOk(slot, entries, clock)
    case InFlight => InFlightOk(slot, entries, clock)
    case Day => DayOk(slot, entries, clock)
  }

  ghost predicate StoreOk(s: RedisStore, book: Book, clock: nat) {
    forall c: Counter :: SlotOk(c, SlotAt(s, c), At(book, c), clock)
  }

  /** No day counter of the plan was left alone for more than two days since its latest grant. */
  ghost predicate Remembered(book: Book, plan: QuotaChargePlan, now: nat) {
    forall i :: 0 <= i < |plan| ==> StillKept(plan[i].counter, At(book, plan[i].counter), now)
  }

  /** What the server still has of a book: a day counter's entries go all at once. */
  ghost function KeptEntries(c: Counter, entries: Entries, now: nat): Entries {
    if StillKept(c, entries, now) then entries else map[]
  }

  ghost function KeptBook(book: Book, now: nat): Book {
    map c | c in book :: KeptEntries(c, book[c], now)
  }

  lemma KeptAt(book: Book, c: Counter, now: nat)
    ensures At(KeptBook(book, now), c) == KeptEntries(c, At(book, c), now)
  {
  }

  ghost predicate StillKept(c: Counter, entries: Entries, now: nat) {
    c.window == Day ==> DayKept(entries, now)
  }

  // Key expiry.

  function ExpireKeys(s: RedisStore, now: nat): RedisStore {
    var gone := set c | c in s.deadlines && s.deadlines[c] < now;
    RedisStore(s.events - gone, s.amounts - gone, s.totals - gone, s.deadlines - gone)
  }

  lemma ExpiredSlotOk(c: Counter, slot: RedisSlot, entries: Entries, clock: nat, now: nat)
    requires SlotOk(c, slot, entries, clock) && clock <= now
    ensures SlotOk(c, if slot.deadline < now then Empty else slot, KeptEntries(c, entries, now), now)
  {
    var none: map<Token, nat> := map[];
    assert Sum(none) == 0;
    if c.window == Day && entries != map[] {
      var t :| t in entries && entries[t].expires + DAY_WINDOW_MILLIS == slot.deadline;
      assert slot.deadline < now <==> !DayKept(entries, now);
    }
  }

  /** Dropping keys whose time to live ran out loses nothing that counts. */
  lemma ExpireKeysOk(s: RedisStore, book: Book, clock: nat, now: nat)
    requires StoreOk(s, book, clock) && clock <= now && UndatedIsEmpty(s)
    ensures StoreOk(ExpireKeys(s, now), KeptBook(book, now), now) && UndatedIsEmpty(ExpireKeys(s, now))
  {
    hide SlotOk, KeptEntries, KeptBook;
    forall c: Counter
      ensures SlotOk(c, SlotAt(ExpireKeys(s, now), c), At(KeptBook(book, now), c), now)
    {
      KeptAt(book, c, now);
      ExpiredSlotAt(s, c, now);
      ExpiredSlotOk(c, SlotAt(s, c), At(book, c), clock, now);
    }
  }

  lemma ExpiredSlotAt(s: RedisStore, c: Counter, now: nat)
    requires UndatedIsEmpty(s)
    ensures SlotAt(ExpireKeys(s, now), c) == if SlotAt(s, c).deadline < now then Empty else SlotAt(s, c)
  {
  }

  /** Every key has a deadline. */
  ghost predicate UndatedIsEmpty(s: RedisStore) {
    forall c: Counter :: c !in s.deadlines ==> c !in s.events && c !in s.amounts && c !in s.totals
  }

  // The reserve script, one counter at a time.

  /** Members that ended by `now`. */
  function Ended(c: Counter, members: map<Token, nat>, now: nat): set<Token> {
    set t | t in members && members[t] + (if c.window == Minute then MINUTE_WINDOW_MILLIS else 0) <= now
  }

  ghost function Restrict(m: map<Token, nat>, keys: set<Token>): map<Token, nat> {
    map t | t in m && t in keys :: m[t]
  }

  /** Pass 1 on one counter: drop the members that ended, with their amounts. */
  ghost function PrunedSlot(c: Counter, slot: RedisSlot, now: nat): RedisSlot {
    var ended := Ended(c, slot.events, now);
    match c.window
    case InFlight => slot.(events := slot.events - ended)
    case Minute =>
      slot.(events := slot.events - ended, amounts := slot.amounts - ended,
            total := slot.total - Sum(Restrict(slot.amounts, ended)))
    case Day => slot
  }

  lemma RestrictMinus(m: map<Token, nat>, keys: set<Token>, t: Token)
    requires t in m && t in keys
    ensures t in Restrict(m, keys) && Restrict(m, keys)[t] == m[t]
    ensures Restrict(m - {t}, keys) == Restrict(m, keys) - {t} && m - {t} - keys == m - keys
  {
  }

  lemma PrunedSlotParts(c: Counter, slot: RedisSlot, now: nat)
    ensures PrunedSlot(c, slot, now)
            == if c.window == Day then slot
               else
                 var ended := Ended(c, slot.events, now);
                 var kept := if c.window == Minute then ForgottenSlot(slot, ended) else slot;
                 kept.(events := kept.events - ended)
  {
  }

  lemma NothingToRestrict(m: map<Token, nat>, keys: set<Token>)
    requires m.Keys !! keys
    ensures Restrict(m, keys) == map[] && m - keys == m
  {
  }

  lemma {:induction false} SumSplits(m: map<Token, nat>, keys: set<Token>)
    ensures Sum(m) == Sum(Restrict(m, keys)) + Sum(m - keys)
    decreases |m|
  {
    if t :| t in m && t in keys {
      hide Restrict, Sum;
      RestrictMinus(m, keys, t);
      SumRemove(m, t);
      SumRemove(Restrict(m, keys), t);
      SumSplits(m - {t}, keys);
    } else {
      NothingToRestrict(m, keys);
    }
  }

  function Used(window: Window, slot: RedisSlot): int {
    if window == InFlight then |slot.events| else slot.total
  }

  lemma PrunedSlotOk(c: Counter, slot: RedisSlot, entries: Entries, now: nat)
    requires SlotOk(c, slot, entries, now)
    ensures SlotOk(c, PrunedSlot(c, slot, now), entries, now)
  {
    if c.window == Minute {
      SumSplits(slot.amounts, Ended(c, slot.events, now));
    }
  }

  lemma PrunedSetReports(c: Counter, slot: RedisSlot, entries: Entries, now: nat)
    requires c.window == InFlight && InFlightOk(slot, entries, now)
    ensures |PrunedSlot(c, slot, now).events| == |LiveEntries(c.window, entries, now)|
  {
    var events, live := PrunedSlot(c, slot, now).events, LiveEntries(c.window, entries, now);
    assert events.Keys == live.Keys;
    assert |events| == |events.Keys| && |live| == |live.Keys|;
  }

  lemma PrunedTotalReports(c: Counter, slot: RedisSlot, entries: Entries, now: nat)
    requires c.window == Minute && MinuteOk(PrunedSlot(c, slot, now), entries, now)
    ensures PrunedSlot(c, slot, now).total == Sum(LiveAmounts(c.window, entries, now))
  {
    hide Sum;
    assert PrunedSlot(c, slot, now).amounts == LiveAmounts(c.window, entries, now);
  }

  lemma DayTotalReports(slot: RedisSlot, entries: Entries, now: nat)
    requires DayInStep(slot, entries)
    ensures slot.total == Sum(LiveAmounts(Day, entries, now))
  {
    hide Sum;
    assert slot.amounts == LiveAmounts(Day, entries, now);
  }

  lemma PrunedSlotReportsUsage(c: Counter, slot: RedisSlot, entries: Entries, now: nat)
    requires SlotOk(c, slot, entries, now)
    ensures Used(c.window, PrunedSlot(c, slot, now)) == Usage(c.window, entries, now)
  {
    PrunedSlotOk(c, slot, entries, now);
    hide MinuteOk, InFlightOk, DayInStep, LiveEntries, LiveAmounts, Sum, Ended, Restrict;
    match c.window
    case InFlight => PrunedSetReports(c, slot, entries, now);
    case Minute => PrunedTotalReports(c, slot, entries, now);
    case Day => DayTotalReports(slot, entries, now);
  }

  /** Pass 3 on one counter. */
  function AppliedSlot(charge: QuotaCharge, slot: RedisSlot, token: Token, now: nat, leaseTtl: nat): RedisSlot {
    match charge.counter.window
    case InFlight =>
      slot.(events := slot.events[token := now + leaseTtl], deadline := now + leaseTtl * 2)
    case Minute =>
      slot.(events := slot.events[token := now], amounts := slot.amounts[token := charge.amount],
            total := slot.total + charge.amount, deadline := now + charge.windowMillis * 2)
    case Day =>
      slot.(amounts := slot.amounts[token := charge.amount],
            total := slot.total + charge.amount, deadline := now + charge.windowMillis * 2)
  }

  lemma AppliedMinuteOk(charge: QuotaCharge, slot: RedisSlot, entries: Entries, token: Token, now: nat, leaseTtl: nat)
    requires Shaped(charge) && charge.counter.window == Minute && token !in entries
    requires MinuteOk(slot, entries, now) && NothingLater(charge.counter, slot, now, leaseTtl)
    ensures MinuteOk(AppliedSlot(charge, slot, token, now, leaseTtl),
                     entries[token := Entry(ExpiryOf(charge, now, leaseTtl), charge.amount)], now)
  {
    hide Sum;
    SumSet(slot.amounts, token, charge.amount);
  }

  lemma AppliedDayOk(charge: QuotaCharge, slot: RedisSlot, entries: Entries, token: Token, now: nat, leaseTtl: nat)
    requires Shaped(charge) && charge.counter.window == Day && token !in entries
    requires DayOk(slot, entries, now)
    ensures DayOk(AppliedSlot(charge, slot, token, now, leaseTtl),
                  entries[token := Entry(ExpiryOf(charge, now, leaseTtl), charge.amount)], now)
  {
    hide Sum;
    SumSet(slot.amounts, token, charge.amount);
    var charged := entries[token := Entry(ExpiryOf(charge, now, leaseTtl), charge.amount)];
    assert token in charged && charged[token].expires == now + DAY_WINDOW_MILLIS;
  }

  lemma AppliedSlotOk(charge: QuotaCharge, slot: RedisSlot, entries: Entries, token: Token, now: nat, leaseTtl: nat)
    requires Shaped(charge) && token !in entries
    requires SlotOk(charge.counter, slot, entries, now) && NothingLater(charge.counter, slot, now, leaseTtl)
    ensures SlotOk(charge.counter, AppliedSlot(charge, slot, token, now, leaseTtl),
                   entries[token := Entry(ExpiryOf(charge, now, leaseTtl), charge.amount)], now)
    ensures NothingLater(charge.counter, AppliedSlot(charge, slot, token, now, leaseTtl), now, leaseTtl)
  {
    hide MinuteOk, DayOk;
    match charge.counter.window
    case InFlight =>
    case Minute => AppliedMinuteOk(charge, slot, entries, token, now, leaseTtl);
    case Day => AppliedDayOk(charge, slot, entries, token, now, leaseTtl);
  }

  /** A day counter charged at `at` and looked at later: the keys report the reference's
      usage exactly while they are kept, which is for two days, or when there is none. */
  lemma WhenDayIsForgotten(charge: QuotaCharge, slot: RedisSlot, entries: Entries, token: Token, at: nat, leaseTtl: nat, now: nat)
    requires Shaped(charge) && charge.counter.window == Day && token !in entries && at <= now
    requires DayOk(slot, entries, at)
    ensures var charged := entries[token := Entry(ExpiryOf(charge, at, leaseTtl), charge.amount)];
            var written := AppliedSlot(charge, slot, token, at, leaseTtl);
            (DayKept(charged, now) <==> now <= at + 2 * DAY_WINDOW_MILLIS)
            && (Used(Day, if written.deadline < now then Empty else written) == Usage(Day, charged, now)
                <==> DayKept(charged, now) || Usage(Day, charged, now) == 0)
  {
    var e := Entry(ExpiryOf(charge, at, leaseTtl), charge.amount);
    var charged := entries[token := e];
    assert token in charged && charged[token] == e;
    SumSet(slot.amounts, token, charge.amount);
    assert LiveAmounts(Day, charged, now) == slot.amounts[token := charge.amount];
  }

  /** No member was granted after `now`, so a fresh deadline covers them all. */
  ghost predicate NothingLater(c: Counter, slot: RedisSlot, now: nat, leaseTtl: nat) {
    forall t :: t in slot.events ==> slot.events[t] <= now + (if c.window == InFlight then leaseTtl else 0)
  }

  // The other two scripts.

  /** A live reservation is corrected; a missing one is left alone. */
  function SettledSlot(charge: QuotaCharge, slot: RedisSlot, token: Token, actual: nat): RedisSlot {
    if charge.counter.dimension == Tokens && token in slot.amounts
    then slot.(amounts := slot.amounts[token := actual], total := slot.total + actual - slot.amounts[token])
    else slot
  }

  lemma SettledDayOk(charge: QuotaCharge, slot: RedisSlot, entries: Entries, clock: nat, token: Token, actual: nat)
    requires charge.counter.window == Day && charge.counter.dimension == Tokens && token in entries
    requires DayOk(slot, entries, clock)
    ensures DayOk(SettledSlot(charge, slot, token, actual), entries[token := entries[token].(amount := actual)], clock)
  {
    hide Sum;
    SumSet(slot.amounts, token, actual);
    var latest :| latest in entries && entries[latest].expires + DAY_WINDOW_MILLIS == slot.deadline;
    var settled := entries[token := entries[token].(amount := actual)];
    assert latest in settled && settled[latest].expires == entries[latest].expires;
  }

  lemma SettledSlotOk(charge: QuotaCharge, slot: RedisSlot, entries: Entries, clock: nat, token: Token, actual: nat)
    requires SlotOk(charge.counter, slot, entries, clock)
    ensures SlotOk(charge.counter, SettledSlot(charge, slot, token, actual),
                   if IsSettled(charge) && token in entries then entries[token := entries[token].(amount := actual)] else entries,
                   clock)
  {
    if charge.counter.window == Day {
      if charge.counter.dimension == Tokens && token in entries {
        SettledDayOk(charge, slot, entries, clock, token, actual);
      }
    } else {
      SumSet(slot.amounts, token, actual);
    }
  }

  function ReleasedSlot(charge: QuotaCharge, slot: RedisSlot, token: Token): RedisSlot {
    if charge.counter.window == InFlight then slot.(events := slot.events - {token}) else slot
  }

  lemma ReleasedSlotOk(charge: QuotaCharge, slot: RedisSlot, entries: Entries, clock: nat, token: Token)
    requires SlotOk(charge.counter, slot, entries, clock)
    ensures SlotOk(charge.counter, ReleasedSlot(charge, slot, token),
                   if charge.counter.window == InFlight then entries - {token} else entries, clock)
  {
  }

  // From one slot to the whole store.

  /** s' is s with the slot of c replaced. */
  ghost predicate Replaced(s: RedisStore, s': RedisStore, c: Counter, slot: RedisSlot) {
    forall d: Counter :: SlotAt(s', d) == if d == c then slot else SlotAt(s, d)
  }

  lemma LeaseWritten(s: RedisStore, charge: QuotaCharge, token: Token, now: nat, leaseTtl: nat)
    requires UndatedIsEmpty(s) && charge.counter.window == InFlight
    ensures var c := charge.counter;
            var s' := s.(events := s.events[c := Get(s.events, c, map[])[token := now + leaseTtl]],
                         deadlines := s.deadlines[c := now + leaseTtl * 2]);
            UndatedIsEmpty(s') && Replaced(s, s', c, AppliedSlot(charge, SlotAt(s, c), token, now, leaseTtl))
  {
  }

  lemma ChargeWritten(s: RedisStore, charge: QuotaCharge, token: Token, now: nat, leaseTtl: nat)
    requires UndatedIsEmpty(s) && charge.counter.window != InFlight
    ensures var c := charge.counter;
            var s' := s.(events := if c.window == Minute then s.events[c := Get(s.events, c, map[])[token := now]] else s.events,
                         amounts := s.amounts[c := Get(s.amounts, c, map[])[token := charge.amount]],
                         totals := s.totals[c := Get(s.totals, c, 0) + charge.amount],
                         deadlines := s.deadlines[c := now + charge.windowMillis * 2]);
            UndatedIsEmpty(s') && Replaced(s, s', c, AppliedSlot(charge, SlotAt(s, c), token, now, leaseTtl))
  {
  }

  /** b' is b with the entries of c replaced. */
  ghost predicate Rewritten(b: Book, b': Book, c: Counter, entries: Entries) {
    forall d: Counter :: At(b', d) == if d == c then entries else At(b, d)
  }

  lemma ReplacedOk(s: RedisStore, s': RedisStore, c: Counter, slot: RedisSlot, b: Book, b': Book, entries: Entries, clock: nat)
    requires StoreOk(s, b, clock) && Replaced(s, s', c, slot) && Rewritten(b, b', c, entries)
    requires SlotOk(c, slot, entries, clock)
    ensures StoreOk(s', b', clock)
  {
    hide SlotOk;
    forall d: Counter
      ensures SlotOk(d, SlotAt(s', d), At(b', d), clock)
    {
      assert SlotOk(d, SlotAt(s, d), At(b, d), clock);
    }
  }

  /** No member of any counter was granted after `clock`. */
  ghost predicate Timely(s: RedisStore, clock: nat, leaseTtl: nat) {
    forall c: Counter :: NothingLater(c, SlotAt(s, c), clock, leaseTtl)
  }

  lemma ReplacedTimely(s: RedisStore, s': RedisStore, c: Counter, slot: RedisSlot, clock: nat, leaseTtl: nat)
    requires Timely(s, clock, leaseTtl) && Replaced(s, s', c, slot) && NothingLater(c, slot, clock, leaseTtl)
    ensures Timely(s', clock, leaseTtl)
  {
    hide NothingLater;
    forall d: Counter
      ensures NothingLater(d, SlotAt(s', d), clock, leaseTtl)
    {
      assert NothingLater(d, SlotAt(s, d), clock, leaseTtl);
    }
  }

  lemma ExpireKeysTimely(s: RedisStore, clock: nat, now: nat, leaseTtl: nat)
    requires Timely(s, clock, leaseTtl) && clock <= now
    ensures Timely(ExpireKeys(s, now), now, leaseTtl)
  {
    forall c: Counter
      ensures NothingLater(c, SlotAt(ExpireKeys(s, now), c), now, leaseTtl)
    {
      assert NothingLater(c, SlotAt(s, c), clock, leaseTtl);
    }
  }

  lemma PrunedIsTimely(s: RedisStore, s': RedisStore, c: Counter, now: nat, leaseTtl: nat)
    requires Timely(s, now, leaseTtl) && Replaced(s, s', c, PrunedSlot(c, SlotAt(s, c), now))
    ensures Timely(s', now, leaseTtl)
  {
    assert NothingLater(c, SlotAt(s, c), now, leaseTtl);
    ReplacedTimely(s, s', c, PrunedSlot(c, SlotAt(s, c), now), now, leaseTtl);
  }

  /** The slot midway through pass 1, with the amounts of `forgotten` dropped. */
  ghost function ForgottenSlot(slot: RedisSlot, forgotten: set<Token>): RedisSlot {
    slot.(amounts := slot.amounts - forgotten, total := slot.total - Sum(Restrict(slot.amounts, forgotten)))
  }

  function AmountOf(amounts: map<Token, nat>, t: Token): nat {
    if t in amounts then amounts[t] else 0
  }

  lemma ForgetOneMore(slot: RedisSlot, forgotten: set<Token>, t: Token)
    requires t !in forgotten
    ensures var before := ForgottenSlot(slot, forgotten);
            ForgottenSlot(slot, forgotten + {t})
            == before.(amounts := before.amounts - {t}, total := before.total - AmountOf(before.amounts, t))
  {
    var all := Restrict(slot.amounts, forgotten + {t});
    assert slot.amounts - (forgotten + {t}) == slot.amounts - forgotten - {t};
    if t in slot.amounts {
      SumRemove(all, t);
      assert all - {t} == Restrict(slot.amounts, forgotten);
    } else {
      assert all == Restrict(slot.amounts, forgotten);
    }
  }

  lemma ReplacedByItself(s: RedisStore, c: Counter)
    ensures Replaced(s, s, c, SlotAt(s, c)) && ForgottenSlot(SlotAt(s, c), {}) == SlotAt(s, c)
  {
    var slot := SlotAt(s, c);
    assert Restrict(slot.amounts, {}) == map[];
    assert slot.amounts - {} == slot.amounts;
  }

  lemma ReplacedAt(s: RedisStore, s': RedisStore, c: Counter, slot: RedisSlot)
    requires Replaced(s, s', c, slot)
    ensures SlotAt(s', c) == slot
  {
  }

  lemma ReplacedTwice(s0: RedisStore, s1: RedisStore, s2: RedisStore, c: Counter, a: RedisSlot, b: RedisSlot)
    requires Replaced(s0, s1, c, a) && Replaced(s1, s2, c, b)
    ensures Replaced(s0, s2, c, b)
  {
  }

  lemma ForgottenFurther(
    s0: RedisStore, s1: RedisStore, s2: RedisStore, c: Counter, slot: RedisSlot, forgotten: set<Token>, t: Token)
    requires t !in forgotten && Replaced(s0, s1, c, ForgottenSlot(slot, forgotten))
    requires Replaced(s1, s2, c, SlotAt(s1, c).(amounts := SlotAt(s1, c).amounts - {t},
                                                total := SlotAt(s1, c).total - AmountOf(SlotAt(s1, c).amounts, t)))
    ensures Replaced(s0, s2, c, ForgottenSlot(slot, forgotten + {t}))
  {
    ForgetOneMore(slot, forgotten, t);
    assert SlotAt(s1, c) == ForgottenSlot(slot, forgotten);
  }
}

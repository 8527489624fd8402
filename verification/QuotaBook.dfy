/** What the scoped quota ledger means, independent of any backend: a book of
    every reservation ever granted, from which nothing is dropped. Usage is
    whatever of it is still live. */
module QuotaBook {
  import opened Results
  import opened Sums
  import opened QuotaPlanning

  /** The identity of one granted reservation. */
  type Token = nat

  datatype Entry = Entry(expires: nat, amount: nat)

  type Entries = map<Token, Entry>

  type Book = map<Counter, Entries>

  function At(book: Book, c: Counter): Entries {
    if c in book then book[c] else map[]
  }

  /** Day buckets stop being addressed instead of expiring. */
  predicate Live(window: Window, e: Entry, now: nat) {
    window == Day || e.expires > now
  }

  ghost function LiveEntries(window: Window, entries: Entries, now: nat): Entries {
    map t | t in entries && Live(window, entries[t], now) :: entries[t]
  }

  ghost function LiveAmounts(window: Window, entries: Entries, now: nat): map<Token, nat> {
    map t | t in entries && Live(window, entries[t], now) :: entries[t].amount
  }

  /** Permits in flight are counted; minute and day counters are summed. */
  ghost function Usage(window: Window, entries: Entries, now: nat): nat {
    if window == InFlight then |LiveEntries(window, entries, now)| else Sum(LiveAmounts(window, entries, now))
  }

  ghost function UsedBy(book: Book, plan: QuotaChargePlan, now: nat): seq<nat> {
    seq(|plan|, i requires 0 <= i < |plan| => Usage(plan[i].counter.window, At(book, plan[i].counter), now))
  }

  // The three operations on the book.

  function ExpiryOf(charge: QuotaCharge, now: nat, leaseTtl: nat): nat {
    now + (if charge.counter.window == InFlight then leaseTtl else charge.windowMillis)
  }

  ghost function Charged(book: Book, charge: QuotaCharge, token: Token, now: nat, leaseTtl: nat): Book {
    var e := Entry(ExpiryOf(charge, now, leaseTtl), charge.amount);
    book[charge.counter := At(book, charge.counter)[token := e]]
  }

  ghost function ChargeAll(book: Book, plan: QuotaChargePlan, token: Token, now: nat, leaseTtl: nat): Book {
    if plan == [] then book
    else
      var n := |plan| - 1;
      Charged(ChargeAll(book, plan[..n], token, now, leaseTtl), plan[n], token, now, leaseTtl)
  }

  /** Only token counters are corrected, and in-flight slots hold no amount. */
  predicate IsSettled(charge: QuotaCharge) {
    charge.counter.dimension == Tokens && charge.counter.window != InFlight
  }

  ghost function Settled(book: Book, charge: QuotaCharge, token: Token, actual: nat): Book {
    var entries := At(book, charge.counter);
    if IsSettled(charge) && token in entries
    then book[charge.counter := entries[token := entries[token].(amount := actual)]]
    else book
  }

  ghost function SettleAll(book: Book, plan: QuotaChargePlan, token: Token, actual: nat): Book {
    if plan == [] then book
    else Settled(SettleAll(book, plan[..|plan| - 1], token, actual), plan[|plan| - 1], token, actual)
  }

  /** Only concurrency slots are given back. */
  ghost function Released(book: Book, charge: QuotaCharge, token: Token): Book {
    if charge.counter.window == InFlight && charge.counter in book
    then book[charge.counter := book[charge.counter] - {token}]
    else book
  }

  ghost function ReleaseAll(book: Book, plan: QuotaChargePlan, token: Token): Book {
    if plan == [] then book
    else Released(ReleaseAll(book, plan[..|plan| - 1], token), plan[|plan| - 1], token)
  }

  // What a caller of `reserve` is told.

  datatype Response = Granted(observation: seq<QuotaCounter>) | Refused(breach: QuotaBreach, observation: seq<QuotaCounter>)

  /** `gained` is how much each counter reports to have grown by on a grant. */
  function Respond(plan: QuotaChargePlan, used: seq<nat>, now: nat, gained: seq<nat>): Response
    requires |used| == |plan| == |gained|
  {
    match FirstBreach(plan, used)
    case Some(i) =>
      Refused(BreachOf(plan[i]).(resetMillis := plan[i].ResetMillis(now)), ObservationOf(plan, used, now))
    case None => Granted(ObservationOf(plan, Plus(used, gained), now))
  }

  function Plus(a: seq<nat>, b: seq<nat>): (c: seq<nat>)
    requires |a| == |b|
    ensures |c| == |a|
  {
    seq(|a|, i requires 0 <= i < |a| => a[i] + b[i])
  }

  /** One slot per permit in flight, the charged amount elsewhere. */
  function SlotGains(plan: QuotaChargePlan): (g: seq<nat>)
    ensures |g| == |plan|
  {
    seq(|plan|, i requires 0 <= i < |plan| => if plan[i].counter.window == InFlight then 1 else plan[i].amount)
  }

  function AmountGains(plan: QuotaChargePlan): (g: seq<nat>)
    ensures |g| == |plan|
  {
    seq(|plan|, i requires 0 <= i < |plan| => plan[i].amount)
  }

  /** The shape every planned charge has. */
  predicate Shaped(charge: QuotaCharge) {
    charge.windowMillis == WindowMillis(charge.counter.window)
    && (charge.counter.dayBucket.Some? <==> charge.counter.window == Day)
  }

  /** A plan a backend is given: strictly ordered, so no counter occurs twice. */
  ghost predicate Executable(plan: QuotaChargePlan) {
    StrictlyRanked(plan) && forall i :: 0 <= i < |plan| ==> Shaped(plan[i])
  }

  lemma DistinctCounters(plan: QuotaChargePlan, i: nat, j: nat)
    requires StrictlyRanked(plan) && i < |plan| && j < |plan| && i != j
    ensures plan[i].counter != plan[j].counter
  {
    if i < j {
      assert ChargeRank(plan[i]) < ChargeRank(plan[j]);
    } else {
      assert ChargeRank(plan[j]) < ChargeRank(plan[i]);
    }
  }

  lemma PlannedIsExecutable(limits: seq<QuotaLimit>, request: QuotaRequest, now: nat)
    requires UniqueLimits(limits)
    ensures Executable(PlannedCharges(limits, request, now))
  {
    PlanIsStrict(limits, request, now);
    var plan := PlannedCharges(limits, request, now);
    forall i | 0 <= i < |plan|
      ensures Shaped(plan[i])
    {
      PlanContains(limits, request, now, plan[i]);
    }
  }

  /** Each charge touches its own counter only. */
  lemma {:induction false} ChargeAllElsewhere(book: Book, plan: QuotaChargePlan, token: Token, now: nat, leaseTtl: nat, c: Counter)
    requires forall i :: 0 <= i < |plan| ==> plan[i].counter != c
    ensures At(ChargeAll(book, plan, token, now, leaseTtl), c) == At(book, c)
  {
    if plan != [] {
      ChargeAllElsewhere(book, plan[..|plan| - 1], token, now, leaseTtl, c);
    }
  }

  /** ... and that counter gains exactly one entry. */
  lemma {:induction false} ChargeAllAt(book: Book, plan: QuotaChargePlan, token: Token, now: nat, leaseTtl: nat, i: nat)
    requires StrictlyRanked(plan) && i < |plan|
    ensures At(ChargeAll(book, plan, token, now, leaseTtl), plan[i].counter)
            == At(book, plan[i].counter)[token := Entry(ExpiryOf(plan[i], now, leaseTtl), plan[i].amount)]
  {
    var n := |plan| - 1;
    if i < n {
      ChargeAllAt(book, plan[..n], token, now, leaseTtl, i);
      DistinctCounters(plan, i, n);
    } else {
      forall k | 0 <= k < n
        ensures plan[..n][k].counter != plan[n].counter
      {
        DistinctCounters(plan, k, n);
      }
      ChargeAllElsewhere(book, plan[..n], token, now, leaseTtl, plan[n].counter);
    }
  }

  /** Every token in the book was issued, so the next ticket is fresh. */
  ghost predicate TokensIssued(book: Book, ticket: nat) {
    forall c: Counter, t :: t in At(book, c) ==> t < ticket
  }

  lemma {:induction false} ChargeAllIssues(book: Book, plan: QuotaChargePlan, token: Token, now: nat, leaseTtl: nat)
    requires TokensIssued(book, token)
    ensures TokensIssued(ChargeAll(book, plan, token, now, leaseTtl), token + 1)
  {
    if plan != [] {
      var rest := ChargeAll(book, plan[..|plan| - 1], token, now, leaseTtl);
      ChargeAllIssues(book, plan[..|plan| - 1], token, now, leaseTtl);
      forall c: Counter, t | t in At(ChargeAll(book, plan, token, now, leaseTtl), c)
        ensures t < token + 1
      {
        assert t in At(rest, c) || t == token;
      }
    }
  }

  lemma {:induction false} SettleAllIssues(book: Book, plan: QuotaChargePlan, token: Token, actual: nat, ticket: nat)
    requires TokensIssued(book, ticket)
    ensures TokensIssued(SettleAll(book, plan, token, actual), ticket)
  {
    if plan != [] {
      var rest := SettleAll(book, plan[..|plan| - 1], token, actual);
      SettleAllIssues(book, plan[..|plan| - 1], token, actual, ticket);
      forall c: Counter, t | t in At(SettleAll(book, plan, token, actual), c)
        ensures t < ticket
      {
        assert t in At(rest, c);
      }
    }
  }

  lemma {:induction false} ReleaseAllIssues(book: Book, plan: QuotaChargePlan, token: Token, ticket: nat)
    requires TokensIssued(book, ticket)
    ensures TokensIssued(ReleaseAll(book, plan, token), ticket)
  {
    if plan != [] {
      var rest := ReleaseAll(book, plan[..|plan| - 1], token);
      ReleaseAllIssues(book, plan[..|plan| - 1], token, ticket);
      forall c: Counter, t | t in At(ReleaseAll(book, plan, token), c)
        ensures t < ticket
      {
        assert t in At(rest, c);
      }
    }
  }
}

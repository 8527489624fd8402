/** The two backends of the scoped ledger over whole runs: each mints its own tokens and
    answers as its reference. */
module QuotaBackends {
  import opened Results
  import opened Sums
  import opened QuotaPlanning
  import opened QuotaBook
  import opened QuotaRuns
  import opened MemoryQuotaLedger
  import opened RedisQuotaLedger
  import RedisQuota

  // Each backend mints its own tokens; the reference run names a reservation by
  // its call. Nothing observable depends on the names.

  type Naming = map<nat, Token>

  ghost predicate OneToOne(f: Naming) {
    forall a, b :: a in f && b in f && f[a] == f[b] ==> a == b
  }

  ghost predicate Named(ours: Entries, f: Naming, t: Token) {
    exists k :: k in ours && k in f && f[k] == t
  }

  /** `theirs` is `ours` with every name translated by f. */
  ghost predicate Renames(ours: Entries, theirs: Entries, f: Naming) {
    (forall k :: k in ours ==> k in f && f[k] in theirs && theirs[f[k]] == ours[k])
    && (forall t :: t in theirs ==> Named(ours, f, t))
  }

  ghost predicate RenamesBook(ours: Book, theirs: Book, f: Naming) {
    forall c: Counter :: Renames(At(ours, c), At(theirs, c), f)
  }

  lemma LiveCount(window: Window, entries: Entries, now: nat)
    ensures |LiveEntries(window, entries, now)| == |LiveAmounts(window, entries, now)|
  {
    var a, b := LiveEntries(window, entries, now), LiveAmounts(window, entries, now);
    assert a.Keys == b.Keys;
    assert |a| == |a.Keys| && |b| == |b.Keys|;
  }

  lemma RenamedLive(window: Window, ours: Entries, theirs: Entries, f: Naming, now: nat)
    requires OneToOne(f) && Renames(ours, theirs, f)
    ensures Sum(LiveAmounts(window, ours, now)) == Sum(LiveAmounts(window, theirs, now))
    ensures |LiveAmounts(window, ours, now)| == |LiveAmounts(window, theirs, now)|
  {
    hide Sum;
    var a, b := LiveAmounts(window, ours, now), LiveAmounts(window, theirs, now);
    var g := map k | k in a :: f[k];
    forall t | t in b
      ensures t in g.Values
    {
      var k :| k in ours && k in f && f[k] == t;
      assert k in g && g[k] == t;
    }
    SumRenamed(a, b, g);
  }

  lemma RenamedUsage(window: Window, ours: Entries, theirs: Entries, f: Naming, now: nat)
    requires OneToOne(f) && Renames(ours, theirs, f)
    ensures Usage(window, ours, now) == Usage(window, theirs, now)
  {
    hide Sum, LiveEntries, LiveAmounts, Renames;
    RenamedLive(window, ours, theirs, f, now);
    LiveCount(window, ours, now);
    LiveCount(window, theirs, now);
  }

  lemma RenamedUsedBy(ours: Book, theirs: Book, f: Naming, plan: QuotaChargePlan, now: nat)
    requires OneToOne(f) && RenamesBook(ours, theirs, f)
    ensures UsedBy(ours, plan, now) == UsedBy(theirs, plan, now)
  {
    hide Renames, Usage;
    forall i | 0 <= i < |plan|
      ensures UsedBy(ours, plan, now)[i] == UsedBy(theirs, plan, now)[i]
    {
      RenamedUsage(plan[i].counter.window, At(ours, plan[i].counter), At(theirs, plan[i].counter), f, now);
    }
  }

  lemma RenamedAdd(ours: Entries, theirs: Entries, f: Naming, k: nat, t: Token, e: Entry)
    requires Renames(ours, theirs, f) && k in f && f[k] == t
    requires k !in ours && t !in theirs
    ensures Renames(ours[k := e], theirs[t := e], f)
  {
    var added := ours[k := e];
    assert k in added;
    forall u | u in theirs && u != t
      ensures Named(added, f, u)
    {
      var j :| j in ours && j in f && f[j] == u;
      assert j in added;
    }
  }

  lemma RenamedPresence(ours: Entries, theirs: Entries, f: Naming, k: nat)
    requires OneToOne(f) && Renames(ours, theirs, f) && k in f
    ensures k in ours <==> f[k] in theirs
  {
  }

  lemma RenamedReplace(ours: Entries, theirs: Entries, f: Naming, k: nat, e: Entry)
    requires OneToOne(f) && Renames(ours, theirs, f) && k in ours && k in f
    ensures Renames(ours[k := e], theirs[f[k] := e], f)
  {
    var replaced := ours[k := e];
    assert k in replaced;
    forall u | u in theirs && u != f[k]
      ensures Named(replaced, f, u)
    {
      var j :| j in ours && j in f && f[j] == u;
      assert j in replaced;
    }
  }

  lemma RenamedRemove(ours: Entries, theirs: Entries, f: Naming, k: nat)
    requires OneToOne(f) && Renames(ours, theirs, f) && k in f
    ensures Renames(ours - {k}, theirs - {f[k]}, f)
  {
    var rest := ours - {k};
    forall u | u in theirs && u != f[k]
      ensures Named(rest, f, u)
    {
      var j :| j in ours && j in f && f[j] == u;
      assert j in rest;
    }
  }

  lemma RenamedCharged(ours: Book, theirs: Book, f: Naming, charge: QuotaCharge, k: nat, now: nat, leaseTtl: nat)
    requires RenamesBook(ours, theirs, f) && k in f
    requires k !in At(ours, charge.counter) && f[k] !in At(theirs, charge.counter)
    ensures RenamesBook(Charged(ours, charge, k, now, leaseTtl), Charged(theirs, charge, f[k], now, leaseTtl), f)
  {
    var c := charge.counter;
    var e := Entry(ExpiryOf(charge, now, leaseTtl), charge.amount);
    RenamedAdd(At(ours, c), At(theirs, c), f, k, f[k], e);
    hide Renames;
    forall d: Counter
      ensures Renames(At(Charged(ours, charge, k, now, leaseTtl), d), At(Charged(theirs, charge, f[k], now, leaseTtl), d), f)
    {
      assert Renames(At(ours, d), At(theirs, d), f);
    }
  }

  lemma {:induction false} RenamedChargeAll(ours: Book, theirs: Book, f: Naming, plan: QuotaChargePlan, k: nat, now: nat, leaseTtl: nat)
    requires RenamesBook(ours, theirs, f) && k in f && StrictlyRanked(plan)
    requires forall c: Counter :: k !in At(ours, c) && f[k] !in At(theirs, c)
    ensures RenamesBook(ChargeAll(ours, plan, k, now, leaseTtl), ChargeAll(theirs, plan, f[k], now, leaseTtl), f)
  {
    if plan != [] {
      hide RenamesBook;
      var n := |plan| - 1;
      RenamedChargeAll(ours, theirs, f, plan[..n], k, now, leaseTtl);
      forall j | 0 <= j < n
        ensures plan[..n][j].counter != plan[n].counter
      {
        DistinctCounters(plan, j, n);
      }
      ChargeAllElsewhere(ours, plan[..n], k, now, leaseTtl, plan[n].counter);
      ChargeAllElsewhere(theirs, plan[..n], f[k], now, leaseTtl, plan[n].counter);
      RenamedCharged(ChargeAll(ours, plan[..n], k, now, leaseTtl), ChargeAll(theirs, plan[..n], f[k], now, leaseTtl),
                     f, plan[n], k, now, leaseTtl);
    }
  }

  lemma RenamedSettled(ours: Book, theirs: Book, f: Naming, charge: QuotaCharge, k: nat, actual: nat)
    requires OneToOne(f) && RenamesBook(ours, theirs, f) && k in f
    ensures RenamesBook(Settled(ours, charge, k, actual), Settled(theirs, charge, f[k], actual), f)
  {
    var c := charge.counter;
    assert Renames(At(ours, c), At(theirs, c), f);
    RenamedPresence(At(ours, c), At(theirs, c), f, k);
    if k in At(ours, c) {
      RenamedReplace(At(ours, c), At(theirs, c), f, k, At(ours, c)[k].(amount := actual));
    }
    assert k in At(ours, c) ==> At(theirs, c)[f[k]] == At(ours, c)[k];
    hide Renames;
    forall d: Counter
      ensures Renames(At(Settled(ours, charge, k, actual), d), At(Settled(theirs, charge, f[k], actual), d), f)
    {
      assert Renames(At(ours, d), At(theirs, d), f);
    }
  }

  lemma {:induction false} RenamedSettleAll(ours: Book, theirs: Book, f: Naming, plan: QuotaChargePlan, k: nat, actual: nat)
    requires OneToOne(f) && RenamesBook(ours, theirs, f) && k in f
    ensures RenamesBook(SettleAll(ours, plan, k, actual), SettleAll(theirs, plan, f[k], actual), f)
  {
    if plan != [] {
      hide RenamesBook, Settled;
      var rest := plan[..|plan| - 1];
      RenamedSettleAll(ours, theirs, f, rest, k, actual);
      RenamedSettled(SettleAll(ours, rest, k, actual), SettleAll(theirs, rest, f[k], actual), f, plan[|plan| - 1], k, actual);
    }
  }

  lemma RenamedReleased(ours: Book, theirs: Book, f: Naming, charge: QuotaCharge, k: nat)
    requires OneToOne(f) && RenamesBook(ours, theirs, f) && k in f
    ensures RenamesBook(Released(ours, charge, k), Released(theirs, charge, f[k]), f)
  {
    var c := charge.counter;
    assert Renames(At(ours, c), At(theirs, c), f);
    RenamedRemove(At(ours, c), At(theirs, c), f, k);
    ReleasedAt(ours, charge, k);
    ReleasedAt(theirs, charge, f[k]);
    hide Renames, Released;
    forall d: Counter
      ensures Renames(At(Released(ours, charge, k), d), At(Released(theirs, charge, f[k]), d), f)
    {
      assert Renames(At(ours, d), At(theirs, d), f);
    }
  }

  lemma ReleasedAt(book: Book, charge: QuotaCharge, token: Token)
    ensures forall d: Counter :: At(Released(book, charge, token), d)
                                 == if d == charge.counter && d.window == InFlight then At(book, d) - {token} else At(book, d)
  {
    var none: Entries := map[];
    assert none - {token} == none;
  }

  lemma {:induction false} RenamedReleaseAll(ours: Book, theirs: Book, f: Naming, plan: QuotaChargePlan, k: nat)
    requires OneToOne(f) && RenamesBook(ours, theirs, f) && k in f
    ensures RenamesBook(ReleaseAll(ours, plan, k), ReleaseAll(theirs, plan, f[k]), f)
  {
    if plan != [] {
      hide RenamesBook, Released;
      var rest := plan[..|plan| - 1];
      RenamedReleaseAll(ours, theirs, f, rest, k);
      RenamedReleased(ReleaseAll(ours, rest, k), ReleaseAll(theirs, rest, f[k]), f, plan[|plan| - 1], k);
    }
  }

  // A backend in step with the reference run.

  /** The permits a caller holds: the plan and the backend's own token. */
  type Permits = map<nat, (QuotaChargePlan, Token)>

  ghost function NamingOf(permits: Permits): Naming {
    map k | k in permits :: permits[k].1
  }

  ghost function PlansOf(permits: Permits): map<nat, QuotaChargePlan> {
    map k | k in permits :: permits[k].0
  }

  /** After n calls, with tokens below `ticket` handed out. */
  ghost predicate InStep(l: Ledger, theirs: Book, permits: Permits, n: nat, ticket: nat) {
    && l.permits == PlansOf(permits)
    && OneToOne(NamingOf(permits))
    && RenamesBook(l.book, theirs, NamingOf(permits))
    && TokensIssued(l.book, n)
    && (forall k :: k in permits ==> k < n && permits[k].1 < ticket)
  }

  lemma RenamesWider(ours: Book, theirs: Book, f: Naming, k: nat, t: Token)
    requires RenamesBook(ours, theirs, f) && k !in f
    ensures RenamesBook(ours, theirs, f[k := t])
  {
    forall c: Counter
      ensures Renames(At(ours, c), At(theirs, c), f[k := t])
    {
      var a, b := At(ours, c), At(theirs, c);
      assert Renames(a, b, f);
      var wider := f[k := t];
      forall u | u in b
        ensures Named(a, wider, u)
      {
        var j :| j in a && j in f && f[j] == u;
        assert j in wider;
      }
    }
  }

  lemma StepGranted(
    l: Ledger, theirs: Book, permits: Permits, n: nat, ticket: nat,
    plan: QuotaChargePlan, now: nat, leaseTtl: nat, token: Token, ticket': nat)
    requires InStep(l, theirs, permits, n, ticket) && plan != [] && StrictlyRanked(plan)
    requires Admits(l, plan, now) && ticket <= token < ticket' && forall c: Counter :: token !in At(theirs, c)
    ensures InStep(Step(l, Reserve(plan, now), n, leaseTtl), ChargeAll(theirs, plan, token, now, leaseTtl),
                   permits[n := (plan, token)], n + 1, ticket')
  {
    hide RenamesBook, ChargeAll, TokensIssued, Admits, OneToOne;
    var f, f' := NamingOf(permits), NamingOf(permits[n := (plan, token)]);
    assert f' == f[n := token];
    assert PlansOf(permits[n := (plan, token)]) == PlansOf(permits)[n := plan];
    RenamesWider(l.book, theirs, f, n, token);
    StaysOneToOne(f, n, token);
    FreshName(l.book, n);
    RenamedChargeAll(l.book, theirs, f', plan, n, now, leaseTtl);
    ChargeAllIssues(l.book, plan, n, now, leaseTtl);
  }

  lemma StaysOneToOne(f: Naming, k: nat, t: Token)
    requires OneToOne(f) && forall a :: a in f ==> f[a] < t
    ensures OneToOne(f[k := t])
  {
  }

  lemma FreshName(book: Book, n: nat)
    requires TokensIssued(book, n)
    ensures forall c: Counter :: n !in At(book, c)
  {
  }

  lemma StepRefused(
    l: Ledger, theirs: Book, permits: Permits, n: nat, ticket: nat, plan: QuotaChargePlan, now: nat, leaseTtl: nat, ticket': nat)
    requires InStep(l, theirs, permits, n, ticket) && (plan == [] || !Admits(l, plan, now)) && ticket <= ticket'
    ensures InStep(Step(l, Reserve(plan, now), n, leaseTtl), theirs, permits, n + 1, ticket')
  {
    hide RenamesBook, Admits;
  }

  lemma StepSettled(l: Ledger, theirs: Book, permits: Permits, n: nat, ticket: nat, k: nat, actual: nat, now: nat, leaseTtl: nat)
    requires InStep(l, theirs, permits, n, ticket)
    ensures k in permits ==>
              InStep(Step(l, Settle(k, actual, now), n, leaseTtl),
                     SettleAll(theirs, permits[k].0, permits[k].1, actual), permits, n + 1, ticket)
    ensures k !in permits ==> InStep(Step(l, Settle(k, actual, now), n, leaseTtl), theirs, permits, n + 1, ticket)
  {
    hide RenamesBook, SettleAll;
    if k in permits {
      RenamedSettleAll(l.book, theirs, NamingOf(permits), permits[k].0, k, actual);
      SettleAllIssues(l.book, permits[k].0, k, actual, n);
    }
  }

  lemma StepReleased(l: Ledger, theirs: Book, permits: Permits, n: nat, ticket: nat, k: nat, now: nat, leaseTtl: nat)
    requires InStep(l, theirs, permits, n, ticket)
    ensures k in permits ==>
              InStep(Step(l, Release(k, now), n, leaseTtl),
                     ReleaseAll(theirs, permits[k].0, permits[k].1), permits, n + 1, ticket)
    ensures k !in permits ==> InStep(Step(l, Release(k, now), n, leaseTtl), theirs, permits, n + 1, ticket)
  {
    hide RenamesBook, ReleaseAll;
    if k in permits {
      RenamedReleaseAll(l.book, theirs, NamingOf(permits), permits[k].0, k);
      ReleaseAllIssues(l.book, permits[k].0, k, n);
    }
  }

  // Runs.

  datatype Backend = Memory | Redis

  /** How much a granted charge adds to the usage a backend reports. */
  function Gains(backend: Backend, plan: QuotaChargePlan): (g: seq<nat>)
    ensures |g| == |plan|
  {
    if backend == Memory then SlotGains(plan) else AmountGains(plan)
  }

  /** What the reference run answers; only `Reserve` has an answer. */
  ghost function Answer(l: Ledger, call: Call, backend: Backend): Option<Response> {
    match call
    case Reserve(plan, now) => Some(Respond(plan, UsedBy(l.book, plan, now), now, Gains(backend, plan)))
    case _ => None
  }

  /** Call n, answered by the in-memory backend. */
  method MemoryCall(ledger: MemoryLedger, permits: Permits, call: Call, ghost l: Ledger, n: nat)
    returns (answer: Option<Response>, held: Permits)
    requires ledger.Valid() && InStep(l, ledger.book, permits, n, ledger.ticket)
    requires ledger.clock <= call.now && (call.Reserve? ==> QuotaBook.Executable(call.plan))
    modifies ledger
    ensures ledger.Valid() && ledger.clock <= call.now
    ensures InStep(Step(l, call, n, ledger.leaseTtl), ledger.book, held, n + 1, ledger.ticket)
    ensures answer == Answer(l, call, Memory)
  {
    hide InStep, Step, UsedBy;
    answer, held := None, permits;
    ghost var theirs, ticket := ledger.book, ledger.ticket;
    match call {
      case Reserve(plan, now) =>
        SameUsage(l, theirs, permits, n, ticket, plan, now);
        var response, token := ledger.Reserve(plan, now);
        answer := Some(response);
        if response.Granted? && plan != [] {
          StepGranted(l, theirs, permits, n, ticket, plan, now, ledger.leaseTtl, token, ledger.ticket);
          held := permits[n := (plan, token)];
        } else {
          StepRefused(l, theirs, permits, n, ticket, plan, now, ledger.leaseTtl, ledger.ticket);
        }
      case Settle(k, actual, now) =>
        StepSettled(l, theirs, permits, n, ticket, k, actual, now, ledger.leaseTtl);
        if k in permits {
          ledger.Settle(permits[k].0, permits[k].1, actual);
        }
      case Release(k, now) =>
        StepReleased(l, theirs, permits, n, ticket, k, now, ledger.leaseTtl);
        if k in permits {
          ledger.Release(permits[k].0, permits[k].1);
        }
    }
  }

  lemma SameUsage(l: Ledger, theirs: Book, permits: Permits, n: nat, ticket: nat, plan: QuotaChargePlan, now: nat)
    requires InStep(l, theirs, permits, n, ticket)
    ensures UsedBy(theirs, plan, now) == UsedBy(l.book, plan, now)
    ensures Admits(l, plan, now) <==> FirstBreach(plan, UsedBy(theirs, plan, now)).None?
  {
    hide RenamesBook, UsedBy;
    RenamedUsedBy(l.book, theirs, NamingOf(permits), plan, now);
  }

  // Redis drops the keys of a day counter two days after its latest grant.

  /** The ledger with what the server still has when it is asked at `now`. */
  ghost function Aged(l: Ledger, now: nat): Ledger {
    l.(book := RedisQuota.KeptBook(l.book, now))
  }

  /** An empty plan, and a reservation that was not granted, never reach the server. */
  predicate ReachesServer(permits: map<nat, QuotaChargePlan>, call: Call) {
    match call
    case Reserve(plan, _) => plan != []
    case Settle(k, _, _) => k in permits
    case Release(k, _) => k in permits
  }

  ghost function KeptStep(l: Ledger, call: Call, n: nat, leaseTtl: nat): Ledger {
    if ReachesServer(l.permits, call) then Step(Aged(l, call.now), call, n, leaseTtl) else l
  }

  ghost function KeptAfter(calls: seq<Call>, n: nat, leaseTtl: nat): Ledger
    requires n <= |calls|
  {
    if n == 0 then Opening else KeptStep(KeptAfter(calls, n - 1, leaseTtl), calls[n - 1], n - 1, leaseTtl)
  }

  /** What Redis answers at call i. */
  ghost function RedisAnswer(calls: seq<Call>, i: nat, leaseTtl: nat): Option<Response>
    requires i < |calls|
  {
    Answer(Aged(KeptAfter(calls, i, leaseTtl), calls[i].now), calls[i], Redis)
  }

  /** Names do not matter for what is kept. */
  lemma RenamedKept(c: Counter, ours: Entries, theirs: Entries, f: Naming, now: nat)
    requires Renames(ours, theirs, f)
    ensures Renames(RedisQuota.KeptEntries(c, ours, now), RedisQuota.KeptEntries(c, theirs, now), f)
  {
    if ours == map[] {
      assert theirs == map[];
    } else {
      var k :| k in ours;
      assert f[k] in theirs;
    }
    if t :| t in ours && now <= ours[t].expires + DAY_WINDOW_MILLIS {
      assert f[t] in theirs && theirs[f[t]] == ours[t];
    }
    if t :| t in theirs && now <= theirs[t].expires + DAY_WINDOW_MILLIS {
      assert Named(ours, f, t);
    }
  }

  lemma AgedInStep(l: Ledger, theirs: Book, permits: Permits, n: nat, ticket: nat, now: nat)
    requires InStep(l, theirs, permits, n, ticket)
    ensures InStep(Aged(l, now), RedisQuota.KeptBook(theirs, now), permits, n, ticket)
  {
    hide RedisQuota.KeptEntries, RedisQuota.KeptBook, Renames;
    var f := NamingOf(permits);
    forall c: Counter
      ensures Renames(At(RedisQuota.KeptBook(l.book, now), c), At(RedisQuota.KeptBook(theirs, now), c), f)
    {
      RedisQuota.KeptAt(l.book, c, now);
      RedisQuota.KeptAt(theirs, c, now);
      RenamedKept(c, At(l.book, c), At(theirs, c), f, now);
    }
    KeptIssued(l.book, n, now);
  }

  lemma KeptIssued(book: Book, ticket: nat, now: nat)
    requires TokensIssued(book, ticket)
    ensures TokensIssued(RedisQuota.KeptBook(book, now), ticket)
  {
    forall c: Counter, t | t in At(RedisQuota.KeptBook(book, now), c)
      ensures t < ticket
    {
      RedisQuota.KeptAt(book, c, now);
    }
  }

  lemma EmptyPlanAnswers(book: Book, now: nat)
    ensures Respond([], UsedBy(book, [], now), now, AmountGains([])) == Granted([])
  {
    var used := UsedBy(book, [], now);
    assert used == [] && FirstBreach([], used).None?;
    assert ObservationOf([], Plus(used, AmountGains([])), now) == [];
  }

  /** Call n, answered by the Redis backend with its next ticket. */
  method RedisCall(ledger: RedisLedger, permits: Permits, call: Call, ghost l: Ledger, n: nat, ticket: nat)
    returns (answer: Option<Response>, held: Permits, next: nat)
    requires ledger.Valid() && InStep(l, ledger.book, permits, n, ticket) && TokensIssued(ledger.book, ticket)
    requires ledger.clock <= call.now && (call.Reserve? ==> QuotaBook.Executable(call.plan))
    modifies ledger
    ensures ledger.Valid() && ledger.clock <= call.now && TokensIssued(ledger.book, next)
    ensures InStep(KeptStep(l, call, n, ledger.leaseTtl), ledger.book, held, n + 1, next)
    ensures answer == Answer(Aged(l, call.now), call, Redis)
  {
    hide InStep, Step, UsedBy, Aged, RedisQuota.KeptBook;
    answer, held, next := None, permits, ticket;
    SamePermits(l, ledger.book, permits, n, ticket, call.now);
    FreshName(ledger.book, ticket);
    assert call.Reserve? ==> call == Reserve(call.plan, call.now);
    if call.Reserve? && call.plan == [] {
      EmptyPlanAnswers(Aged(l, call.now).book, call.now);
      EmptyPlanAnswers(RedisQuota.KeptBook(ledger.book, call.now), call.now);
      StepRefused(l, ledger.book, permits, n, ticket, [], call.now, ledger.leaseTtl, ticket);
      EmptyStep(l, call.now, n, ledger.leaseTtl);
      var response := ledger.Reserve([], call.now, ticket);
      answer := Some(response);
    } else if call.Reserve? {
      answer, held, next := RedisReserve(ledger, permits, call.plan, call.now, l, n, ticket);
    } else {
      held := RedisReturn(ledger, permits, call, l, n, ticket);
    }
  }

  lemma SamePermits(l: Ledger, theirs: Book, permits: Permits, n: nat, ticket: nat, now: nat)
    requires InStep(l, theirs, permits, n, ticket)
    ensures forall k :: k in l.permits <==> k in permits
    ensures Aged(l, now).permits == l.permits
  {
  }

  lemma EmptyStep(l: Ledger, now: nat, n: nat, leaseTtl: nat)
    ensures Step(l, Reserve([], now), n, leaseTtl) == l == KeptStep(l, Reserve([], now), n, leaseTtl)
  {
  }

  method RedisReserve(ledger: RedisLedger, permits: Permits, plan: QuotaChargePlan, now: nat, ghost l: Ledger, n: nat, ticket: nat)
    returns (answer: Option<Response>, held: Permits, next: nat)
    requires ledger.Valid() && InStep(l, ledger.book, permits, n, ticket) && TokensIssued(ledger.book, ticket)
    requires ledger.clock <= now && QuotaBook.Executable(plan) && plan != []
    modifies ledger
    ensures ledger.Valid() && ledger.clock <= now && TokensIssued(ledger.book, next)
    ensures InStep(Step(Aged(l, now), Reserve(plan, now), n, ledger.leaseTtl), ledger.book, held, n + 1, next)
    ensures answer == Answer(Aged(l, now), Reserve(plan, now), Redis)
  {
    hide InStep, Step, UsedBy, Aged, RedisQuota.KeptBook;
    held, next := permits, ticket + 1;
    ghost var theirs, aged := RedisQuota.KeptBook(ledger.book, now), Aged(l, now);
    AgedInStep(l, ledger.book, permits, n, ticket, now);
    KeptIssued(ledger.book, ticket, now);
    FreshName(ledger.book, ticket);
    FreshName(theirs, ticket);
    SameUsage(aged, theirs, permits, n, ticket, plan, now);
    var response := ledger.Reserve(plan, now, ticket);
    answer := Some(response);
    if response.Granted? {
      StepGranted(aged, theirs, permits, n, ticket, plan, now, ledger.leaseTtl, ticket, next);
      ChargeAllIssues(theirs, plan, ticket, now, ledger.leaseTtl);
      held := permits[n := (plan, ticket)];
    } else {
      StepRefused(aged, theirs, permits, n, ticket, plan, now, ledger.leaseTtl, next);
    }
  }

  method RedisReturn(ledger: RedisLedger, permits: Permits, call: Call, ghost l: Ledger, n: nat, ticket: nat) returns (held: Permits)
    requires ledger.Valid() && InStep(l, ledger.book, permits, n, ticket) && TokensIssued(ledger.book, ticket)
    requires ledger.clock <= call.now && !call.Reserve?
    modifies ledger
    ensures ledger.Valid() && ledger.clock <= call.now && TokensIssued(ledger.book, ticket)
    ensures InStep(KeptStep(l, call, n, ledger.leaseTtl), ledger.book, held, n + 1, ticket)
  {
    hide InStep, Step, Aged, RedisQuota.KeptBook;
    held := permits;
    ghost var theirs, aged := RedisQuota.KeptBook(ledger.book, call.now), Aged(l, call.now);
    SamePermits(l, ledger.book, permits, n, ticket, call.now);
    AgedInStep(l, ledger.book, permits, n, ticket, call.now);
    KeptIssued(ledger.book, ticket, call.now);
    if call.reservation !in permits {
      NothingToReturn(l, ledger.book, permits, n, ticket, call, ledger.leaseTtl);
      return;
    }
    var plan, token := permits[call.reservation].0, permits[call.reservation].1;
    match call {
      case Settle(k, actual, now) =>
        StepSettled(aged, theirs, permits, n, ticket, k, actual, now, ledger.leaseTtl);
        SettleAllIssues(theirs, plan, token, actual, ticket);
        ledger.Settle(plan, token, actual, now);
      case Release(k, now) =>
        StepReleased(aged, theirs, permits, n, ticket, k, now, ledger.leaseTtl);
        ReleaseAllIssues(theirs, plan, token, ticket);
        ledger.Release(plan, token, now);
    }
  }

  lemma NothingToReturn(l: Ledger, theirs: Book, permits: Permits, n: nat, ticket: nat, call: Call, leaseTtl: nat)
    requires InStep(l, theirs, permits, n, ticket) && !call.Reserve? && call.reservation !in permits
    ensures InStep(KeptStep(l, call, n, leaseTtl), theirs, permits, n + 1, ticket)
  {
    hide RenamesBook;
  }

  /** The first n answers are those of the reference run. */
  ghost predicate Answered(calls: seq<Call>, answers: seq<Option<Response>>, n: nat, leaseTtl: nat, backend: Backend) {
    |answers| == n <= |calls|
    && forall i :: 0 <= i < n ==> answers[i] == Answer(After(calls, i, leaseTtl), calls[i], backend)
  }

  lemma NoneAnswered(calls: seq<Call>, leaseTtl: nat, backend: Backend)
    ensures Answered(calls, [], 0, leaseTtl, backend) && After(calls, 0, leaseTtl) == Opening
  {
  }

  lemma OneMoreAnswered(calls: seq<Call>, answers: seq<Option<Response>>, n: nat, leaseTtl: nat, backend: Backend)
    requires Answered(calls, answers, n, leaseTtl, backend) && n < |calls|
    ensures Answered(calls, answers + [Answer(After(calls, n, leaseTtl), calls[n], backend)], n + 1, leaseTtl, backend)
    ensures After(calls, n + 1, leaseTtl) == Step(After(calls, n, leaseTtl), calls[n], n, leaseTtl)
  {
    hide Answer, Step;
  }

  method RunMemory(calls: seq<Call>, leaseTtl: nat) returns (answers: seq<Option<Response>>)
    requires QuotaRuns.Executable(calls)
    ensures Answered(calls, answers, |calls|, leaseTtl, Memory)
  {
    hide InStep, Answer, Step, Answered, After;
    var ledger := new MemoryLedger(leaseTtl);
    var permits: Permits := map[];
    answers := [];
    NoneAnswered(calls, leaseTtl, Memory);
    InStepAtFirst(ledger.ticket);
    for n := 0 to |calls|
      invariant fresh(ledger) && ledger.Valid() && ledger.leaseTtl == leaseTtl
      invariant forall j :: n <= j < |calls| ==> ledger.clock <= calls[j].now
      invariant InStep(After(calls, n, leaseTtl), ledger.book, permits, n, ledger.ticket)
      invariant Answered(calls, answers, n, leaseTtl, Memory)
    {
      OneMoreAnswered(calls, answers, n, leaseTtl, Memory);
      var answer, held := MemoryCall(ledger, permits, calls[n], After(calls, n, leaseTtl), n);
      answers, permits := answers + [answer], held;
    }
  }

  /** The first n answers are those of the reference run on which day counters age out. */
  ghost predicate RedisAnswered(calls: seq<Call>, answers: seq<Option<Response>>, n: nat, leaseTtl: nat) {
    |answers| == n <= |calls| && forall i :: 0 <= i < n ==> answers[i] == RedisAnswer(calls, i, leaseTtl)
  }

  lemma OneMoreRedis(calls: seq<Call>, answers: seq<Option<Response>>, n: nat, leaseTtl: nat)
    requires RedisAnswered(calls, answers, n, leaseTtl) && n < |calls|
    ensures RedisAnswered(calls, answers + [RedisAnswer(calls, n, leaseTtl)], n + 1, leaseTtl)
    ensures RedisAnswer(calls, n, leaseTtl) == Answer(Aged(KeptAfter(calls, n, leaseTtl), calls[n].now), calls[n], Redis)
    ensures KeptAfter(calls, n + 1, leaseTtl) == KeptStep(KeptAfter(calls, n, leaseTtl), calls[n], n, leaseTtl)
  {
    hide Answer, KeptStep, Aged;
  }

  method RunRedis(calls: seq<Call>, leaseTtl: nat) returns (answers: seq<Option<Response>>)
    requires QuotaRuns.Executable(calls)
    ensures RedisAnswered(calls, answers, |calls|, leaseTtl)
  {
    hide InStep, Answer, KeptStep, KeptAfter, RedisAnswer, Aged, TokensIssued;
    var ledger := new RedisLedger(leaseTtl);
    var permits: Permits := map[];
    var ticket := 0;
    answers := [];
    InStepAtFirst(ticket);
    NothingKept(calls, leaseTtl);
    for n := 0 to |calls|
      invariant fresh(ledger) && ledger.Valid() && ledger.leaseTtl == leaseTtl && TokensIssued(ledger.book, ticket)
      invariant forall j :: n <= j < |calls| ==> ledger.clock <= calls[j].now
      invariant InStep(KeptAfter(calls, n, leaseTtl), ledger.book, permits, n, ticket)
      invariant RedisAnswered(calls, answers, n, leaseTtl)
    {
      OneMoreRedis(calls, answers, n, leaseTtl);
      var answer, held, next := RedisCall(ledger, permits, calls[n], KeptAfter(calls, n, leaseTtl), n, ticket);
      answers, permits, ticket := answers + [answer], held, next;
    }
  }

  lemma NothingKept(calls: seq<Call>, leaseTtl: nat)
    ensures KeptAfter(calls, 0, leaseTtl) == Opening
  {
  }

  lemma InStepAtFirst(ticket: nat)
    ensures InStep(Opening, map[], map[], 0, ticket) && TokensIssued(map[], ticket)
  {
    assert NamingOf(map[]) == map[] && PlansOf(map[]) == map[];
  }

  /** Same verdict, same first breaching charge, same reset time, and on a refusal
      the same observed usage. */
  ghost predicate SameDecision(a: Option<Response>, b: Option<Response>) {
    match (a, b)
    case (Some(Granted(_)), Some(Granted(_))) => true
    case (Some(Refused(_, _)), Some(Refused(_, _))) => a == b
    case (None, None) => true
    case _ => false
  }

  /** The observation reported with a grant agrees exactly when every in-flight
      charge has amount one: memory counts permits, the script adds the amount. */
  lemma GrantObservationsAgree(plan: QuotaChargePlan, used: seq<nat>, now: nat)
    requires |used| == |plan|
    ensures Respond(plan, used, now, SlotGains(plan)) == Respond(plan, used, now, AmountGains(plan))
            <==> (FirstBreach(plan, used).Some?
                  || forall i :: 0 <= i < |plan| && plan[i].counter.window == InFlight ==> plan[i].amount == 1)
  {
    var a, b := Plus(used, SlotGains(plan)), Plus(used, AmountGains(plan));
    if FirstBreach(plan, used).None? {
      if i :| 0 <= i < |plan| && plan[i].counter.window == InFlight && plan[i].amount != 1 {
        assert ObservationOf(plan, a, now)[i].used != ObservationOf(plan, b, now)[i].used;
      } else {
        assert a == b;
      }
    }
  }

  /** Such a charge exists: an in-flight limit on tokens reports 501 permits in
      flight over Redis where memory reports one. */
  lemma InFlightTokenLimitDiverges()
    ensures var charge := QuotaCharge(Counter(Tenant, "t", InFlight, QuotaPlanning.Tokens, None), 1000, 501, 0);
            Respond([charge], [0], 0, SlotGains([charge])) != Respond([charge], [0], 0, AmountGains([charge]))
  {
    var charge := QuotaCharge(Counter(Tenant, "t", InFlight, QuotaPlanning.Tokens, None), 1000, 501, 0);
    assert [charge][0].counter.window == InFlight;
    GrantObservationsAgree([charge], [0], 0);
  }

  /** Every in-flight charge of the run counts one permit. */
  ghost predicate CountsPermits(calls: seq<Call>) {
    forall i, k :: 0 <= i < |calls| && calls[i].Reserve? && 0 <= k < |calls[i].plan| ==>
                     (calls[i].plan[k].counter.window == InFlight ==> calls[i].plan[k].amount == 1)
  }
}

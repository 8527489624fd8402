/** Whole runs of the shared circuit breaker: one probe per cooldown, no grant
    while open, and openings justified by what was reported in the window. */
module CircuitRuns {
  import opened Results
  import opened Arithmetic
  import opened Circuits

  datatype Op<K, T> =
    | Acquire(keys: seq<K>, token: T, now: nat)
    | Finish(keys: seq<K>, token: T, report: Report, now: nat)
    | Abandon(keys: seq<K>, token: T, now: nat)

  function Step<K, T(==)>(cells: Cells<K, T>, op: Op<K, T>, p: Policy): Cells<K, T> {
    match op
    case Acquire(keys, token, now) =>
      if Admits(cells, keys, now) then ProbeAll(cells, keys, token, now, p) else cells
    case Finish(keys, token, report, now) => FinishAll(cells, keys, token, report, now, p)
    case Abandon(keys, token, now) => AbandonAll(cells, keys, token, now)
  }

  /** The keys after the first n operations. */
  function After<K, T(==)>(ops: seq<Op<K, T>>, n: nat, p: Policy): Cells<K, T>
    requires n <= |ops|
  {
    if n == 0 then map[] else Step(After(ops, n - 1, p), ops[n - 1], p)
  }

  /** The server's clock is past zero and never runs backwards; a permit names each key once. */
  ghost predicate Orderly<K, T>(ops: seq<Op<K, T>>) {
    (forall i :: 0 <= i < |ops| ==> ops[i].now > 0)
    && (forall i, j :: 0 <= i < j < |ops| ==> ops[i].now <= ops[j].now)
    && (forall i :: 0 <= i < |ops| ==> Distinct(ops[i].keys))
  }

  ghost predicate Same<K, T>(a: Cells<K, T>, b: Cells<K, T>, k: K) {
    (k in a <==> k in b) && (k in a ==> a[k] == b[k])
  }

  lemma {:induction false} ProbeAllAt<K, T>(cells: Cells<K, T>, keys: seq<K>, token: T, now: nat, p: Policy, k: K)
    requires Distinct(keys)
    ensures Same(ProbeAll(cells, keys, token, now, p), if k in keys then ProbeOne(cells, k, token, now, p) else cells, k)
  {
    if keys != [] {
      var front, last := keys[..|keys| - 1], keys[|keys| - 1];
      ProbeAllAt(cells, front, token, now, p, k);
      assert keys == front + [last];
      if last == k {
        assert k !in front;
      }
    }
  }

  lemma {:induction false} AbandonAllAt<K, T>(cells: Cells<K, T>, keys: seq<K>, token: T, now: nat, k: K)
    requires Distinct(keys)
    ensures Same(AbandonAll(cells, keys, token, now), if k in keys then AbandonOne(cells, k, token, now) else cells, k)
  {
    if keys != [] {
      var front, last := keys[..|keys| - 1], keys[|keys| - 1];
      AbandonAllAt(cells, front, token, now, k);
      assert keys == front + [last];
      if last == k {
        assert k !in front;
      }
    }
  }

  lemma {:induction false} FinishAllElsewhere<K, T>(cells: Cells<K, T>, keys: seq<K>, token: T, report: Report, now: nat,
                                                    p: Policy, k: K)
    requires k !in keys
    ensures Same(FinishAll(cells, keys, token, report, now, p), cells, k)
  {
    if keys != [] {
      FinishAllElsewhere(cells, keys[..|keys| - 1], token, report, now, p, k);
    }
  }

  lemma {:induction false} FinishAllAt<K, T>(cells: Cells<K, T>, keys: seq<K>, token: T, report: Report, now: nat, p: Policy, i: nat)
    requires Distinct(keys) && i < |keys|
    ensures var after := FinishAll(cells, keys, token, report, now, p);
            keys[i] in after
            && after[keys[i]] == FinishCell(At(cells, keys[i], now), token, i + 1, report, now, p)
  {
    var front := keys[..|keys| - 1];
    if i == |keys| - 1 {
      FinishAllElsewhere(cells, front, token, report, now, p, keys[i]);
    } else {
      FinishAllAt(cells, front, token, report, now, p, i);
    }
  }

  /** Operation i was granted as the half-open probe of key k. */
  ghost predicate Probes<K, T>(ops: seq<Op<K, T>>, i: nat, k: K, p: Policy) {
    i < |ops| && ops[i].Acquire? && k in ops[i].keys && Admits(After(ops, i, p), ops[i].keys, ops[i].now)
    && At(After(ops, i, p), k, ops[i].now).openUntil > 0
  }

  /** Between i and j the permit of operation i was finished or abandoned. */
  ghost predicate Returned<K, T>(ops: seq<Op<K, T>>, i: nat, j: nat, k: K)
    requires i < |ops| && j <= |ops|
  {
    exists m :: i < m < j && !ops[m].Acquire? && k in ops[m].keys && ops[m].token == ops[i].token
  }

  /** The probe of a token on key k, not to end before `until`. */
  ghost predicate HasProbe<K, T>(cells: Cells<K, T>, k: K, token: T, until: nat) {
    k in cells && cells[k].probeToken == Some(token) && cells[k].probeUntil == until && cells[k].deadline >= until
  }

  lemma ProbeStarts<K, T>(cells: Cells<K, T>, keys: seq<K>, token: T, now: nat, p: Policy, k: K)
    requires Distinct(keys) && k in keys && At(cells, k, now).openUntil > 0
    ensures HasProbe(ProbeAll(cells, keys, token, now, p), k, token, now + p.cooldown)
  {
    ProbeAllAt(cells, keys, token, now, p, k);
  }

  /** No operation of another permit ends a probe before its time: a probing grant
      is refused, finishing and abandoning clear only their own token. */
  lemma ProbeStays<K, T>(cells: Cells<K, T>, op: Op<K, T>, p: Policy, k: K, token: T, until: nat)
    requires HasProbe(cells, k, token, until) && op.now < until && Distinct(op.keys)
    requires !op.Acquire? && k in op.keys ==> op.token != token
    requires until <= op.now + p.cooldown
    ensures HasProbe(Step(cells, op, p), k, token, until)
    ensures op.Acquire? && k in op.keys && At(cells, k, op.now).openUntil > 0 ==> !Admits(cells, op.keys, op.now)
  {
    hide ProbeAll, FinishAll, AbandonAll;
    assert At(cells, k, op.now) == cells[k];
    if k in op.keys {
      var i :| 0 <= i < |op.keys| && op.keys[i] == k;
      match op {
        case Acquire(keys, other, now) =>
          if cells[k].openUntil > 0 {
            assert Blocks(At(cells, keys[i], now), now);
          }
          ProbeAllAt(cells, keys, other, now, p, k);
        case Finish(keys, other, report, now) =>
          FinishAllAt(cells, keys, other, report, now, p, i);
        case Abandon(keys, other, now) =>
          AbandonAllAt(cells, keys, other, now, k);
      }
    } else {
      match op {
        case Acquire(keys, other, now) =>
          ProbeAllAt(cells, keys, other, now, p, k);
        case Finish(keys, other, report, now) =>
          FinishAllElsewhere(cells, keys, other, report, now, p, k);
        case Abandon(keys, other, now) =>
          AbandonAllAt(cells, keys, other, now, k);
      }
    }
  }

  lemma {:induction false} ProbeHolds<K, T>(ops: seq<Op<K, T>>, i: nat, n: nat, k: K, p: Policy)
    requires Orderly(ops) && Probes(ops, i, k, p) && i < n <= |ops|
    requires !Returned(ops, i, n, k) && forall m :: i < m < n ==> ops[m].now < ops[i].now + p.cooldown
    ensures HasProbe(After(ops, n, p), k, ops[i].token, ops[i].now + p.cooldown)
  {
    hide HasProbe, ProbeAll;
    if n == i + 1 {
      ProbeStarts(After(ops, i, p), ops[i].keys, ops[i].token, ops[i].now, p, k);
    } else {
      ProbeHolds(ops, i, n - 1, k, p);
      ProbeStays(After(ops, n - 1, p), ops[n - 1], p, k, ops[i].token, ops[i].now + p.cooldown);
    }
  }

  /** Half-open exclusivity: of two probing grants on a key, the first permit was
      given back before the second grant, or a whole cooldown lies between. */
  lemma HalfOpenIsExclusive<K, T>(ops: seq<Op<K, T>>, i: nat, j: nat, k: K, p: Policy)
    requires Orderly(ops) && i < j && Probes(ops, i, k, p) && Probes(ops, j, k, p)
    ensures Returned(ops, i, j, k) || ops[j].now >= ops[i].now + p.cooldown
  {
    hide HasProbe, ProbeAll;
    if !Returned(ops, i, j, k) && ops[j].now < ops[i].now + p.cooldown {
      ProbeHolds(ops, i, j, k, p);
      ProbeStays(After(ops, j, p), ops[j], p, k, ops[i].token, ops[i].now + p.cooldown);
    }
  }

  // Opening and staying open.

  /** Finish i is a failure counted against key k that opens it. */
  ghost predicate Trips<K, T>(ops: seq<Op<K, T>>, i: nat, k: K, p: Policy) {
    i < |ops| && ops[i].Finish? && CountsAgainst(ops[i], k)
    && var c := Windowed(At(After(ops, i, p), k, ops[i].now), ops[i].now, p);
       Opens(c.failures + 1, c.successes, ops[i].report, p)
  }

  ghost predicate CountsAgainst<K, T>(op: Op<K, T>, k: K) {
    op.Finish? && 0 < op.report.failureIndex <= |op.keys| && op.keys[op.report.failureIndex - 1] == k
  }

  ghost predicate CountsFor<K, T>(op: Op<K, T>, k: K) {
    op.Finish? && op.report.failureIndex == 0 && k in op.keys
  }

  ghost predicate OpenUntil<K, T>(cells: Cells<K, T>, k: K, until: nat) {
    k in cells && cells[k].openUntil >= until && cells[k].deadline >= until
  }

  lemma TripOpens<K, T>(ops: seq<Op<K, T>>, i: nat, k: K, p: Policy)
    requires Orderly(ops) && Trips(ops, i, k, p)
    ensures OpenUntil(After(ops, i + 1, p), k, ops[i].now + p.cooldown)
  {
    var op := ops[i];
    FinishAllAt(After(ops, i, p), op.keys, op.token, op.report, op.now, p, op.report.failureIndex - 1);
  }

  lemma OpenStays<K, T>(cells: Cells<K, T>, op: Op<K, T>, p: Policy, k: K, until: nat)
    requires OpenUntil(cells, k, until) && op.now < until <= op.now + p.cooldown && Distinct(op.keys)
    requires !CountsFor(op, k)
    ensures OpenUntil(Step(cells, op, p), k, until)
    ensures op.Acquire? && k in op.keys ==> !Admits(cells, op.keys, op.now)
  {
    hide ProbeAll, FinishAll, AbandonAll;
    assert At(cells, k, op.now) == cells[k];
    if k in op.keys {
      var i :| 0 <= i < |op.keys| && op.keys[i] == k;
      match op {
        case Acquire(keys, token, now) =>
          assert Blocks(At(cells, keys[i], now), now);
        case Finish(keys, token, report, now) =>
          FinishAllAt(cells, keys, token, report, now, p, i);
        case Abandon(keys, token, now) =>
          AbandonAllAt(cells, keys, token, now, k);
      }
    } else {
      match op {
        case Acquire(keys, token, now) =>
          ProbeAllAt(cells, keys, token, now, p, k);
        case Finish(keys, token, report, now) =>
          FinishAllElsewhere(cells, keys, token, report, now, p, k);
        case Abandon(keys, token, now) =>
          AbandonAllAt(cells, keys, token, now, k);
      }
    }
  }

  lemma {:induction false} OpenHolds<K, T>(ops: seq<Op<K, T>>, i: nat, n: nat, k: K, p: Policy)
    requires Orderly(ops) && Trips(ops, i, k, p) && i < n <= |ops|
    requires forall m :: i < m < n ==> !CountsFor(ops[m], k) && ops[m].now < ops[i].now + p.cooldown
    ensures OpenUntil(After(ops, n, p), k, ops[i].now + p.cooldown)
  {
    hide OpenUntil, Trips;
    if n == i + 1 {
      TripOpens(ops, i, k, p);
    } else {
      OpenHolds(ops, i, n - 1, k, p);
      assert !CountsFor(ops[n - 1], k);
      OpenStays(After(ops, n - 1, p), ops[n - 1], p, k, ops[i].now + p.cooldown);
    }
  }

  /** A tripped key refuses every permit for a whole cooldown, unless a success is
      reported on it in the meantime. */
  lemma CooldownIsKept<K, T>(ops: seq<Op<K, T>>, i: nat, j: nat, k: K, p: Policy)
    requires Orderly(ops) && Trips(ops, i, k, p) && i < j < |ops|
    requires ops[j].Acquire? && k in ops[j].keys && ops[j].now < ops[i].now + p.cooldown
    requires forall m :: i < m < j ==> !CountsFor(ops[m], k)
    ensures !Admits(After(ops, j, p), ops[j].keys, ops[j].now)
  {
    hide OpenUntil, Trips;
    OpenHolds(ops, i, j, k, p);
    OpenStays(After(ops, j, p), ops[j], p, k, ops[i].now + p.cooldown);
  }

  /** Failure m tripped key k and no success was reported on it until operation n. */
  ghost predicate OpenSince<K, T>(ops: seq<Op<K, T>>, m: nat, n: nat, k: K, p: Policy)
    requires n <= |ops|
  {
    m < n && Trips(ops, m, k, p) && forall j :: m < j < n ==> !CountsFor(ops[j], k)
  }

  ghost predicate HasOpening<K, T>(cells: Cells<K, T>, k: K) {
    k in cells && cells[k].openUntil > 0
  }

  /** One operation: it opens the key by tripping it, or leaves the opening it finds. */
  lemma OpeningSteps<K, T>(cells: Cells<K, T>, op: Op<K, T>, p: Policy, k: K)
    requires Distinct(op.keys) && HasOpening(Step(cells, op, p), k)
    ensures !CountsFor(op, k)
    ensures (HasOpening(cells, k) && Step(cells, op, p)[k].openUntil == cells[k].openUntil)
            || (CountsAgainst(op, k) && Step(cells, op, p)[k].openUntil == op.now + p.cooldown
                && var c := Windowed(At(cells, k, op.now), op.now, p); Opens(c.failures + 1, c.successes, op.report, p))
  {
    hide ProbeAll, FinishAll, AbandonAll, Admits, Ratio;
    match op {
      case Acquire(keys, token, now) =>
        ProbeAllAt(cells, keys, token, now, p, k);
      case Finish(keys, token, report, now) =>
        if k in keys {
          var i :| 0 <= i < |keys| && keys[i] == k;
          FinishAllAt(cells, keys, token, report, now, p, i);
        } else {
          FinishAllElsewhere(cells, keys, token, report, now, p, k);
        }
      case Abandon(keys, token, now) =>
        AbandonAllAt(cells, keys, token, now, k);
    }
  }

  /** Whatever is open after a run was opened by a failure that tripped it, with no
      success reported since, and its opening time is that failure's. */
  lemma {:induction false} OpenedByATrip<K, T>(ops: seq<Op<K, T>>, n: nat, k: K, p: Policy)
    requires Orderly(ops) && n <= |ops| && HasOpening(After(ops, n, p), k)
    ensures exists m :: 0 <= m < n && OpenSince(ops, m, n, k, p) && After(ops, n, p)[k].openUntil == ops[m].now + p.cooldown
  {
    hide Trips, CountsFor, CountsAgainst, Step;
    NothingOpen(ops, k, p);
    var cells, op := After(ops, n - 1, p), ops[n - 1];
    OpeningSteps(cells, op, p, k);
    if HasOpening(cells, k) && After(ops, n, p)[k].openUntil == cells[k].openUntil {
      OpenedByATrip(ops, n - 1, k, p);
      var m :| 0 <= m < n - 1 && OpenSince(ops, m, n - 1, k, p) && cells[k].openUntil == ops[m].now + p.cooldown;
      assert OpenSince(ops, m, n, k, p);
    } else {
      NewTrip(ops, n - 1, k, p);
      assert OpenSince(ops, n - 1, n, k, p);
    }
  }

  lemma NothingOpen<K, T>(ops: seq<Op<K, T>>, k: K, p: Policy)
    ensures !HasOpening(After(ops, 0, p), k)
  {
  }

  lemma NewTrip<K, T>(ops: seq<Op<K, T>>, i: nat, k: K, p: Policy)
    requires i < |ops| && CountsAgainst(ops[i], k)
    requires var c := Windowed(At(After(ops, i, p), k, ops[i].now), ops[i].now, p);
             Opens(c.failures + 1, c.successes, ops[i].report, p)
    ensures Trips(ops, i, k, p)
  {
    hide Opens, Windowed, At, After;
  }

  /** A success closes its keys for the rest of the run: whatever follows, none of them
      refuses a permit before a failure trips it again. */
  lemma SuccessCloses<K, T>(ops: seq<Op<K, T>>, i: nat, n: nat, k: K, p: Policy, later: nat)
    requires Orderly(ops) && i < n <= |ops| && CountsFor(ops[i], k)
    requires forall m :: i < m < n ==> !Trips(ops, m, k, p)
    ensures var c := At(After(ops, n, p), k, later); c.openUntil == 0 && !Blocks(c, later)
  {
    hide After, Trips;
    if HasOpening(After(ops, n, p), k) {
      OpenedByATrip(ops, n, k, p);
      var m :| 0 <= m < n && OpenSince(ops, m, n, k, p);
      TripIsNoSuccess(ops, m, k, p);
    }
  }

  lemma TripIsNoSuccess<K, T>(ops: seq<Op<K, T>>, m: nat, k: K, p: Policy)
    requires Trips(ops, m, k, p)
    ensures !CountsFor(ops[m], k)
  {
  }

  // What the counters of a key stand for.

  /** The finishes r to n that count for (or against) key k. */
  ghost function Tally<K, T>(ops: seq<Op<K, T>>, r: nat, n: nat, k: K, success: bool): nat
    requires r <= n <= |ops|
    decreases n
  {
    if n == r then 0
    else Tally(ops, r, n - 1, k, success)
         + (if (if success then CountsFor(ops[n - 1], k) else CountsAgainst(ops[n - 1], k)) then 1 else 0)
  }

  ghost predicate Finishes<K, T>(op: Op<K, T>, k: K) {
    op.Finish? && k in op.keys
  }

  /** The finish that opened the window key k is in after n operations: the first one,
      then each that came more than a window after the one before it in this list. */
  ghost function WindowStart<K, T>(ops: seq<Op<K, T>>, n: nat, k: K, window: nat): (r: Option<nat>)
    requires n <= |ops|
    ensures r.Some? ==> r.value < n && Finishes(ops[r.value], k)
  {
    if n == 0 then None
    else
      var before := WindowStart(ops, n - 1, k, window);
      if Finishes(ops[n - 1], k) && (before.None? || ops[n - 1].now - ops[before.value].now > window) then Some(n - 1)
      else before
  }

  /** A cell counts the finishes since the window's start. */
  ghost predicate CountsWindow<K, T>(c: Cell<T>, ops: seq<Op<K, T>>, n: nat, k: K, r: Option<nat>)
    requires n <= |ops|
  {
    r.Some? && r.value <= n <= |ops| && r.value < |ops|
    && c.windowStarted == ops[r.value].now
    && c.successes == Tally(ops, r.value, n, k, true) && c.failures == Tally(ops, r.value, n, k, false)
  }

  ghost predicate Accounted<K, T>(cells: Cells<K, T>, ops: seq<Op<K, T>>, n: nat, k: K, p: Policy)
    requires n <= |ops|
  {
    var r := WindowStart(ops, n, k, p.window);
    (k in cells <==> r.Some?)
    && (k in cells ==> CountsWindow(cells[k], ops, n, k, r) && cells[k].deadline >= cells[k].windowStarted + p.window)
  }

  lemma OtherOpCountsNothing<K, T>(cells: Cells<K, T>, after: Cells<K, T>, ops: seq<Op<K, T>>, n: nat, k: K, p: Policy)
    requires Orderly(ops) && n < |ops| && Accounted(cells, ops, n, k, p) && !Finishes(ops[n], k)
    requires k in after <==> k in cells
    requires k in after ==> after[k].successes == cells[k].successes && after[k].failures == cells[k].failures
                            && after[k].windowStarted == cells[k].windowStarted
                            && (after[k].deadline >= cells[k].deadline || after[k].deadline >= ops[n].now + p.window)
    ensures Accounted(after, ops, n + 1, k, p)
  {
    var r := WindowStart(ops, n, k, p.window);
    assert WindowStart(ops, n + 1, k, p.window) == r;
    assert r.Some? ==> Tally(ops, r.value, n + 1, k, true) == Tally(ops, r.value, n, k, true);
    assert r.Some? ==> Tally(ops, r.value, n + 1, k, false) == Tally(ops, r.value, n, k, false);
  }

  /** Settling the window agrees with the reference; an expired key was out of its window anyway. */
  lemma WindowedCounts<K, T>(cells: Cells<K, T>, ops: seq<Op<K, T>>, n: nat, k: K, p: Policy)
    requires Orderly(ops) && n < |ops| && Accounted(cells, ops, n, k, p) && Finishes(ops[n], k)
    ensures CountsWindow(Windowed(At(cells, k, ops[n].now), ops[n].now, p), ops, n, k, WindowStart(ops, n + 1, k, p.window))
  {
  }

  lemma FinishCounts<K, T>(c: Cell<T>, ops: seq<Op<K, T>>, n: nat, k: K, i: nat, p: Policy)
    requires Orderly(ops) && n < |ops| && ops[n].Finish? && i < |ops[n].keys| && ops[n].keys[i] == k
    requires CountsWindow(c, ops, n, k, WindowStart(ops, n + 1, k, p.window))
    ensures CountsWindow(Counted(c, i + 1, ops[n].report, ops[n].now, p), ops, n + 1, k, WindowStart(ops, n + 1, k, p.window))
  {
    hide WindowStart;
    assert CountsAgainst(ops[n], k) <==> ops[n].report.failureIndex == i + 1;
  }

  lemma AccountedAfterFinish<K, T>(cells: Cells<K, T>, ops: seq<Op<K, T>>, n: nat, k: K, p: Policy)
    requires Orderly(ops) && n < |ops| && Accounted(cells, ops, n, k, p) && Finishes(ops[n], k)
    ensures Accounted(Step(cells, ops[n], p), ops, n + 1, k, p)
  {
    hide FinishAll, WindowStart, Tally;
    var op := ops[n];
    var i :| 0 <= i < |op.keys| && op.keys[i] == k;
    FinishAllAt(cells, op.keys, op.token, op.report, op.now, p, i);
    WindowedCounts(cells, ops, n, k, p);
    FinishCounts(Windowed(At(cells, k, op.now), op.now, p), ops, n, k, i, p);
    var c := Counted(Windowed(At(cells, k, op.now), op.now, p), i + 1, op.report, op.now, p);
    var after := Step(cells, op, p);
    assert after[k].successes == c.successes && after[k].failures == c.failures && after[k].windowStarted == c.windowStarted;
    assert c.windowStarted <= op.now;
  }

  /** After any run every key's counters are the tallies of its window. */
  lemma {:induction false} CountersAreTallies<K, T>(ops: seq<Op<K, T>>, n: nat, k: K, p: Policy)
    requires Orderly(ops) && n <= |ops|
    ensures Accounted(After(ops, n, p), ops, n, k, p)
  {
    hide Accounted, ProbeAll, FinishAll, AbandonAll;
    if n == 0 {
      NothingCounted(ops, k, p);
    } else {
      CountersAreTallies(ops, n - 1, k, p);
      var cells := After(ops, n - 1, p);
      var op := ops[n - 1];
      if Finishes(op, k) {
        AccountedAfterFinish(cells, ops, n - 1, k, p);
      } else {
        match op {
          case Acquire(keys, token, now) => ProbeAllAt(cells, keys, token, now, p, k);
          case Abandon(keys, token, now) => AbandonAllAt(cells, keys, token, now, k);
          case Finish(keys, token, report, now) => FinishAllElsewhere(cells, keys, token, report, now, p, k);
        }
        OtherOpCountsNothing(cells, Step(cells, op, p), ops, n - 1, k, p);
      }
    }
  }

  lemma NothingCounted<K, T>(ops: seq<Op<K, T>>, k: K, p: Policy)
    ensures Accounted(After(ops, 0, p), ops, 0, k, p)
  {
  }

  lemma RatioAtLeast(failures: nat, total: nat, threshold: nat)
    requires total > 0
    ensures Ratio(failures, total) >= threshold <==> failures * 1000 >= threshold * total
  {
    var ratio := Ratio(failures, total);
    assert failures * 1000 == total * ratio + failures * 1000 % total;
    assert threshold * total == total * threshold;
    if ratio > threshold {
      ProductGap(total, ratio, threshold);
    } else if ratio < threshold {
      ProductGap(total, threshold, ratio);
    }
  }

  /** When a failure opens its key: more than one tier, and either a forcing error or a
      share of failures, over all finishes of the window, that reaches the threshold. */
  lemma WhenFailureOpens<K, T>(ops: seq<Op<K, T>>, j: nat, k: K, p: Policy)
    requires Orderly(ops) && j < |ops| && CountsAgainst(ops[j], k)
    ensures WindowStart(ops, j + 1, k, p.window).Some?
    ensures var r := WindowStart(ops, j + 1, k, p.window).value;
            var failures := Tally(ops, r, j + 1, k, false);
            Trips(ops, j, k, p) <==>
            ops[j].report.tierSize > 1
            && (ops[j].report.forceOpen || failures * 1000 >= p.thresholdMillis * (Tally(ops, r, j + 1, k, true) + failures))
  {
    hide WindowStart, After, Accounted, At, Windowed, Ratio;
    CountersAreTallies(ops, j, k, p);
    WindowedCounts(After(ops, j, p), ops, j, k, p);
    var c := Windowed(At(After(ops, j, p), k, ops[j].now), ops[j].now, p);
    RatioAtLeast(c.failures + 1, c.successes + (c.failures + 1), p.thresholdMillis);
  }

  /** A window never spans more than its length. */
  lemma {:induction false} WindowIsRecent<K, T>(ops: seq<Op<K, T>>, n: nat, k: K, window: nat)
    requires Orderly(ops) && n < |ops| && Finishes(ops[n], k)
    ensures WindowStart(ops, n + 1, k, window).Some?
    ensures ops[n].now - window <= ops[WindowStart(ops, n + 1, k, window).value].now
  {
  }
}

/** When the shared circuit breaker refuses a permit, in terms of the operations before:
    which failures still stand, and which probes are still out. */
module CircuitDecisions {
  import opened Results
  import opened Circuits
  import opened CircuitRuns

  // Failures that stand.

  /** Failure m was counted against key k and met the conditions for opening it: more than
      one tier, and a forcing error or enough failures among the finishes of its window. */
  ghost predicate TrippedBy<K, T>(ops: seq<Op<K, T>>, m: nat, k: K, p: Policy) {
    m < |ops| && CountsAgainst(ops[m], k) && ops[m].report.tierSize > 1
    && (ops[m].report.forceOpen
        || match WindowStart(ops, m + 1, k, p.window)
           case None => false
           case Some(r) =>
             var failures := Tally(ops, r, m + 1, k, false);
             failures * 1000 >= p.thresholdMillis * (Tally(ops, r, m + 1, k, true) + failures))
  }

  lemma TripsAreTripped<K, T>(ops: seq<Op<K, T>>, m: nat, k: K, p: Policy)
    requires Orderly(ops)
    ensures Trips(ops, m, k, p) <==> TrippedBy(ops, m, k, p)
  {
    hide WindowStart, After, Tally, Windowed, Opens;
    if m < |ops| && CountsAgainst(ops[m], k) {
      WhenFailureOpens(ops, m, k, p);
    }
  }

  /** Failure m tripped key k, and no success was reported on it before operation n. */
  ghost predicate Stands<K, T>(ops: seq<Op<K, T>>, m: nat, n: nat, k: K, p: Policy)
    requires n <= |ops|
  {
    m < n && TrippedBy(ops, m, k, p) && forall j :: m < j < n ==> !CountsFor(ops[j], k)
  }

  lemma StandsIsOpenSince<K, T>(ops: seq<Op<K, T>>, m: nat, n: nat, k: K, p: Policy)
    requires Orderly(ops) && n <= |ops|
    ensures Stands(ops, m, n, k, p) <==> OpenSince(ops, m, n, k, p)
  {
    hide Trips, TrippedBy, CountsFor;
    TripsAreTripped(ops, m, k, p);
  }

  // Probes that are out.

  /** Permit j is the probe of key k, and was neither finished nor abandoned on it before
      operation n. */
  ghost predicate ProbeOut<K, T>(ops: seq<Op<K, T>>, j: nat, n: nat, k: K, p: Policy)
    requires n <= |ops|
  {
    j < n && Probes(ops, j, k, p) && !Returned(ops, j, n, k)
  }

  /** The cell says that permit j probes. */
  ghost predicate ProbeOf<K, T>(c: Cell<T>, ops: seq<Op<K, T>>, j: nat, p: Policy)
    requires j < |ops|
  {
    c.probeToken == Some(ops[j].token) && c.probeUntil == ops[j].now + p.cooldown
  }

  ghost predicate NoProbe<T>(c: Cell<T>) {
    c.probeToken == None && c.probeUntil == 0
  }

  /** What a key's probe fields stand for after n operations, if it is still alive. */
  ghost predicate ProbeAccounted<K, T>(ops: seq<Op<K, T>>, n: nat, k: K, p: Policy)
    requires n <= |ops|
  {
    var cells := After(ops, n, p);
    k in cells && (n > 0 ==> ops[n - 1].now <= cells[k].deadline) ==>
      NoProbe(cells[k]) || exists j :: 0 <= j < n && ProbeOut(ops, j, n, k, p) && ProbeOf(cells[k], ops, j, p)
  }

  /** What one operation does to a key's probe fields. */
  ghost predicate ProbeStep<K, T>(before: Cells<K, T>, after: Cells<K, T>, op: Op<K, T>, k: K, p: Policy) {
    k in after && op.now <= after[k].deadline ==>
      NoProbe(after[k])
      || (k in before && op.now <= before[k].deadline && after[k].probeToken == before[k].probeToken && after[k].probeUntil == before[k].probeUntil
          && (!op.Acquire? && k in op.keys ==> before[k].probeToken != Some(op.token)))
      || (op.Acquire? && k in op.keys && Admits(before, op.keys, op.now) && At(before, k, op.now).openUntil > 0
          && after[k].probeToken == Some(op.token) && after[k].probeUntil == op.now + p.cooldown)
  }

  lemma ProbeSteps<K, T>(cells: Cells<K, T>, op: Op<K, T>, k: K, p: Policy)
    requires Distinct(op.keys)
    ensures ProbeStep(cells, Step(cells, op, p), op, k, p)
  {
    hide ProbeAll, FinishAll, AbandonAll, Admits, Opens;
    match op {
      case Acquire(keys, token, now) =>
        ProbeAllAt(cells, keys, token, now, p, k);
      case Finish(keys, token, report, now) =>
        if k in keys {
          var i :| 0 <= i < |keys| && keys[i] == k;
          FinishAllAt(cells, keys, token, report, now, p, i);
        } else {
          FinishAllElsewhere(cells, keys, token, report, now, p, k);
        }
      case Abandon(keys, token, now) =>
        AbandonAllAt(cells, keys, token, now, k);
    }
  }

  lemma ReturnedStep<K, T>(ops: seq<Op<K, T>>, j: nat, n: nat, k: K)
    requires j < n < |ops|
    ensures Returned(ops, j, n + 1, k) <==> Returned(ops, j, n, k) || (!ops[n].Acquire? && k in ops[n].keys && ops[n].token == ops[j].token)
  {
  }

  lemma JustGranted<K, T>(ops: seq<Op<K, T>>, n: nat, k: K)
    requires n < |ops|
    ensures !Returned(ops, n, n + 1, k)
  {
  }

  lemma {:induction false} ProbesAreGrants<K, T>(ops: seq<Op<K, T>>, n: nat, k: K, p: Policy)
    requires Orderly(ops) && n <= |ops|
    ensures ProbeAccounted(ops, n, k, p)
  {
    hide Step, Returned, Probes, Admits, At;
    if n > 0 {
      var m := n - 1;
      ProbesAreGrants(ops, m, k, p);
      var cells, op := After(ops, m, p), ops[m];
      ProbeSteps(cells, op, k, p);
      var after := After(ops, n, p);
      if k in after && op.now <= after[k].deadline && !NoProbe(after[k]) {
        if op.Acquire? && after[k].probeToken == Some(op.token) && after[k].probeUntil == op.now + p.cooldown
           && k in op.keys && Admits(cells, op.keys, op.now) && At(cells, k, op.now).openUntil > 0 {
          GrantProbes(ops, m, k, p);
          JustGranted(ops, m, k);
          assert ProbeOut(ops, m, n, k, p) && ProbeOf(after[k], ops, m, p);
        } else {
          var j :| 0 <= j < m && ProbeOut(ops, j, m, k, p) && ProbeOf(cells[k], ops, j, p);
          ReturnedStep(ops, j, m, k);
          assert ProbeOut(ops, j, n, k, p) && ProbeOf(after[k], ops, j, p);
        }
      }
    }
  }

  lemma GrantProbes<K, T>(ops: seq<Op<K, T>>, m: nat, k: K, p: Policy)
    requires m < |ops| && ops[m].Acquire? && k in ops[m].keys && Admits(After(ops, m, p), ops[m].keys, ops[m].now)
    requires At(After(ops, m, p), k, ops[m].now).openUntil > 0
    ensures Probes(ops, m, k, p)
  {
    hide After, Admits, At;
  }

  // Refusals.

  /** Key k was tripped less than a cooldown ago with no success since, or was tripped with
      no success since and has a probe out that is less than a cooldown old. */
  ghost predicate KeyRefuses<K, T>(ops: seq<Op<K, T>>, n: nat, k: K, now: nat, p: Policy)
    requires n <= |ops|
  {
    exists m :: 0 <= m < n && Stands(ops, m, n, k, p)
                && (now < ops[m].now + p.cooldown || exists j :: 0 <= j < n && ProbeOut(ops, j, n, k, p) && now < ops[j].now + p.cooldown)
  }

  lemma BlockedIsRefused<K, T>(ops: seq<Op<K, T>>, n: nat, k: K, now: nat, p: Policy)
    requires Orderly(ops) && n <= |ops| && Blocks(At(After(ops, n, p), k, now), now) && (n > 0 ==> ops[n - 1].now <= now)
    ensures KeyRefuses(ops, n, k, now, p)
  {
    hide After, Stands, ProbeOut, OpenSince;
    OpenedByATrip(ops, n, k, p);
    var m :| 0 <= m < n && OpenSince(ops, m, n, k, p) && After(ops, n, p)[k].openUntil == ops[m].now + p.cooldown;
    StandsIsOpenSince(ops, m, n, k, p);
    ProbesAreGrants(ops, n, k, p);
  }

  lemma RefusedIsBlocked<K, T>(ops: seq<Op<K, T>>, n: nat, k: K, now: nat, p: Policy)
    requires Orderly(ops) && n <= |ops| && KeyRefuses(ops, n, k, now, p) && (n > 0 ==> ops[n - 1].now <= now)
    ensures Blocks(At(After(ops, n, p), k, now), now)
  {
    hide After, Probes, TrippedBy, CountsFor, Returned;
    var m :| 0 <= m < n && Stands(ops, m, n, k, p)
             && (now < ops[m].now + p.cooldown || exists j :: 0 <= j < n && ProbeOut(ops, j, n, k, p) && now < ops[j].now + p.cooldown);
    if now < ops[m].now + p.cooldown {
      TripBlocks(ops, m, n, k, now, p);
    } else {
      var j :| 0 <= j < n && ProbeOut(ops, j, n, k, p) && now < ops[j].now + p.cooldown;
      ProbeBlocks(ops, m, j, n, k, now, p);
    }
  }

  lemma TripBlocks<K, T>(ops: seq<Op<K, T>>, m: nat, n: nat, k: K, now: nat, p: Policy)
    requires Orderly(ops) && n <= |ops| && Stands(ops, m, n, k, p) && now < ops[m].now + p.cooldown
    requires n > 0 ==> ops[n - 1].now <= now
    ensures Blocks(At(After(ops, n, p), k, now), now)
  {
    hide After, Trips, TrippedBy, CountsFor;
    TripsAreTripped(ops, m, k, p);
    OpenHolds(ops, m, n, k, p);
  }

  lemma ProbeBlocks<K, T>(ops: seq<Op<K, T>>, m: nat, j: nat, n: nat, k: K, now: nat, p: Policy)
    requires Orderly(ops) && n <= |ops| && Stands(ops, m, n, k, p) && ProbeOut(ops, j, n, k, p)
    requires now < ops[j].now + p.cooldown && ops[m].now + p.cooldown <= now && (n > 0 ==> ops[n - 1].now <= now)
    ensures Blocks(At(After(ops, n, p), k, now), now)
  {
    hide After, Probes, TrippedBy, CountsFor, Returned;
    assert m < j;
    ProbeHolds(ops, j, n, k, p);
    OpeningStays(ops, j, n, k, p);
  }

  /** While its probe is out and no success is reported, a key stays open. */
  lemma {:induction false} OpeningStays<K, T>(ops: seq<Op<K, T>>, j: nat, n: nat, k: K, p: Policy)
    requires Orderly(ops) && j < n <= |ops| && Probes(ops, j, k, p) && !Returned(ops, j, n, k)
    requires forall i :: j < i < n ==> !CountsFor(ops[i], k) && ops[i].now < ops[j].now + p.cooldown
    ensures HasOpening(After(ops, n, p), k)
    decreases n
  {
    hide Step, Admits, Returned;
    if n == j + 1 {
      ProbedStaysOpen(After(ops, j, p), ops[j], p, k);
    } else {
      var i := n - 1;
      ReturnedStep(ops, j, i, k);
      OpeningStays(ops, j, i, k, p);
      ProbeHolds(ops, j, i, k, p);
      UnreportedStaysOpen(After(ops, i, p), ops[i], p, k);
    }
  }

  lemma ProbedStaysOpen<K, T>(cells: Cells<K, T>, op: Op<K, T>, p: Policy, k: K)
    requires op.Acquire? && Distinct(op.keys) && k in op.keys && Admits(cells, op.keys, op.now) && At(cells, k, op.now).openUntil > 0
    ensures HasOpening(Step(cells, op, p), k)
  {
    hide ProbeAll, Admits;
    ProbeAllAt(cells, op.keys, op.token, op.now, p, k);
  }

  /** A key that has not expired keeps its opening through everything but a success. */
  lemma UnreportedStaysOpen<K, T>(cells: Cells<K, T>, op: Op<K, T>, p: Policy, k: K)
    requires HasOpening(cells, k) && op.now <= cells[k].deadline && Distinct(op.keys) && !CountsFor(op, k) && op.now > 0
    ensures HasOpening(Step(cells, op, p), k)
  {
    hide ProbeAll, FinishAll, AbandonAll, Admits, Opens;
    match op {
      case Acquire(keys, token, now) =>
        ProbeAllAt(cells, keys, token, now, p, k);
      case Finish(keys, token, report, now) =>
        if k in keys {
          var i :| 0 <= i < |keys| && keys[i] == k;
          FinishAllAt(cells, keys, token, report, now, p, i);
        } else {
          FinishAllElsewhere(cells, keys, token, report, now, p, k);
        }
      case Abandon(keys, token, now) =>
        AbandonAllAt(cells, keys, token, now, k);
    }
  }

  /** The whole verdict: a permit is refused exactly when one of its keys refuses it. */
  lemma RefusalIsExact<K, T>(ops: seq<Op<K, T>>, n: nat, p: Policy)
    requires Orderly(ops) && n < |ops|
    ensures Admits(After(ops, n, p), ops[n].keys, ops[n].now)
            <==> forall i :: 0 <= i < |ops[n].keys| ==> !KeyRefuses(ops, n, ops[n].keys[i], ops[n].now, p)
  {
    hide After, KeyRefuses, At, Blocks;
    var keys, now := ops[n].keys, ops[n].now;
    forall i | 0 <= i < |keys|
      ensures Blocks(At(After(ops, n, p), keys[i], now), now) <==> KeyRefuses(ops, n, keys[i], now, p)
    {
      if Blocks(At(After(ops, n, p), keys[i], now), now) {
        BlockedIsRefused(ops, n, keys[i], now, p);
      } else if KeyRefuses(ops, n, keys[i], now, p) {
        RefusedIsBlocked(ops, n, keys[i], now, p);
      }
    }
  }

  // Which grants probe.

  /** Operation w wrote key k, which renews the time it is kept. */
  ghost predicate Writes<K, T>(ops: seq<Op<K, T>>, w: nat, k: K, p: Policy) {
    w < |ops| && (Finishes(ops[w], k) || Probes(ops, w, k, p))
  }

  /** A write from m on, before x, keeps key k alive at time t: a key is kept for a window or
      four cooldowns, whichever is longer. */
  ghost predicate KeptAlive<K, T>(ops: seq<Op<K, T>>, m: nat, x: nat, k: K, t: nat, p: Policy)
    requires x <= |ops|
  {
    exists w :: m <= w < x && Writes(ops, w, k, p)
                && (t <= ops[w].now + p.window || t <= ops[w].now + 4 * p.cooldown)
  }

  /** The key was never forgotten from failure m on until time t: at every finish, and at t. */
  ghost predicate RememberedFrom<K, T>(ops: seq<Op<K, T>>, m: nat, n: nat, k: K, t: nat, p: Policy)
    requires n <= |ops|
  {
    (forall x :: m < x < n && Finishes(ops[x], k) ==> KeptAlive(ops, m, x, k, ops[x].now, p)) && KeptAlive(ops, m, n, k, t, p)
  }

  ghost predicate DeadlineOf<K, T>(ops: seq<Op<K, T>>, n: nat, k: K, p: Policy)
    requires n <= |ops|
  {
    var cells := After(ops, n, p);
    (k in cells ==> exists w :: 0 <= w < n && LastWrite(ops, w, n, k, p) && cells[k].deadline == ops[w].now + p.Ttl())
    && (forall w :: 0 <= w < n && Writes(ops, w, k, p) ==> k in cells)
  }

  ghost predicate LastWrite<K, T>(ops: seq<Op<K, T>>, w: nat, n: nat, k: K, p: Policy)
    requires n <= |ops|
  {
    w < n && Writes(ops, w, k, p) && forall x :: w < x < n ==> !Writes(ops, x, k, p)
  }

  /** A write sets the deadline, anything else leaves it. */
  lemma DeadlineSteps<K, T>(ops: seq<Op<K, T>>, i: nat, k: K, p: Policy)
    requires Orderly(ops) && i < |ops|
    ensures var cells, after := After(ops, i, p), After(ops, i + 1, p);
            if Writes(ops, i, k, p) then k in after && after[k].deadline == ops[i].now + p.Ttl()
            else (k in after <==> k in cells) && (k in after ==> after[k].deadline == cells[k].deadline)
  {
    hide ProbeAll, FinishAll, AbandonAll, Admits, Opens;
    var cells := After(ops, i, p);
    match ops[i] {
      case Acquire(keys, token, now) =>
        ProbeAllAt(cells, keys, token, now, p, k);
      case Finish(keys, token, report, now) =>
        if k in keys {
          var x :| 0 <= x < |keys| && keys[x] == k;
          FinishAllAt(cells, keys, token, report, now, p, x);
        } else {
          FinishAllElsewhere(cells, keys, token, report, now, p, k);
        }
      case Abandon(keys, token, now) =>
        AbandonAllAt(cells, keys, token, now, k);
    }
  }

  lemma {:induction false} DeadlineIsLastWrite<K, T>(ops: seq<Op<K, T>>, n: nat, k: K, p: Policy)
    requires Orderly(ops) && n <= |ops|
    ensures DeadlineOf(ops, n, k, p)
  {
    hide Writes, Step;
    if n > 0 {
      var i := n - 1;
      DeadlineIsLastWrite(ops, i, k, p);
      DeadlineSteps(ops, i, k, p);
      if Writes(ops, i, k, p) {
        assert LastWrite(ops, i, n, k, p);
      } else if k in After(ops, n, p) {
        var w :| 0 <= w < i && LastWrite(ops, w, i, k, p) && After(ops, i, p)[k].deadline == ops[w].now + p.Ttl();
        assert LastWrite(ops, w, n, k, p);
      }
    }
  }

  /** A key is alive exactly while some write keeps it. */
  lemma AliveIsKept<K, T>(ops: seq<Op<K, T>>, m: nat, n: nat, k: K, t: nat, p: Policy)
    requires Orderly(ops) && m < n <= |ops| && Writes(ops, m, k, p)
    ensures k in After(ops, n, p) && (t <= After(ops, n, p)[k].deadline <==> KeptAlive(ops, m, n, k, t, p))
  {
    hide After, Writes;
    DeadlineIsLastWrite(ops, n, k, p);
    var last :| 0 <= last < n && LastWrite(ops, last, n, k, p) && After(ops, n, p)[k].deadline == ops[last].now + p.Ttl();
    assert m <= last;
  }

  lemma {:induction false} RememberedStaysOpen<K, T>(ops: seq<Op<K, T>>, m: nat, n: nat, k: K, p: Policy)
    requires Orderly(ops) && n <= |ops| && Stands(ops, m, n, k, p)
    requires forall x :: m < x < n && Finishes(ops[x], k) ==> KeptAlive(ops, m, x, k, ops[x].now, p)
    ensures HasOpening(After(ops, n, p), k)
    decreases n
  {
    hide Step, TrippedBy, CountsFor, KeptAlive;
    TripsAreTripped(ops, m, k, p);
    if n == m + 1 {
      TripOpens(ops, m, k, p);
      assert ops[m].now > 0;
    } else {
      var x := n - 1;
      RememberedStaysOpen(ops, m, x, k, p);
      TripWrites(ops, m, k, p);
      AliveIsKept(ops, m, x, k, ops[x].now, p);
      if ops[x].now <= After(ops, x, p)[k].deadline {
        UnreportedStaysOpen(After(ops, x, p), ops[x], p, k);
      } else {
        ForgottenIsLeft(After(ops, x, p), ops[x], p, k);
      }
    }
  }

  lemma TripWrites<K, T>(ops: seq<Op<K, T>>, m: nat, k: K, p: Policy)
    requires m < |ops| && TrippedBy(ops, m, k, p)
    ensures Writes(ops, m, k, p)
  {
    hide Probes;
  }

  /** Only a finish touches a key whose time is over. */
  lemma ForgottenIsLeft<K, T>(cells: Cells<K, T>, op: Op<K, T>, p: Policy, k: K)
    requires HasOpening(cells, k) && op.now > cells[k].deadline && Distinct(op.keys) && !Finishes(op, k)
    ensures HasOpening(Step(cells, op, p), k)
  {
    hide ProbeAll, FinishAll, AbandonAll, Admits;
    match op {
      case Acquire(keys, token, now) => ProbeAllAt(cells, keys, token, now, p, k);
      case Finish(keys, token, report, now) => FinishAllElsewhere(cells, keys, token, report, now, p, k);
      case Abandon(keys, token, now) => AbandonAllAt(cells, keys, token, now, k);
    }
  }

  lemma {:induction false} OpenIsRemembered<K, T>(ops: seq<Op<K, T>>, n: nat, k: K, p: Policy)
    requires Orderly(ops) && n <= |ops| && HasOpening(After(ops, n, p), k)
    ensures exists m :: 0 <= m < n && Stands(ops, m, n, k, p)
                        && forall x :: m < x < n && Finishes(ops[x], k) ==> KeptAlive(ops, m, x, k, ops[x].now, p)
  {
    hide Trips, TrippedBy, CountsFor, Step, KeptAlive, Finishes, Opens, Windowed, At;
    NothingOpen(ops, k, p);
    var i := n - 1;
    var cells, op := After(ops, i, p), ops[i];
    OpeningSteps(cells, op, p, k);
    if op.Finish? && CountsAgainst(op, k) && After(ops, n, p)[k].openUntil == op.now + p.cooldown
       && var c := Windowed(At(cells, k, op.now), op.now, p); Opens(c.failures + 1, c.successes, op.report, p) {
      NewTrip(ops, i, k, p);
      TripsAreTripped(ops, i, k, p);
      assert Stands(ops, i, n, k, p);
    } else {
      OpenIsRemembered(ops, i, k, p);
      var m :| 0 <= m < i && Stands(ops, m, i, k, p)
               && forall x :: m < x < i && Finishes(ops[x], k) ==> KeptAlive(ops, m, x, k, ops[x].now, p);
      assert Stands(ops, m, n, k, p);
      if Finishes(op, k) {
        FinishedWasAlive(cells, op, p, k);
        TripWrites(ops, m, k, p);
        AliveIsKept(ops, m, i, k, op.now, p);
      }
    }
  }

  /** A finish that leaves a key open without tripping it found it alive. */
  lemma FinishedWasAlive<K, T>(cells: Cells<K, T>, op: Op<K, T>, p: Policy, k: K)
    requires Distinct(op.keys) && Finishes(op, k) && HasOpening(Step(cells, op, p), k)
    requires !(CountsAgainst(op, k) && Step(cells, op, p)[k].openUntil == op.now + p.cooldown
               && var c := Windowed(At(cells, k, op.now), op.now, p); Opens(c.failures + 1, c.successes, op.report, p))
    ensures k in cells && op.now <= cells[k].deadline
  {
    hide FinishAll, Opens;
    var i :| 0 <= i < |op.keys| && op.keys[i] == k;
    FinishAllAt(cells, op.keys, op.token, op.report, op.now, p, i);
  }

  /** A key is open at time t exactly when a failure that tripped it stands and the key was
      not forgotten since. */
  lemma WhenOpen<K, T>(ops: seq<Op<K, T>>, n: nat, k: K, t: nat, p: Policy)
    requires Orderly(ops) && n <= |ops| && (n > 0 ==> ops[n - 1].now <= t)
    ensures At(After(ops, n, p), k, t).openUntil > 0
            <==> exists m :: 0 <= m < n && Stands(ops, m, n, k, p) && RememberedFrom(ops, m, n, k, t, p)
  {
    hide After, Stands, KeptAlive, Writes;
    if At(After(ops, n, p), k, t).openUntil > 0 {
      OpenIsRemembered(ops, n, k, p);
      var m :| 0 <= m < n && Stands(ops, m, n, k, p)
               && forall x :: m < x < n && Finishes(ops[x], k) ==> KeptAlive(ops, m, x, k, ops[x].now, p);
      StandingWrites(ops, m, n, k, p);
      AliveIsKept(ops, m, n, k, t, p);
      assert RememberedFrom(ops, m, n, k, t, p);
    }
    if m :| 0 <= m < n && Stands(ops, m, n, k, p) && RememberedFrom(ops, m, n, k, t, p) {
      RememberedStaysOpen(ops, m, n, k, p);
      StandingWrites(ops, m, n, k, p);
      AliveIsKept(ops, m, n, k, t, p);
    }
  }

  lemma StandingWrites<K, T>(ops: seq<Op<K, T>>, m: nat, n: nat, k: K, p: Policy)
    requires n <= |ops| && Stands(ops, m, n, k, p)
    ensures Writes(ops, m, k, p)
  {
    hide TrippedBy;
    TripWrites(ops, m, k, p);
  }

  /** A granted permit is the probe of a key exactly when a failure that tripped the key
      stands and was not forgotten. */
  lemma WhenGrantProbes<K, T>(ops: seq<Op<K, T>>, n: nat, k: K, p: Policy)
    requires Orderly(ops) && n < |ops|
    ensures Probes(ops, n, k, p) <==>
            ops[n].Acquire? && k in ops[n].keys && Admits(After(ops, n, p), ops[n].keys, ops[n].now)
            && exists m :: 0 <= m < n && Stands(ops, m, n, k, p) && RememberedFrom(ops, m, n, k, ops[n].now, p)
  {
    hide After, At, Admits, Stands, RememberedFrom;
    WhenOpen(ops, n, k, ops[n].now, p);
  }
}

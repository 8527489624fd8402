/** The shared circuit breaker (urouter-gateway/src/circuit.rs): each Lua script is
    one atomic step over the keys of a permit. */
module Circuits {
  import opened Results

  /** Times in milliseconds; a threshold counts thousandths. */
  datatype Policy = Policy(cooldown: nat, window: nat, thresholdMillis: nat) {
    function Ttl(): nat {
      if window > 4 * cooldown then window else 4 * cooldown
    }
  }

  /** The hash stored under a key; an absent field reads as zero. */
  datatype Cell<T> = Cell(openUntil: nat, probeToken: Option<T>, probeUntil: nat,
                          windowStarted: nat, successes: nat, failures: nat, deadline: nat)

  type Cells<K, T> = map<K, Cell<T>>

  function Absent<T>(): Cell<T> {
    Cell(0, None, 0, 0, 0, 0, 0)
  }

  /** What a script running at `now` reads: a key is gone once its deadline has passed. */
  function At<K, T>(cells: Cells<K, T>, k: K, now: nat): Cell<T> {
    if k in cells && now <= cells[k].deadline then cells[k] else Absent()
  }

  predicate Blocks<T>(c: Cell<T>, now: nat) {
    c.openUntil > now || (c.openUntil > 0 && c.probeUntil > now)
  }

  predicate Admits<K, T>(cells: Cells<K, T>, keys: seq<K>, now: nat) {
    forall i :: 0 <= i < |keys| ==> !Blocks(At(cells, keys[i], now), now)
  }

  function ProbeOne<K, T>(cells: Cells<K, T>, k: K, token: T, now: nat, p: Policy): Cells<K, T> {
    var c := At(cells, k, now);
    if c.openUntil == 0 then cells
    else cells[k := c.(probeToken := Some(token), probeUntil := now + p.cooldown, deadline := now + p.Ttl())]
  }

  function ProbeAll<K, T>(cells: Cells<K, T>, keys: seq<K>, token: T, now: nat, p: Policy): Cells<K, T> {
    if keys == [] then cells
    else ProbeOne(ProbeAll(cells, keys[..|keys| - 1], token, now, p), keys[|keys| - 1], token, now, p)
  }

  function ClearProbe<T(==)>(c: Cell<T>, token: T): Cell<T> {
    if c.probeToken == Some(token) then c.(probeToken := None, probeUntil := 0) else c
  }

  function AbandonOne<K, T(==)>(cells: Cells<K, T>, k: K, token: T, now: nat): Cells<K, T> {
    var c := At(cells, k, now);
    if c.probeToken == Some(token) then cells[k := ClearProbe(c, token)] else cells
  }

  function AbandonAll<K, T(==)>(cells: Cells<K, T>, keys: seq<K>, token: T, now: nat): Cells<K, T> {
    if keys == [] then cells
    else AbandonOne(AbandonAll(cells, keys[..|keys| - 1], token, now), keys[|keys| - 1], token, now)
  }

  /** What a finish reports: index 0 is success, otherwise the failing key counts from 1. */
  datatype Report = Report(failureIndex: nat, forceOpen: bool, tierSize: nat)

  function Windowed<T>(c: Cell<T>, now: nat, p: Policy): Cell<T> {
    if c.windowStarted == 0 || now - c.windowStarted > p.window
    then c.(windowStarted := now, successes := 0, failures := 0) else c
  }

  /** The share of failures in thousandths, rounded down as Lua's math.floor does. */
  function Ratio(failures: nat, total: nat): nat
    requires total > 0
  {
    failures * 1000 / total
  }

  predicate Opens(failures: nat, successes: nat, report: Report, p: Policy)
    requires failures + successes > 0
  {
    report.tierSize > 1 && (report.forceOpen || Ratio(failures, successes + failures) >= p.thresholdMillis)
  }

  /** Counts a finish on a cell whose probe and window are already settled. */
  function Counted<T>(c: Cell<T>, position: nat, report: Report, now: nat, p: Policy): Cell<T> {
    if report.failureIndex == 0 then c.(successes := c.successes + 1, openUntil := 0)
    else if position == report.failureIndex then
      var failed := c.(failures := c.failures + 1);
      if Opens(failed.failures, failed.successes, report, p) then failed.(openUntil := now + p.cooldown) else failed
    else c
  }

  function FinishCell<T(==)>(c: Cell<T>, token: T, position: nat, report: Report, now: nat, p: Policy): Cell<T> {
    Counted(Windowed(ClearProbe(c, token), now, p), position, report, now, p).(deadline := now + p.Ttl())
  }

  function FinishAll<K, T(==)>(cells: Cells<K, T>, keys: seq<K>, token: T, report: Report, now: nat, p: Policy): Cells<K, T> {
    if keys == [] then cells
    else
      var rest := FinishAll(cells, keys[..|keys| - 1], token, report, now, p);
      var k := keys[|keys| - 1];
      rest[k := FinishCell(At(rest, k, now), token, |keys|, report, now, p)]
  }

  ghost predicate Distinct<K>(keys: seq<K>) {
    forall i, j :: 0 <= i < j < |keys| ==> keys[i] != keys[j]
  }

  class CircuitStore<K(==), T(==)> {
    var cells: Cells<K, T>
    const policy: Policy

    constructor (policy: Policy)
      ensures cells == map[] && this.policy == policy
    {
      cells := map[];
      this.policy := policy;
    }

    /** ACQUIRE: read every key first; only an admitted permit writes. */
    method Acquire(keys: seq<K>, token: T, now: nat) returns (granted: bool)
      modifies `cells
      ensures granted <==> Admits(old(cells), keys, now)
      ensures cells == if granted then ProbeAll(old(cells), keys, token, now, policy) else old(cells)
    {
      for i := 0 to |keys|
        invariant cells == old(cells)
        invariant forall k :: 0 <= k < i ==> !Blocks(At(cells, keys[k], now), now)
      {
        var c := At(cells, keys[i], now);
        if c.openUntil > now {
          return false;
        }
        if c.openUntil > 0 {
          if c.probeUntil > now {
            return false;
          }
        }
      }
      for i := 0 to |keys|
        invariant cells == ProbeAll(old(cells), keys[..i], token, now, policy)
      {
        assert keys[..i + 1][..i] == keys[..i];
        var c := At(cells, keys[i], now);
        if c.openUntil > 0 {
          cells := cells[keys[i] := c.(probeToken := Some(token), probeUntil := now + policy.cooldown)];
          cells := cells[keys[i] := cells[keys[i]].(deadline := now + policy.Ttl())];
        }
      }
      assert keys[..|keys|] == keys;
      granted := true;
    }

    /** FINISH: settle the probe and the window of every key, count the result. */
    method Finish(keys: seq<K>, token: T, report: Report, now: nat)
      modifies `cells
      ensures cells == FinishAll(old(cells), keys, token, report, now, policy)
    {
      for i := 0 to |keys|
        invariant cells == FinishAll(old(cells), keys[..i], token, report, now, policy)
      {
        assert keys[..i + 1][..i] == keys[..i];
        FinishKey(keys[i], i + 1, token, report, now);
      }
      assert keys[..|keys|] == keys;
    }

    method FinishKey(key: K, position: nat, token: T, report: Report, now: nat)
      requires position > 0
      modifies `cells
      ensures cells == old(cells)[key := FinishCell(At(old(cells), key, now), token, position, report, now, policy)]
    {
      var c := At(cells, key, now);
      if c.probeToken == Some(token) {
        c := c.(probeToken := None, probeUntil := 0);
      }
      var started := c.windowStarted;
      if started == 0 || now - started > policy.window {
        c := c.(windowStarted := now, successes := 0, failures := 0);
      }
      if report.failureIndex == 0 {
        c := c.(successes := c.successes + 1);
        c := c.(openUntil := 0);
      } else if position == report.failureIndex {
        c := c.(failures := c.failures + 1);
        var total := c.successes + c.failures;
        var ratio := c.failures * 1000 / total;
        if report.tierSize > 1 && (report.forceOpen || ratio >= policy.thresholdMillis) {
          c := c.(openUntil := now + policy.cooldown);
        }
      }
      cells := cells[key := c.(deadline := now + policy.Ttl())];
    }

    /** ABANDON: give the probe back. */
    method Abandon(keys: seq<K>, token: T, now: nat)
      modifies `cells
      ensures cells == AbandonAll(old(cells), keys, token, now)
    {
      for i := 0 to |keys|
        invariant cells == AbandonAll(old(cells), keys[..i], token, now)
      {
        assert keys[..i + 1][..i] == keys[..i];
        var c := At(cells, keys[i], now);
        if c.probeToken == Some(token) {
          cells := cells[keys[i] := c.(probeToken := None, probeUntil := 0)];
        }
      }
      assert keys[..|keys|] == keys;
    }
  }

}

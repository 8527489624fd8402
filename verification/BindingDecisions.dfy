/** What the binding store holds and answers, in terms of the calls themselves. */
module BindingDecisions {
  import opened Results
  import opened Sets
  import opened Bindings
  import opened BindingRuns

  /** What each put was answered. */
  type Verdicts = nat -> Result<Write, StoreError>

  /** One more than the index of the latest put that created k; zero if none did. */
  function Birth<K(==)>(ops: seq<Op<K>>, v: Verdicts, n: nat, k: K): (b: nat)
    requires n <= |ops|
    ensures b <= n
  {
    if n == 0 then 0
    else if ops[n - 1].Put? && ops[n - 1].binding.key == k && v(n - 1) == Ok(Created) then n
    else Birth(ops, v, n - 1, k)
  }

  /** The puts that created what is held and is younger than k. */
  ghost function Younger<K>(ops: seq<Op<K>>, v: Verdicts, n: nat, k: K, capacity: nat): set<nat>
    requires n <= |ops|
    decreases n, 2
  {
    set i: nat | i < n && Birth(ops, v, n, k) <= i && CreatedBy(ops, v, i, n, capacity)
  }

  /** Call i created an entry that is still held before call n. */
  ghost predicate CreatedBy<K>(ops: seq<Op<K>>, v: Verdicts, i: nat, n: nat, capacity: nat)
    requires i < n <= |ops|
    decreases n, 1
  {
    ops[i].Put? && Birth(ops, v, n, ops[i].binding.key) == i + 1 && Holds(ops, v, n, ops[i].binding.key, capacity).Some?
  }

  /** What is held under k before call n: what the latest accepted put of k wrote, unless a
      removal of the key, its task or its tenant took it since, or so many younger entries
      that there was no room for it beside a new one. */
  ghost function Holds<K>(ops: seq<Op<K>>, v: Verdicts, n: nat, k: K, capacity: nat): Option<Binding<K>>
    requires n <= |ops|
    decreases n, 0
  {
    if n == 0 then None
    else
      var before := Holds(ops, v, n - 1, k, capacity);
      match ops[n - 1]
      case Put(b, _) => (
        match (v(n - 1), before)
        case (Ok(Created), _) =>
          if b.key == k then Some(b) else if |Younger(ops, v, n - 1, k, capacity)| + 1 < capacity then before else None
        case (Ok(Unchanged), Some(current)) =>
          if b.key == k then
            Some(Binding(b.tenant, k, b.task, b.tier, b.identity, current.boundAtTurn,
                         current.generation, b.tenantGeneration, b.taskGeneration))
          else before
        case (Ok(Migrated), Some(current)) =>
          if b.key == k then
            Some(Binding(b.tenant, k, b.task, b.tier, b.identity, b.boundAtTurn,
                         current.generation + 1, b.tenantGeneration, b.taskGeneration))
          else before
        case _ => before)
      case Remove(key) => if key == k then None else before
      case RemoveTask(task) => if before.Some? && before.value.task == task then None else before
      case RemoveTenant(tenant) => if before.Some? && before.value.tenant == tenant then None else before
  }

  function TenantDeletions<K(==)>(ops: seq<Op<K>>, n: nat, tenant: K): set<nat>
    requires n <= |ops|
  {
    set i: nat | i < n && ops[i] == RemoveTenant(tenant)
  }

  function TaskDeletions<K(==)>(ops: seq<Op<K>>, n: nat, task: K): set<nat>
    requires n <= |ops|
  {
    set i: nat | i < n && (ops[i] == RemoveTask(task) || ops[i] == Remove(task))
  }

  ghost function AnswerAt<K>(ops: seq<Op<K>>, i: nat, capacity: nat): Result<Write, StoreError>
    requires i < |ops| && ops[i].Put?
  {
    PutAnswer(After(ops, i, capacity), ops[i].binding, ops[i].allowMigration)
  }

  /** v tells what the store answers. */
  ghost predicate AnswersOf<K>(ops: seq<Op<K>>, v: Verdicts, capacity: nat) {
    forall i: nat :: i < |ops| && ops[i].Put? ==> v(i) == AnswerAt(ops, i, capacity)
  }

  // Generations.

  lemma OneMoreDeletion<K>(ops: seq<Op<K>>, n: nat, tenant: K, task: K)
    requires n < |ops|
    ensures |TenantDeletions(ops, n + 1, tenant)| == |TenantDeletions(ops, n, tenant)| + (if ops[n] == RemoveTenant(tenant) then 1 else 0)
    ensures |TaskDeletions(ops, n + 1, task)|
            == |TaskDeletions(ops, n, task)| + (if ops[n] == RemoveTask(task) || ops[n] == Remove(task) then 1 else 0)
  {
    var tenants: set<nat> := TenantDeletions(ops, n, tenant);
    var tasks: set<nat> := TaskDeletions(ops, n, task);
    assert TenantDeletions(ops, n + 1, tenant) == if ops[n] == RemoveTenant(tenant) then tenants + {n} else tenants;
    assert TaskDeletions(ops, n + 1, task)
        == if ops[n] == RemoveTask(task) || ops[n] == Remove(task) then tasks + {n} else tasks;
  }

  lemma NoDeletions<K>(ops: seq<Op<K>>, tenant: K, task: K)
    ensures TenantDeletions(ops, 0, tenant) == {} && TaskDeletions(ops, 0, task) == {}
  {
  }

  /** A generation counts the deletions of its tenant, or of its task. */
  lemma {:induction false} GenerationsAreDeletions<K>(ops: seq<Op<K>>, n: nat, tenant: K, task: K, capacity: nat)
    requires n <= |ops|
    ensures ScopeGeneration(After(ops, n, capacity), tenant, Some(task))
            == (|TenantDeletions(ops, n, tenant)|, |TaskDeletions(ops, n, task)|)
    ensures ScopeGeneration(After(ops, n, capacity), tenant, None) == (|TenantDeletions(ops, n, tenant)|, 0)
  {
    hide Step, TenantDeletions, TaskDeletions;
    if n == 0 {
      NoDeletions(ops, tenant, task);
    } else {
      GenerationsAreDeletions(ops, n - 1, tenant, task, capacity);
      GenerationStep(After(ops, n - 1, capacity), ops[n - 1], tenant, task, capacity);
      OneMoreDeletion(ops, n - 1, tenant, task);
    }
  }

  // Contents.

  lemma {:induction false} BirthIsBorn<K>(ops: seq<Op<K>>, v: Verdicts, n: nat, k: K, capacity: nat)
    requires n <= |ops| && AnswersOf(ops, v, capacity)
    ensures Birth(ops, v, n, k) == Born(ops, n, k, capacity)
  {
    hide After, PutAnswer;
    if n > 0 {
      BirthIsBorn(ops, v, n - 1, k, capacity);
    }
  }

  ghost predicate HeldByCalls<K(!new)>(ops: seq<Op<K>>, v: Verdicts, n: nat, capacity: nat)
    requires n <= |ops|
  {
    forall k :: Holds(ops, v, n, k, capacity) == if k in After(ops, n, capacity).values then Some(After(ops, n, capacity).values[k]) else None
  }

  lemma {:induction false} BornByPut<K>(ops: seq<Op<K>>, n: nat, k: K, capacity: nat)
    requires n <= |ops|
    ensures var b := Born(ops, n, k, capacity);
            b > 0 ==> ops[b - 1].Put? && ops[b - 1].binding.key == k
  {
    hide After, PutAnswer;
    if n > 0 {
      BornByPut(ops, n - 1, k, capacity);
    }
  }

  lemma {:induction false} StoredIsBorn<K(!new)>(ops: seq<Op<K>>, n: nat, k: K, capacity: nat)
    requires n <= |ops| && k in After(ops, n, capacity).values
    ensures Born(ops, n, k, capacity) > 0
  {
    if n > 0 && k in After(ops, n - 1, capacity).values {
      StoredIsBorn(ops, n - 1, k, capacity);
    }
  }

  lemma SameElements(s: set<nat>, births: seq<nat>)
    requires forall i: nat :: i in births <==> i in s
    requires forall i, j :: 0 <= i < j < |births| ==> births[i] < births[j]
    ensures |s| == |births|
  {
    assert s == Elements(births);
    DistinctSize(births);
  }

  lemma BirthOf<K(!new)>(ops: seq<Op<K>>, v: Verdicts, n: nat, k: K, capacity: nat)
    requires n <= |ops| && AnswersOf(ops, v, capacity) && k in After(ops, n, capacity).values
    ensures var b := Birth(ops, v, n, k);
            b > 0 && b == Born(ops, n, k, capacity) && ops[b - 1].Put? && ops[b - 1].binding.key == k
  {
    BirthIsBorn(ops, v, n, k, capacity);
    StoredIsBorn(ops, n, k, capacity);
    BornByPut(ops, n, k, capacity);
  }

  lemma StoredWasCreated<K(!new)>(ops: seq<Op<K>>, v: Verdicts, n: nat, k: K, capacity: nat)
    requires n <= |ops| && AnswersOf(ops, v, capacity) && HeldByCalls(ops, v, n, capacity)
    requires k in After(ops, n, capacity).values
    ensures var b := Birth(ops, v, n, k); b > 0 && CreatedBy(ops, v, b - 1, n, capacity)
  {
    BirthOf(ops, v, n, k, capacity);
    hide After, AnswersOf, Born, Birth, Holds;
  }

  lemma CreatedIsStored<K(!new)>(ops: seq<Op<K>>, v: Verdicts, i: nat, n: nat, capacity: nat) returns (q: nat)
    requires i < n <= |ops| && HeldByCalls(ops, v, n, capacity) && CreatedBy(ops, v, i, n, capacity)
    ensures q < |After(ops, n, capacity).order| && Birth(ops, v, n, After(ops, n, capacity).order[q]) == i + 1
  {
    StaysWellFormed(ops, n, capacity);
    hide After, Birth, Holds;
    var (s, key) := (After(ops, n, capacity), ops[i].binding.key);
    assert Holds(ops, v, n, key, capacity).Some?;
    assert key in s.values && key in s.order;
    q :| 0 <= q < |s.order| && s.order[q] == key;
  }

  /** The entry at a later position of the order is the younger one. */
  lemma OrderedByBirth<K(!new)>(ops: seq<Op<K>>, v: Verdicts, n: nat, a: nat, b: nat, capacity: nat)
    requires n <= |ops| && AnswersOf(ops, v, capacity)
    requires a < b < |After(ops, n, capacity).order|
    ensures var order := After(ops, n, capacity).order; Birth(ops, v, n, order[a]) < Birth(ops, v, n, order[b])
  {
    OrderIsByAge(ops, n, capacity);
    hide After, AnswersOf, Born, Birth;
    var order := After(ops, n, capacity).order;
    BirthIsBorn(ops, v, n, order[a], capacity);
    BirthIsBorn(ops, v, n, order[b], capacity);
  }

  lemma StandsStored<K(!new)>(ops: seq<Op<K>>, n: nat, q: nat, capacity: nat)
    requires n <= |ops| && q < |After(ops, n, capacity).order|
    ensures After(ops, n, capacity).order[q] in After(ops, n, capacity).values
  {
    StaysWellFormed(ops, n, capacity);
    hide After;
  }

  /** The puts that created what stands behind position p. */
  ghost predicate Behind<K>(ops: seq<Op<K>>, v: Verdicts, n: nat, p: nat, behind: seq<nat>, capacity: nat)
    requires n <= |ops|
  {
    var order := After(ops, n, capacity).order;
    p < |order| && |behind| == |order| - 1 - p
    && forall q: nat :: q < |behind| ==> behind[q] + 1 == Birth(ops, v, n, order[p + 1 + q])
  }

  lemma BehindAscend<K(!new)>(ops: seq<Op<K>>, v: Verdicts, n: nat, p: nat, behind: seq<nat>, capacity: nat)
    requires n <= |ops| && AnswersOf(ops, v, capacity) && Behind(ops, v, n, p, behind, capacity)
    ensures forall i, j :: 0 <= i < j < |behind| ==> behind[i] < behind[j]
  {
    hide After, AnswersOf, Birth;
    forall i, j | 0 <= i < j < |behind|
      ensures behind[i] < behind[j]
    {
      OrderedByBirth(ops, v, n, p + 1 + i, p + 1 + j, capacity);
    }
  }

  lemma YoungerIsBehind<K(!new)>(ops: seq<Op<K>>, v: Verdicts, n: nat, p: nat, behind: seq<nat>, i: nat, capacity: nat)
    requires n <= |ops| && AnswersOf(ops, v, capacity) && HeldByCalls(ops, v, n, capacity)
    requires Behind(ops, v, n, p, behind, capacity)
    requires i in Younger(ops, v, n, After(ops, n, capacity).order[p], capacity)
    ensures i in behind
  {
    hide After, AnswersOf, Birth, Holds, HeldByCalls, CreatedBy;
    var q := CreatedIsStored(ops, v, i, n, capacity);
    if q < p {
      OrderedByBirth(ops, v, n, q, p, capacity);
    }
    assert behind[q - p - 1] == i;
  }

  lemma BehindIsYounger<K(!new)>(ops: seq<Op<K>>, v: Verdicts, n: nat, p: nat, behind: seq<nat>, q: nat, capacity: nat)
    requires n <= |ops| && AnswersOf(ops, v, capacity) && HeldByCalls(ops, v, n, capacity)
    requires Behind(ops, v, n, p, behind, capacity) && q < |behind|
    ensures behind[q] in Younger(ops, v, n, After(ops, n, capacity).order[p], capacity)
  {
    hide After, AnswersOf, Birth, Holds, HeldByCalls, CreatedBy;
    StandsStored(ops, n, p + 1 + q, capacity);
    OrderedByBirth(ops, v, n, p, p + 1 + q, capacity);
    StoredWasCreated(ops, v, n, After(ops, n, capacity).order[p + 1 + q], capacity);
  }

  /** As many entries are younger than one as stand behind it in the order. */
  lemma YoungerStandBehind<K(!new)>(ops: seq<Op<K>>, v: Verdicts, n: nat, p: nat, capacity: nat)
    requires n <= |ops| && AnswersOf(ops, v, capacity) && HeldByCalls(ops, v, n, capacity)
    requires p < |After(ops, n, capacity).order|
    ensures |Younger(ops, v, n, After(ops, n, capacity).order[p], capacity)| == |After(ops, n, capacity).order| - 1 - p
  {
    hide After, AnswersOf, Birth, Holds, HeldByCalls, CreatedBy;
    var order := After(ops, n, capacity).order;
    forall q | 0 <= q < |order|
      ensures Birth(ops, v, n, order[q]) > 0
    {
      StandsStored(ops, n, q, capacity);
      BirthOf(ops, v, n, order[q], capacity);
    }
    var behind: seq<nat> := seq(|order| - 1 - p, q requires 0 <= q < |order| - 1 - p => Birth(ops, v, n, order[p + 1 + q]) - 1);
    assert Behind(ops, v, n, p, behind, capacity);
    var younger := Younger(ops, v, n, order[p], capacity);
    hide Younger, Behind;
    forall i: nat
      ensures i in behind <==> i in younger
    {
      if i in younger {
        YoungerIsBehind(ops, v, n, p, behind, i, capacity);
      }
      if i in behind {
        var q :| 0 <= q < |behind| && behind[q] == i;
        BehindIsYounger(ops, v, n, p, behind, q, capacity);
      }
    }
    BehindAscend(ops, v, n, p, behind, capacity);
    SameElements(younger, behind);
  }

  /** Making room takes exactly the entries with too many younger ones. */
  lemma EvictedByAge<K(!new)>(ops: seq<Op<K>>, v: Verdicts, n: nat, k: K, capacity: nat)
    requires n <= |ops| && AnswersOf(ops, v, capacity) && HeldByCalls(ops, v, n, capacity)
    requires k in After(ops, n, capacity).values
    ensures var order := After(ops, n, capacity).order;
            k in Elements(order[..Evicted(|order|, capacity)]) <==> |Younger(ops, v, n, k, capacity)| + 1 >= capacity
  {
    StaysWellFormed(ops, n, capacity);
    hide After, AnswersOf, Birth, Holds, HeldByCalls, Younger;
    var order := After(ops, n, capacity).order;
    var p :| 0 <= p < |order| && order[p] == k;
    YoungerStandBehind(ops, v, n, p, capacity);
    InPrefix(order, p, Evicted(|order|, capacity));
  }

  lemma InPrefix<K>(order: seq<K>, p: nat, e: nat)
    requires p < |order| && e <= |order| && forall i, j :: 0 <= i < j < |order| ==> order[i] != order[j]
    ensures order[p] in Elements(order[..e]) <==> p < e
  {
    if p < e {
      assert order[..e][p] == order[p];
    }
  }

  /** The entry under k before and after call n. */
  ghost predicate HeldUnder<K(!new)>(ops: seq<Op<K>>, v: Verdicts, n: nat, k: K, capacity: nat)
    requires n <= |ops|
  {
    var values := After(ops, n, capacity).values;
    Holds(ops, v, n, k, capacity) == if k in values then Some(values[k]) else None
  }

  lemma CreationHolds<K(!new)>(ops: seq<Op<K>>, v: Verdicts, n: nat, k: K, capacity: nat)
    requires n < |ops| && AnswersOf(ops, v, capacity) && HeldByCalls(ops, v, n, capacity)
    requires ops[n].Put? && AnswerAt(ops, n, capacity) == Ok(Created)
    ensures HeldUnder(ops, v, n + 1, k, capacity)
  {
    var (s, b) := (After(ops, n, capacity), ops[n].binding);
    assert v(n) == Ok(Created);
    if k in s.values && k != b.key {
      EvictedByAge(ops, v, n, k, capacity);
    }
    hide Younger, Elements, Evicted;
    var gone := Elements(s.order[..Evicted(|s.order|, capacity)]);
    assert After(ops, n + 1, capacity).values == (s.values - gone)[b.key := b];
  }

  lemma WriteHolds<K(!new)>(ops: seq<Op<K>>, v: Verdicts, n: nat, k: K, capacity: nat)
    requires n < |ops| && AnswersOf(ops, v, capacity) && HeldByCalls(ops, v, n, capacity)
    requires ops[n].Put? && AnswerAt(ops, n, capacity) != Ok(Created)
    ensures HeldUnder(ops, v, n + 1, k, capacity)
  {
    hide Younger, Elements, Retain, Without;
    var (s, b) := (After(ops, n, capacity), ops[n].binding);
    assert v(n) == AnswerAt(ops, n, capacity);
    assert After(ops, n + 1, capacity) == PutStore(s, b, ops[n].allowMigration, capacity);
    hide After;
  }

  lemma RemovalHolds<K(!new)>(ops: seq<Op<K>>, v: Verdicts, n: nat, k: K, capacity: nat)
    requires n < |ops| && HeldByCalls(ops, v, n, capacity) && !ops[n].Put?
    ensures HeldUnder(ops, v, n + 1, k, capacity)
  {
    hide Younger, Retain;
    var s := After(ops, n, capacity);
    match ops[n] {
      case Remove(key) =>
        assert After(ops, n + 1, capacity).values == s.values - {key};
      case RemoveTask(task) =>
        assert After(ops, n + 1, capacity).values == s.values - OfTask(s.values, task);
      case RemoveTenant(tenant) =>
        assert After(ops, n + 1, capacity).values == s.values - OfTenant(s.values, tenant);
    }
  }

  lemma {:induction false} StoreIsHeld<K(!new)>(ops: seq<Op<K>>, v: Verdicts, n: nat, capacity: nat)
    requires n <= |ops| && AnswersOf(ops, v, capacity)
    ensures HeldByCalls(ops, v, n, capacity)
  {
    if n == 0 {
      assert After(ops, 0, capacity).values == map[];
      forall k
        ensures Holds(ops, v, 0, k, capacity) == None
      {
      }
    } else {
      StoreIsHeld(ops, v, n - 1, capacity);
      forall k
        ensures HeldUnder(ops, v, n, k, capacity)
      {
        hide After, AnswersOf, HeldByCalls, Holds;
        if !ops[n - 1].Put? {
          RemovalHolds(ops, v, n - 1, k, capacity);
        } else if AnswerAt(ops, n - 1, capacity) == Ok(Created) {
          CreationHolds(ops, v, n - 1, k, capacity);
        } else {
          WriteHolds(ops, v, n - 1, k, capacity);
        }
      }
      HeldUnderAll(ops, v, n, capacity);
    }
  }

  lemma HeldUnderAll<K(!new)>(ops: seq<Op<K>>, v: Verdicts, n: nat, capacity: nat)
    requires n <= |ops| && forall k :: HeldUnder(ops, v, n, k, capacity)
    ensures HeldByCalls(ops, v, n, capacity)
  {
    hide After, Holds;
    forall k
      ensures Holds(ops, v, n, k, capacity)
              == if k in After(ops, n, capacity).values then Some(After(ops, n, capacity).values[k]) else None
    {
      assert HeldUnder(ops, v, n, k, capacity);
    }
  }

  /** After any run the store has under each key what the calls leave there. */
  lemma StoreIsCalls<K(!new)>(ops: seq<Op<K>>, v: Verdicts, n: nat, k: K, capacity: nat)
    requires n <= |ops| && AnswersOf(ops, v, capacity)
    ensures var values := After(ops, n, capacity).values;
            Holds(ops, v, n, k, capacity) == if k in values then Some(values[k]) else None
  {
    hide After, AnswersOf, Holds;
    StoreIsHeld(ops, v, n, capacity);
  }

  /** A write is refused as stale exactly when the generations it was prepared with are not
      the numbers of deletions of its tenant and of its task so far. Otherwise it creates
      an entry exactly when its key holds none, changes nothing that counts exactly when
      all five parts of the identity are those of the entry held, and else migrates it or
      conflicts with it, as it is allowed to. */
  lemma AnswerIsExact<K(!new)>(ops: seq<Op<K>>, v: Verdicts, n: nat, capacity: nat)
    requires n < |ops| && ops[n].Put? && AnswersOf(ops, v, capacity)
    ensures var b := ops[n].binding;
            var held := Holds(ops, v, n, b.key, capacity);
            AnswerAt(ops, n, capacity) ==
            if b.tenantGeneration != |TenantDeletions(ops, n, b.tenant)| || b.taskGeneration != |TaskDeletions(ops, n, b.task)|
            then Err(StaleScope)
            else if held.None? then Ok(Created)
            else if b.identity.model == held.value.identity.model && b.identity.provider == held.value.identity.provider
                    && b.identity.api == held.value.identity.api
                    && b.identity.promptProfileHash == held.value.identity.promptProfileHash
                    && b.identity.toolsetHash == held.value.identity.toolsetHash
            then Ok(Unchanged)
            else if ops[n].allowMigration then Ok(Migrated) else Ok(Conflict)
  {
    var b := ops[n].binding;
    StoreIsCalls(ops, v, n, b.key, capacity);
    GenerationsAreDeletions(ops, n, b.tenant, b.task, capacity);
    hide After, AnswersOf, Holds, TenantDeletions, TaskDeletions;
  }
}

/** Whole runs of the binding store: the deletion fence, the age order, and what an
    identity can change through. */
module BindingRuns {
  import opened Results
  import opened Sets
  import opened Bindings

  datatype Op<K> =
    | Put(binding: Binding<K>, allowMigration: bool)
    | Remove(key: K)
    | RemoveTask(task: K)
    | RemoveTenant(tenant: K)

  ghost function Step<K>(s: Store<K>, op: Op<K>, capacity: nat): Store<K> {
    match op
    case Put(b, allowMigration) => PutStore(s, b, allowMigration, capacity)
    case Remove(key) => RemoveStore(s, key)
    case RemoveTask(task) => RemoveTaskStore(s, task)
    case RemoveTenant(tenant) => RemoveTenantStore(s, tenant)
  }

  ghost function After<K>(ops: seq<Op<K>>, n: nat, capacity: nat): Store<K>
    requires n <= |ops|
  {
    if n == 0 then Store(map[], [], map[], map[]) else Step(After(ops, n - 1, capacity), ops[n - 1], capacity)
  }

  lemma {:induction false} StaysWellFormed<K(!new)>(ops: seq<Op<K>>, n: nat, capacity: nat)
    requires n <= |ops|
    ensures WellFormed(After(ops, n, capacity), capacity)
  {
    hide WellFormed, Without, PutStore;
    if n == 0 {
      EmptyIsWellFormed<K>(capacity);
    } else {
      StaysWellFormed(ops, n - 1, capacity);
      var s := After(ops, n - 1, capacity);
      match ops[n - 1] {
        case Put(b, allowMigration) => PutKeepsWellFormed(s, b, allowMigration, capacity);
        case Remove(key) => RemovalKeepsWellFormed(s, {key}, After(ops, n, capacity), capacity);
        case RemoveTask(task) => RemovalKeepsWellFormed(s, OfTask(s.values, task), After(ops, n, capacity), capacity);
        case RemoveTenant(tenant) => RemovalKeepsWellFormed(s, OfTenant(s.values, tenant), After(ops, n, capacity), capacity);
      }
    }
  }

  lemma EmptyIsWellFormed<K(!new)>(capacity: nat)
    ensures WellFormed<K>(Store(map[], [], map[], map[]), capacity)
  {
  }

  lemma RemovalKeepsWellFormed<K(!new)>(s: Store<K>, gone: set<K>, after: Store<K>, capacity: nat)
    requires WellFormed(s, capacity) && after.values == Without(s, gone).values && after.order == Without(s, gone).order
    ensures WellFormed(after, capacity)
  {
    WithoutKeepsWellFormed(s, gone, capacity);
  }

  // The deletion fence.

  /** The operation raises the tenant's (or the task's) generation. */
  predicate RaisesTenant<K(==)>(op: Op<K>, tenant: K) {
    op == RemoveTenant(tenant)
  }

  predicate RaisesTask<K(==)>(op: Op<K>, task: K) {
    op == RemoveTask(task) || op == Remove(task)
  }

  predicate Deletes<K(==)>(op: Op<K>, tenant: K, task: K) {
    RaisesTenant(op, tenant) || RaisesTask(op, task)
  }

  lemma {:induction false} GenerationsRise<K>(ops: seq<Op<K>>, i: nat, j: nat, tenant: K, task: K, capacity: nat)
    requires i <= j <= |ops|
    ensures var before, after := After(ops, i, capacity), After(ops, j, capacity);
            GenerationOf(before.tenantGenerations, tenant) <= GenerationOf(after.tenantGenerations, tenant)
            && (GenerationOf(before.tenantGenerations, tenant) == GenerationOf(after.tenantGenerations, tenant)
                <==> forall m :: i <= m < j ==> !RaisesTenant(ops[m], tenant))
            && GenerationOf(before.taskGenerations, task) <= GenerationOf(after.taskGenerations, task)
            && (GenerationOf(before.taskGenerations, task) == GenerationOf(after.taskGenerations, task)
                <==> forall m :: i <= m < j ==> !RaisesTask(ops[m], task))
    decreases j
  {
    hide Step, GenerationOf, RaisesTenant, RaisesTask;
    if i < j {
      GenerationsRise(ops, i, j - 1, tenant, task, capacity);
      GenerationStep(After(ops, j - 1, capacity), ops[j - 1], tenant, task, capacity);
    }
  }

  lemma GenerationStep<K>(s: Store<K>, op: Op<K>, tenant: K, task: K, capacity: nat)
    ensures var after := Step(s, op, capacity);
            GenerationOf(after.tenantGenerations, tenant)
            == GenerationOf(s.tenantGenerations, tenant) + (if RaisesTenant(op, tenant) then 1 else 0)
            && GenerationOf(after.taskGenerations, task)
               == GenerationOf(s.taskGenerations, task) + (if RaisesTask(op, task) then 1 else 0)
  {
  }

  /** The fence: a write whose snapshot was taken before operation i is refused at j
      exactly when something in between deleted its tenant or its task. */
  lemma FenceIsExact<K>(ops: seq<Op<K>>, i: nat, j: nat, b: Binding<K>, allowMigration: bool, capacity: nat)
    requires i <= j <= |ops|
    requires (b.tenantGeneration, b.taskGeneration) == ScopeGeneration(After(ops, i, capacity), b.tenant, Some(b.task))
    ensures PutAnswer(After(ops, j, capacity), b, allowMigration) == Err(StaleScope)
            <==> exists m :: i <= m < j && Deletes(ops[m], b.tenant, b.task)
  {
    hide After;
    GenerationsRise(ops, i, j, b.tenant, b.task, capacity);
  }

  /** A session binding is stored under a key that is not its task's. Removing it by that
      key raises no generation of its own, so a write prepared before still succeeds. */
  lemma RemoveFencesOwnTaskOnly<K>(s: Store<K>, b: Binding<K>, allowMigration: bool)
    requires !Stale(s, b)
    ensures PutAnswer(RemoveStore(s, b.key), b, allowMigration) == Err(StaleScope) <==> b.task == b.key
  {
  }

  /** Every stored binding carries the current generations of its tenant and task. */
  ghost predicate AllCurrent<K>(s: Store<K>) {
    forall k :: k in s.values ==> !Stale(s, s.values[k])
  }

  lemma StepKeepsCurrent<K(!new)>(s: Store<K>, op: Op<K>, capacity: nat)
    requires AllCurrent(s) && !op.Remove?
    ensures AllCurrent(Step(s, op, capacity))
  {
  }

  /** Removing by key leaves a stale binding behind exactly when another stored binding
      belongs to the task of that name. */
  lemma RemoveKeepsCurrent<K(!new)>(s: Store<K>, key: K)
    requires AllCurrent(s)
    ensures AllCurrent(RemoveStore(s, key)) <==> forall k :: k in s.values && k != key ==> s.values[k].task != key
  {
    var after := RemoveStore(s, key);
    forall k | k in s.values && k != key
      ensures k in after.values && (Stale(after, after.values[k]) <==> s.values[k].task == key)
    {
    }
  }

  /** Such a removal is reached from the empty store: a task binding and a session binding
      of the same task, and the first removed by its key. */
  lemma OutdatedIsReached<K(!new)>(task: Binding<K>, session: Binding<K>, capacity: nat)
    requires task.key == task.task == session.task != session.key && capacity >= 2
    requires task.generation == task.tenantGeneration == task.taskGeneration == 0
    requires session.generation == session.tenantGeneration == session.taskGeneration == 0
    ensures var ops := [Put(task, false), Put(session, false), Remove(task.key)];
            AllCurrent(After(ops, 2, capacity)) && !AllCurrent(After(ops, 3, capacity))
  {
    hide AllCurrent;
    var ops := [Put(task, false), Put(session, false), Remove(task.key)];
    var s0, s1, s2 := After(ops, 0, capacity), After(ops, 1, capacity), After(ops, 2, capacity);
    NothingStored<K>();
    StepKeepsCurrent(s0, ops[0], capacity);
    StepKeepsCurrent(s1, ops[1], capacity);
    assert s1 == PutStore(s0, task, false, capacity) && s1.order == [task.key];
    assert s2 == PutStore(s1, session, false, capacity) && s2.values[session.key] == session;
    RemoveKeepsCurrent(s2, task.key);
  }

  lemma {:induction false} StoredAreCurrent<K(!new)>(ops: seq<Op<K>>, n: nat, capacity: nat)
    requires n <= |ops|
    requires forall m, k :: 0 <= m < n && ops[m].Remove? && k in After(ops, m, capacity).values && k != ops[m].key ==>
                              After(ops, m, capacity).values[k].task != ops[m].key
    ensures AllCurrent(After(ops, n, capacity))
  {
    hide AllCurrent;
    if n == 0 {
      NothingStored<K>();
    } else {
      StoredAreCurrent(ops, n - 1, capacity);
      var s := After(ops, n - 1, capacity);
      if ops[n - 1].Remove? {
        RemoveKeepsCurrent(s, ops[n - 1].key);
      } else {
        StepKeepsCurrent(s, ops[n - 1], capacity);
      }
    }
  }

  lemma NothingStored<K>()
    ensures AllCurrent<K>(Store(map[], [], map[], map[]))
  {
  }

  // Identity.

  ghost predicate Migrates<K>(ops: seq<Op<K>>, m: nat, k: K, capacity: nat)
    requires m < |ops|
  {
    ops[m].Put? && ops[m].binding.key == k && PutAnswer(After(ops, m, capacity), ops[m].binding, ops[m].allowMigration) == Ok(Migrated)
  }

  ghost function Migrations<K>(ops: seq<Op<K>>, i: nat, j: nat, k: K, capacity: nat): nat
    requires i <= j <= |ops|
    decreases j
  {
    if i == j then 0 else Migrations(ops, i, j - 1, k, capacity) + (if Migrates(ops, j - 1, k, capacity) then 1 else 0)
  }

  ghost predicate StoredThroughout<K>(ops: seq<Op<K>>, i: nat, j: nat, k: K, capacity: nat)
    requires i <= j <= |ops|
  {
    forall n :: i <= n <= j ==> k in After(ops, n, capacity).values
  }

  lemma IdentityStep<K>(s: Store<K>, op: Op<K>, k: K, capacity: nat)
    requires k in s.values && s.values[k].key == k && k in Step(s, op, capacity).values
    ensures var after := Step(s, op, capacity).values[k];
            if op.Put? && op.binding.key == k && PutAnswer(s, op.binding, op.allowMigration) == Ok(Migrated)
            then op.allowMigration && after.generation == s.values[k].generation + 1
            else after.identity == s.values[k].identity && after.generation == s.values[k].generation
                 && after.boundAtTurn == s.values[k].boundAtTurn
  {
  }

  lemma StoredUnderItsKey<K(!new)>(ops: seq<Op<K>>, n: nat, k: K, capacity: nat)
    requires n <= |ops| && k in After(ops, n, capacity).values
    ensures After(ops, n, capacity).values[k].key == k
  {
    StaysWellFormed(ops, n, capacity);
  }

  /** While a key stays stored, its generation counts the allowed migrations; without
      one, the identity and the turn it was bound at never change. */
  lemma {:induction false} IdentityChangesByMigration<K(!new)>(ops: seq<Op<K>>, i: nat, j: nat, k: K, capacity: nat)
    requires i <= j <= |ops| && StoredThroughout(ops, i, j, k, capacity)
    ensures var before, after := After(ops, i, capacity).values[k], After(ops, j, capacity).values[k];
            after.generation == before.generation + Migrations(ops, i, j, k, capacity)
            && (Migrations(ops, i, j, k, capacity) == 0 ==> after.identity == before.identity && after.boundAtTurn == before.boundAtTurn)
    decreases j
  {
    hide PutAnswer, Step, WellFormed;
    if i < j {
      assert StoredThroughout(ops, i, j - 1, k, capacity);
      IdentityChangesByMigration(ops, i, j - 1, k, capacity);
      StoredUnderItsKey(ops, j - 1, k, capacity);
      assert k in After(ops, j, capacity).values;
      IdentityStep(After(ops, j - 1, capacity), ops[j - 1], k, capacity);
    }
  }

  // Age.

  /** One more than the index of the put that created the current entry of k; zero if none did. */
  ghost function Born<K>(ops: seq<Op<K>>, n: nat, k: K, capacity: nat): (b: nat)
    requires n <= |ops|
    ensures b <= n
  {
    if n == 0 then 0
    else if ops[n - 1].Put? && ops[n - 1].binding.key == k
            && PutAnswer(After(ops, n - 1, capacity), ops[n - 1].binding, ops[n - 1].allowMigration) == Ok(Created) then n
    else Born(ops, n - 1, k, capacity)
  }

  ghost predicate ByAge<K>(order: seq<K>, ops: seq<Op<K>>, n: nat, capacity: nat)
    requires n <= |ops|
  {
    forall i, j :: 0 <= i < j < |order| ==> Born(ops, n, order[i], capacity) < Born(ops, n, order[j], capacity)
  }

  /** The order is by age, so what a full store evicts is always its oldest entries. */
  lemma {:induction false} OrderIsByAge<K(!new)>(ops: seq<Op<K>>, n: nat, capacity: nat)
    requires n <= |ops|
    ensures ByAge(After(ops, n, capacity).order, ops, n, capacity)
  {
    hide PutAnswer, WellFormed, ByAge, PutStore, Retain, OfTask, OfTenant;
    if n == 0 {
      NoneByAge(ops, capacity);
    } else {
      OrderIsByAge(ops, n - 1, capacity);
      StaysWellFormed(ops, n - 1, capacity);
      var s := After(ops, n - 1, capacity);
      match ops[n - 1] {
        case Put(b, allowMigration) => PutKeepsAge(ops, n - 1, capacity);
        case Remove(key) => RetainKeepsAge(ops, n - 1, {key}, capacity);
        case RemoveTask(task) => RetainKeepsAge(ops, n - 1, OfTask(s.values, task), capacity);
        case RemoveTenant(tenant) => RetainKeepsAge(ops, n - 1, OfTenant(s.values, tenant), capacity);
      }
    }
  }

  lemma NoneByAge<K(!new)>(ops: seq<Op<K>>, capacity: nat)
    ensures ByAge(After(ops, 0, capacity).order, ops, 0, capacity)
  {
  }

  lemma RetainKeepsAge<K(!new)>(ops: seq<Op<K>>, n: nat, gone: set<K>, capacity: nat)
    requires n < |ops| && !ops[n].Put? && ByAge(After(ops, n, capacity).order, ops, n, capacity)
    ensures ByAge(Retain(After(ops, n, capacity).order, gone), ops, n + 1, capacity)
  {
    hide After;
    var order := After(ops, n, capacity).order;
    forall i, j | 0 <= i < j < |Retain(order, gone)|
      ensures Born(ops, n + 1, Retain(order, gone)[i], capacity) < Born(ops, n + 1, Retain(order, gone)[j], capacity)
    {
      var p, q := RetainKeepsOrder(order, gone, i, j);
    }
  }

  lemma PutKeepsAge<K(!new)>(ops: seq<Op<K>>, n: nat, capacity: nat)
    requires n < |ops| && ops[n].Put? && ByAge(After(ops, n, capacity).order, ops, n, capacity)
    requires WellFormed(After(ops, n, capacity), capacity)
    ensures ByAge(After(ops, n + 1, capacity).order, ops, n + 1, capacity)
  {
    var s, op := After(ops, n, capacity), ops[n];
    var after := PutStore(s, op.binding, op.allowMigration, capacity);
    hide After, PutStore, Elements;
    PutOrder(s, op.binding, op.allowMigration, capacity);
    assert After(ops, n + 1, capacity) == after;
  }

  lemma PutOrder<K(!new)>(s: Store<K>, b: Binding<K>, allowMigration: bool, capacity: nat)
    requires WellFormed(s, capacity)
    ensures PutAnswer(s, b, allowMigration) != Ok(Created) ==> PutStore(s, b, allowMigration, capacity).order == s.order
    ensures PutAnswer(s, b, allowMigration) == Ok(Created) ==>
              b.key !in s.order
              && PutStore(s, b, allowMigration, capacity).order == s.order[Evicted(|s.order|, capacity)..] + [b.key]
  {
  }
}

/** The in-memory task binding store (urouter-gateway/src/binding.rs): a bounded FIFO
    whose writes are fenced by tenant and task generations. */
module Bindings {
  import opened Results
  import opened Sets

  /** What must stay the same for a binding to count as unchanged. */
  datatype Identity = Identity(model: string, provider: string, api: string,
                               promptProfileHash: Option<string>, toolsetHash: Option<string>)

  /** `tier` stands for the fields that a write replaces without comparing them. */
  datatype Binding<K> = Binding(tenant: K, key: K, task: K, tier: string, identity: Identity, boundAtTurn: Option<string>,
                                generation: nat, tenantGeneration: nat, taskGeneration: nat)

  datatype Write = Created | Unchanged | Migrated | Conflict

  datatype StoreError = StaleScope

  datatype Store<K> = Store(values: map<K, Binding<K>>, order: seq<K>,
                            tenantGenerations: map<K, nat>, taskGenerations: map<K, nat>)

  function GenerationOf<K>(generations: map<K, nat>, k: K): nat {
    if k in generations then generations[k] else 0
  }

  function ScopeGeneration<K>(s: Store<K>, tenant: K, task: Option<K>): (nat, nat) {
    (GenerationOf(s.tenantGenerations, tenant), if task.Some? then GenerationOf(s.taskGenerations, task.value) else 0)
  }

  predicate Stale<K>(s: Store<K>, b: Binding<K>) {
    ScopeGeneration(s, b.tenant, Some(b.task)) != (b.tenantGeneration, b.taskGeneration)
  }

  function PutAnswer<K>(s: Store<K>, b: Binding<K>, allowMigration: bool): Result<Write, StoreError> {
    if Stale(s, b) then Err(StaleScope)
    else if b.key !in s.values then Ok(Created)
    else if s.values[b.key].identity == b.identity then Ok(Unchanged)
    else if !allowMigration then Ok(Conflict)
    else Ok(Migrated)
  }

  /** How many of the oldest entries make room for one more. */
  function Evicted(size: nat, capacity: nat): (n: nat)
    ensures n <= size && (size - n < capacity || n == size) && (n > 0 ==> size - n + 1 >= capacity)
  {
    if size < capacity then 0 else if capacity == 0 then size else size - (capacity - 1)
  }

  /** The store after a put: a new key evicts from the front and goes to the back. */
  ghost function PutStore<K>(s: Store<K>, b: Binding<K>, allowMigration: bool, capacity: nat): Store<K> {
    match PutAnswer(s, b, allowMigration)
    case Err(_) => s
    case Ok(Conflict) => s
    case Ok(Created) =>
      var n := Evicted(|s.order|, capacity);
      s.(values := (s.values - Elements(s.order[..n]))[b.key := b], order := s.order[n..] + [b.key])
    case Ok(Unchanged) =>
      var current := s.values[b.key];
      s.(values := s.values[b.key := b.(generation := current.generation, boundAtTurn := current.boundAtTurn)])
    case Ok(Migrated) =>
      s.(values := s.values[b.key := b.(generation := s.values[b.key].generation + 1)])
  }

  function Bump<K>(generations: map<K, nat>, k: K): map<K, nat> {
    generations[k := GenerationOf(generations, k) + 1]
  }

  function Retain<K(==)>(order: seq<K>, gone: set<K>): seq<K> {
    if order == [] then []
    else Retain(order[..|order| - 1], gone) + (if order[|order| - 1] in gone then [] else [order[|order| - 1]])
  }

  function Without<K(==)>(s: Store<K>, gone: set<K>): Store<K> {
    s.(values := s.values - gone, order := Retain(s.order, gone))
  }

  function OfTask<K(==)>(values: map<K, Binding<K>>, task: K): set<K> {
    set k | k in values && values[k].task == task
  }

  function OfTenant<K(==)>(values: map<K, Binding<K>>, tenant: K): set<K> {
    set k | k in values && values[k].tenant == tenant
  }

  function RemoveStore<K(==)>(s: Store<K>, key: K): Store<K> {
    Without(s, {key}).(taskGenerations := Bump(s.taskGenerations, key))
  }

  function RemoveTaskStore<K(==)>(s: Store<K>, task: K): Store<K> {
    Without(s, OfTask(s.values, task)).(taskGenerations := Bump(s.taskGenerations, task))
  }

  function RemoveTenantStore<K(==)>(s: Store<K>, tenant: K): Store<K> {
    Without(s, OfTenant(s.values, tenant)).(tenantGenerations := Bump(s.tenantGenerations, tenant))
  }

  /** The order lists the stored keys once each, within the capacity. */
  ghost predicate WellFormed<K(!new)>(s: Store<K>, capacity: nat) {
    (forall i, j :: 0 <= i < j < |s.order| ==> s.order[i] != s.order[j])
    && (forall k :: k in s.values <==> k in s.order)
    && (forall k :: k in s.values ==> s.values[k].key == k)
    && |s.order| <= (if capacity == 0 then 1 else capacity)
  }

  lemma {:induction false} RetainKeeps<K>(order: seq<K>, gone: set<K>)
    ensures forall k :: k in Retain(order, gone) <==> k in order && k !in gone
    ensures |Retain(order, gone)| <= |order|
  {
    if order != [] {
      RetainKeeps(order[..|order| - 1], gone);
      assert order == order[..|order| - 1] + [order[|order| - 1]];
    }
  }

  lemma {:induction false} RetainedFrom<K>(order: seq<K>, gone: set<K>, i: nat) returns (p: nat)
    requires i < |Retain(order, gone)|
    ensures p < |order| && order[p] == Retain(order, gone)[i]
  {
    var front := order[..|order| - 1];
    if i < |Retain(front, gone)| {
      p := RetainedFrom(front, gone, i);
    } else {
      p := |order| - 1;
    }
  }

  /** Retaining keeps the entries' relative order. */
  lemma {:induction false} RetainKeepsOrder<K>(order: seq<K>, gone: set<K>, i: nat, j: nat) returns (p: nat, q: nat)
    requires i < j < |Retain(order, gone)|
    ensures p < q < |order| && order[p] == Retain(order, gone)[i] && order[q] == Retain(order, gone)[j]
  {
    var front, last := order[..|order| - 1], order[|order| - 1];
    if j < |Retain(front, gone)| {
      p, q := RetainKeepsOrder(front, gone, i, j);
    } else {
      q := |order| - 1;
      p := RetainedFrom(front, gone, i);
    }
  }

  lemma KeptOrder<K(!new)>(order: seq<K>, n: nat, key: K)
    requires n <= |order| && key !in order && forall i, j :: 0 <= i < j < |order| ==> order[i] != order[j]
    ensures var kept := order[n..] + [key]; forall i, j :: 0 <= i < j < |kept| ==> kept[i] != kept[j]
    ensures forall k :: k in order[n..] + [key] <==> k == key || (k in order && k !in Elements(order[..n]))
  {
    forall k
      ensures k in order[n..] <==> k in order && k !in Elements(order[..n])
    {
      EvictedKeys(order, n, k);
    }
  }

  lemma CreatedKeepsWellFormed<K(!new)>(s: Store<K>, b: Binding<K>, n: nat, capacity: nat)
    requires WellFormed(s, capacity) && b.key !in s.values && n == Evicted(|s.order|, capacity)
    ensures WellFormed(s.(values := (s.values - Elements(s.order[..n]))[b.key := b], order := s.order[n..] + [b.key]), capacity)
  {
    KeptOrder(s.order, n, b.key);
    hide Elements;
    var kept := s.values - Elements(s.order[..n]);
    var order := s.order[n..] + [b.key];
    assert |order| == |s.order| - n + 1;
    assert forall k :: k in kept <==> k in s.values && k !in Elements(s.order[..n]);
  }

  lemma PutKeepsWellFormed<K(!new)>(s: Store<K>, b: Binding<K>, allowMigration: bool, capacity: nat)
    requires WellFormed(s, capacity)
    ensures WellFormed(PutStore(s, b, allowMigration, capacity), capacity)
  {
    if PutAnswer(s, b, allowMigration) == Ok(Created) {
      hide WellFormed;
      CreatedKeepsWellFormed(s, b, Evicted(|s.order|, capacity), capacity);
    }
  }

  lemma EvictedKeys<K>(order: seq<K>, n: nat, k: K)
    requires n <= |order| && forall i, j :: 0 <= i < j < |order| ==> order[i] != order[j]
    ensures k in order[n..] <==> k in order && k !in Elements(order[..n])
  {
    if k in order && k !in order[..n] {
      var i :| 0 <= i < |order| && order[i] == k;
      assert i >= n && order[n..][i - n] == k;
    }
  }

  lemma WithoutKeepsWellFormed<K(!new)>(s: Store<K>, gone: set<K>, capacity: nat)
    requires WellFormed(s, capacity)
    ensures WellFormed(Without(s, gone), capacity)
  {
    RetainKeeps(s.order, gone);
    var order := Retain(s.order, gone);
    forall i, j | 0 <= i < j < |order|
      ensures order[i] != order[j]
    {
      var p, q := RetainKeepsOrder(s.order, gone, i, j);
    }
  }

  lemma RemovalsKeepWellFormed<K(!new)>(s: Store<K>, k: K, capacity: nat)
    requires WellFormed(s, capacity)
    ensures WellFormed(RemoveStore(s, k), capacity) && WellFormed(RemoveTaskStore(s, k), capacity)
    ensures WellFormed(RemoveTenantStore(s, k), capacity)
  {
    hide Retain, OfTask, OfTenant;
    WithoutKeepsWellFormed(s, {k}, capacity);
    WithoutKeepsWellFormed(s, OfTask(s.values, k), capacity);
    WithoutKeepsWellFormed(s, OfTenant(s.values, k), capacity);
  }

  class BindingStore<K(==, !new)> {
    var values: map<K, Binding<K>>
    var order: seq<K>
    var tenantGenerations: map<K, nat>
    var taskGenerations: map<K, nat>
    const capacity: nat

    function State(): Store<K>
      reads this
    {
      Store(values, order, tenantGenerations, taskGenerations)
    }

    ghost predicate Valid()
      reads this
    {
      WellFormed(State(), capacity)
    }

    constructor (capacity: nat)
      ensures Valid() && State() == Store(map[], [], map[], map[]) && this.capacity == capacity
    {
      this.capacity := capacity;
      values, order, tenantGenerations, taskGenerations := map[], [], map[], map[];
    }

    method Put(b: Binding<K>, allowMigration: bool) returns (r: Result<Write, StoreError>)
      requires Valid()
      modifies `values, `order
      ensures Valid()
      ensures r == PutAnswer(old(State()), b, allowMigration)
      ensures State() == PutStore(old(State()), b, allowMigration, capacity)
    {
      hide WellFormed;
      PutKeepsWellFormed(State(), b, allowMigration, capacity);
      if GenerationOf(tenantGenerations, b.tenant) != b.tenantGeneration
         || GenerationOf(taskGenerations, b.task) != b.taskGeneration {
        return Err(StaleScope);
      }
      var binding := b;
      var outcome := Created;
      if b.key in values {
        var current := values[b.key];
        if current.identity == b.identity {
          binding := binding.(generation := current.generation, boundAtTurn := current.boundAtTurn);
          outcome := Unchanged;
        } else if !allowMigration {
          return Ok(Conflict);
        } else {
          binding := binding.(generation := current.generation + 1);
          outcome := Migrated;
        }
      }
      if b.key !in values {
        Evict();
        order := order + [b.key];
      }
      values := values[b.key := binding];
      r := Ok(outcome);
    }

    /** Drops the oldest entries until there is room for one more. */
    method Evict()
      requires Valid()
      modifies `values, `order
      ensures var n := Evicted(|old(order)|, capacity);
              order == old(order)[n..] && values == old(values) - Elements(old(order)[..n])
    {
      hide EvictedTo, WellFormed, Elements;
      ghost var n := 0;
      ghost var all := order;
      NothingEvicted(State(), capacity);
      while |values| >= capacity
        invariant n <= Evicted(|all|, capacity) && order == all[n..]
        invariant EvictedTo(old(values), all, n, values)
        decreases |order|
      {
        EvictedSize(old(values), all, n, values);
        if order == [] {
          break;
        }
        var oldest := order[0];
        EvictOne(old(values), all, n, values);
        order := order[1..];
        values := values - {oldest};
        n := n + 1;
      }
      EvictedSize(old(values), all, n, values);
    }

    method Remove(key: K) returns (removed: bool)
      requires Valid()
      modifies `values, `order, `taskGenerations
      ensures Valid() && State() == RemoveStore(old(State()), key) && removed == (key in old(values))
    {
      hide WellFormed, Retain;
      RemovalsKeepWellFormed(State(), key, capacity);
      KeyInOrder(State(), key, capacity);
      taskGenerations := Bump(taskGenerations, key);
      removed := key in values;
      values := values - {key};
      if removed {
        order := Retain(order, {key});
      }
    }

    method RemoveTask(task: K) returns (count: nat)
      requires Valid()
      modifies `values, `order, `taskGenerations
      ensures Valid() && State() == RemoveTaskStore(old(State()), task) && count == |OfTask(old(values), task)|
    {
      hide WellFormed, Retain, OfTask;
      RemovalsKeepWellFormed(State(), task, capacity);
      taskGenerations := Bump(taskGenerations, task);
      var keys := OfTask(values, task);
      RemoveKeys(keys);
      count := |keys|;
    }

    method RemoveTenant(tenant: K) returns (count: nat)
      requires Valid()
      modifies `values, `order, `tenantGenerations
      ensures Valid() && State() == RemoveTenantStore(old(State()), tenant) && count == |OfTenant(old(values), tenant)|
    {
      hide WellFormed, Retain, OfTenant;
      RemovalsKeepWellFormed(State(), tenant, capacity);
      tenantGenerations := Bump(tenantGenerations, tenant);
      var keys := OfTenant(values, tenant);
      RemoveKeys(keys);
      count := |keys|;
    }

    method RemoveKeys(keys: set<K>)
      modifies `values, `order
      ensures values == old(values) - keys && order == Retain(old(order), keys)
    {
      var left := keys;
      while left != {}
        invariant left <= keys && values == old(values) - (keys - left)
        invariant order == old(order)
        decreases |left|
      {
        var key :| key in left;
        values := values - {key};
        left := left - {key};
      }
      order := Retain(order, keys);
    }
  }

  /** The first n keys of the order have left the values. */
  ghost predicate EvictedTo<K>(before: map<K, Binding<K>>, order: seq<K>, n: nat, values: map<K, Binding<K>>)
    requires n <= |order|
  {
    (forall i, j :: 0 <= i < j < |order| ==> order[i] != order[j])
    && (forall k :: k in order ==> k in before)
    && values == before - Elements(order[..n]) && |values| == |order| - n
  }

  lemma NothingEvicted<K(!new)>(s: Store<K>, capacity: nat)
    requires WellFormed(s, capacity)
    ensures EvictedTo(s.values, s.order, 0, s.values)
  {
    DistinctSize(s.order);
    assert s.values.Keys == Elements(s.order);
    assert Elements(s.order[..0]) == {};
  }

  lemma EvictedSize<K>(before: map<K, Binding<K>>, order: seq<K>, n: nat, values: map<K, Binding<K>>)
    requires n <= |order| && EvictedTo(before, order, n, values)
    ensures |values| == |order| - n && values == before - Elements(order[..n])
  {
  }

  lemma EvictOne<K>(before: map<K, Binding<K>>, order: seq<K>, n: nat, values: map<K, Binding<K>>)
    requires n < |order| && EvictedTo(before, order, n, values)
    ensures EvictedTo(before, order, n + 1, values - {order[n]})
  {
    var x := order[n];
    NextKey(order, n);
    RemoveOne(before, Elements(order[..n]), x);
  }

  lemma NextKey<K>(order: seq<K>, n: nat)
    requires n < |order| && forall i, j :: 0 <= i < j < |order| ==> order[i] != order[j]
    ensures Elements(order[..n + 1]) == Elements(order[..n]) + {order[n]} && order[n] !in Elements(order[..n])
  {
    assert order[..n + 1] == order[..n] + [order[n]];
  }

  lemma RemoveOne<K, V>(m: map<K, V>, gone: set<K>, x: K)
    requires x in m && x !in gone
    ensures m - gone - {x} == m - (gone + {x}) && |m - gone - {x}| == |m - gone| - 1
  {
    var rest := m - gone;
    assert (rest - {x}).Keys == rest.Keys - {x};
  }

  lemma KeyInOrder<K(!new)>(s: Store<K>, key: K, capacity: nat)
    requires WellFormed(s, capacity)
    ensures key !in s.values ==> Retain(s.order, {key}) == s.order
  {
    RetainAbsent(s.order, {key});
  }

  lemma {:induction false} RetainAbsent<K>(order: seq<K>, gone: set<K>)
    ensures (forall k :: k in gone ==> k !in order) ==> Retain(order, gone) == order
  {
    if order != [] {
      RetainAbsent(order[..|order| - 1], gone);
      assert order == order[..|order| - 1] + [order[|order| - 1]];
    }
  }
}

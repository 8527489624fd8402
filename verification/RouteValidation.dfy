/** Fallback validation of a route: the three-colour depth-first search that
    rejects unknown fallback tiers and fallback cycles. */
module RouteValidation {
  import opened Results
  import opened Graphs

  datatype FallbackCause =
    | ContextWindow | ContentPolicy | Quota | Capacity | Transport | Timeout
    | RateLimited | ServerError | ProviderUnavailable | Unauthorized | NotFound | BadRequest

  /** `fallbacksByError` holds the entries of the per-cause map in key order. */
  datatype TierConfig = TierConfig(
    tier: string,
    fallbacks: seq<string>,
    fallbacksByError: seq<(FallbackCause, seq<string>)>)
  {
    /** The chain tried for one cause: its own list, or the default one. */
    function FallbacksFor(cause: FallbackCause): seq<string> {
      match Lookup(fallbacksByError, cause)
      case Some(chain) => chain
      case None => fallbacks
    }

    /** The default chain followed by every per-cause chain. */
    function AllFallbacks(): seq<string> {
      fallbacks + Flatten(fallbacksByError)
    }
  }

  function Lookup(entries: seq<(FallbackCause, seq<string>)>, cause: FallbackCause): Option<seq<string>> {
    if entries == [] then None
    else if entries[0].0 == cause then Some(entries[0].1)
    else Lookup(entries[1..], cause)
  }

  function Flatten(entries: seq<(FallbackCause, seq<string>)>): seq<string> {
    if entries == [] then [] else entries[0].1 + Flatten(entries[1..])
  }

  datatype RouteError = UnknownFallbackTier(name: string) | FallbackCycle(name: string)

  ghost predicate UniqueNames(tiers: seq<TierConfig>) {
    forall i, j :: 0 <= i < j < |tiers| ==> tiers[i].tier != tiers[j].tier
  }

  /** g is the combined graph: every default and per-cause fallback is an edge. */
  ghost predicate Describes(g: Graph<string>, tiers: seq<TierConfig>) {
    (forall i :: 0 <= i < |tiers| ==> tiers[i].tier in g && g[tiers[i].tier] == tiers[i].AllFallbacks())
    && forall name :: name in g ==> exists i :: 0 <= i < |tiers| && tiers[i].tier == name
  }

  ghost function RouteGraph(tiers: seq<TierConfig>): (g: Graph<string>)
    requires UniqueNames(tiers)
    ensures Describes(g, tiers)
  {
    map i | 0 <= i < |tiers| :: tiers[i].tier := tiers[i].AllFallbacks()
  }

  lemma {:induction false} LookupIsFlattened(entries: seq<(FallbackCause, seq<string>)>, cause: FallbackCause, name: string)
    requires Lookup(entries, cause).Some? && name in Lookup(entries, cause).value
    ensures name in Flatten(entries)
  {
    if entries[0].0 != cause {
      LookupIsFlattened(entries[1..], cause, name);
    }
  }

  /** Every chain the router may walk is covered by the validated edges. */
  lemma CauseChainIsValidated(t: TierConfig, cause: FallbackCause, name: string)
    requires name in t.FallbacksFor(cause)
    ensures name in t.AllFallbacks()
  {
    if Lookup(t.fallbacksByError, cause).Some? {
      LookupIsFlattened(t.fallbacksByError, cause, name);
    }
  }

  lemma {:induction false} LookupFinds(entries: seq<(FallbackCause, seq<string>)>, cause: FallbackCause)
    ensures Lookup(entries, cause) == None <==> forall e :: e in entries ==> e.0 != cause
    ensures Lookup(entries, cause).Some? ==> (cause, Lookup(entries, cause).value) in entries
  {
    if entries != [] {
      LookupFinds(entries[1..], cause);
    }
  }

  /** The chain of a cause that has an entry is that entry's, and of any other
      cause the default one. */
  lemma ChainIsOwnOrDefault(t: TierConfig, cause: FallbackCause)
    requires forall e, f :: e in t.fallbacksByError && f in t.fallbacksByError && e.0 == f.0 ==> e == f
    ensures forall chain :: (cause, chain) in t.fallbacksByError ==> t.FallbacksFor(cause) == chain
    ensures (forall e :: e in t.fallbacksByError ==> e.0 != cause) ==> t.FallbacksFor(cause) == t.fallbacks
  {
    LookupFinds(t.fallbacksByError, cause);
  }

  lemma {:induction false} FlattenedAre(entries: seq<(FallbackCause, seq<string>)>, name: string)
    ensures name in Flatten(entries) <==> exists e :: e in entries && name in e.1
  {
    if entries != [] {
      FlattenedAre(entries[1..], name);
      assert forall e :: e in entries <==> e == entries[0] || e in entries[1..];
    }
  }

  /** The edges that validation checks are those of the chains, and no others. */
  lemma EdgesAreChains(t: TierConfig, name: string)
    ensures name in t.AllFallbacks() <==> name in t.fallbacks || exists e :: e in t.fallbacksByError && name in e.1
  {
    FlattenedAre(t.fallbacksByError, name);
  }

  // Colours of the search: 0 unvisited, 1 on the current path, 2 finished.

  ghost predicate Coloured(tiers: seq<TierConfig>, states: seq<int>) {
    |states| == |tiers| && forall i :: 0 <= i < |states| ==> 0 <= states[i] <= 2
  }

  ghost function Finished(tiers: seq<TierConfig>, states: seq<int>): set<string>
    requires Coloured(tiers, states)
  {
    set i | 0 <= i < |tiers| && states[i] == 2 :: tiers[i].tier
  }

  ghost function Unvisited(states: seq<int>): set<int> {
    set i | 0 <= i < |states| && states[i] == 0
  }

  /** Finished tiers only fall back to finished tiers and lie on no cycle. */
  ghost predicate SearchInvariant(g: Graph<string>, tiers: seq<TierConfig>, states: seq<int>)
  {
    Coloured(tiers, states)
    && ClosedUnder(g, Finished(tiers, states))
    && forall a :: a in Finished(tiers, states) ==> !OnCycle(g, a)
  }

  /** Every tier on the current path reaches `target` over at least one edge. */
  ghost predicate PathLeadsTo(g: Graph<string>, tiers: seq<TierConfig>, states: seq<int>, target: string)
    requires |states| == |tiers|
  {
    forall i :: 0 <= i < |tiers| && states[i] == 1 ==> ReachesPlus(g, tiers[i].tier, target)
  }

  /** A returning visit leaves the path as it was and only finishes tiers. */
  ghost predicate OnlyFinishes(before: seq<int>, after: seq<int>) {
    |before| == |after|
    && (forall i :: 0 <= i < |before| ==> (after[i] == 1 <==> before[i] == 1))
    && (forall i :: 0 <= i < |before| && before[i] == 2 ==> after[i] == 2)
  }

  ghost predicate IndexesOf(tiers: seq<TierConfig>, indexes: map<string, nat>) {
    (forall i :: 0 <= i < |tiers| ==> tiers[i].tier in indexes)
    && forall name :: name in indexes ==> indexes[name] < |tiers| && tiers[indexes[name]].tier == name
  }

  lemma EnterTier(g: Graph<string>, tiers: seq<TierConfig>, states: seq<int>, index: nat)
    requires Describes(g, tiers) && SearchInvariant(g, tiers, states)
    requires index < |tiers| && states[index] == 0
    ensures SearchInvariant(g, tiers, states[index := 1])
    ensures Unvisited(states[index := 1]) < Unvisited(states)
  {
    assert Finished(tiers, states[index := 1]) == Finished(tiers, states);
    assert index in Unvisited(states) && index !in Unvisited(states[index := 1]);
  }

  lemma UnvisitedOnlyShrinks(before: seq<int>, after: seq<int>)
    requires OnlyFinishes(before, after) && forall i :: 0 <= i < |before| ==> 0 <= before[i] <= 2
    ensures Unvisited(after) <= Unvisited(before)
  {
  }

  lemma DescendAlong(g: Graph<string>, tiers: seq<TierConfig>, states: seq<int>, entered: seq<int>, index: nat, child: string)
    requires Describes(g, tiers) && index < |tiers| == |states| == |entered|
    requires PathLeadsTo(g, tiers, states, tiers[index].tier)
    requires forall i :: 0 <= i < |tiers| && entered[i] == 1 ==> i == index || states[i] == 1
    requires Edge(g, tiers[index].tier, child)
    ensures PathLeadsTo(g, tiers, entered, child)
  {
    WithinSelf(g, child, 0);
    forall i | 0 <= i < |tiers| && entered[i] == 1
      ensures ReachesPlus(g, tiers[i].tier, child)
    {
      if i != index {
        ReachesPlusAppend(g, tiers[i].tier, tiers[index].tier, child);
      }
    }
  }

  lemma LeaveTier(g: Graph<string>, tiers: seq<TierConfig>, states: seq<int>, index: nat)
    requires UniqueNames(tiers) && Describes(g, tiers) && SearchInvariant(g, tiers, states)
    requires index < |tiers| && states[index] == 1
    requires forall name :: name in tiers[index].AllFallbacks() ==> name in Finished(tiers, states)
    ensures SearchInvariant(g, tiers, states[index := 2])
  {
    var finished := Finished(tiers, states);
    assert tiers[index].tier !in finished;
    FinishedNodeIsAcyclic(g, finished, tiers[index].tier);
    assert Finished(tiers, states[index := 2]) == finished + {tiers[index].tier};
  }

  lemma OnlyFinishesTransitive(a: seq<int>, b: seq<int>, c: seq<int>)
    requires OnlyFinishes(a, b) && OnlyFinishes(b, c)
    ensures OnlyFinishes(a, c)
  {
  }

  lemma FinishedGrows(tiers: seq<TierConfig>, before: seq<int>, after: seq<int>)
    requires Coloured(tiers, before) && Coloured(tiers, after) && OnlyFinishes(before, after)
    ensures Finished(tiers, before) <= Finished(tiers, after)
  {
  }

  ghost predicate ValidRoute(g: Graph<string>, tiers: seq<TierConfig>, indexes: map<string, nat>) {
    Describes(g, tiers) && UniqueNames(tiers) && IndexesOf(tiers, indexes) && AllKnown(g)
  }

  ghost predicate IsCycleError(g: Graph<string>, e: RouteError) {
    e.FallbackCycle? && e.name in g && OnCycle(g, e.name)
  }

  ghost predicate FirstFinished(fallbacks: seq<string>, k: nat, finished: set<string>) {
    k <= |fallbacks| && forall m :: 0 <= m < k ==> fallbacks[m] in finished
  }

  lemma FirstFinishedGrows(fallbacks: seq<string>, k: nat, before: set<string>, after: set<string>)
    requires FirstFinished(fallbacks, k, before) && before <= after && k < |fallbacks| && fallbacks[k] in after
    ensures FirstFinished(fallbacks, k + 1, after)
  {
  }

  method VisitFallback(
    index: nat, tiers: seq<TierConfig>, indexes: map<string, nat>, states: array<int>, ghost g: Graph<string>)
    returns (r: Result<(), RouteError>)
    requires ValidRoute(g, tiers, indexes)
    requires index < |tiers| && SearchInvariant(g, tiers, states[..])
    requires PathLeadsTo(g, tiers, states[..], tiers[index].tier)
    modifies states
    ensures r.Ok? ==> SearchInvariant(g, tiers, states[..]) && OnlyFinishes(old(states[..]), states[..]) && states[index] == 2
    ensures r.Err? ==> IsCycleError(g, r.error)
    decreases Unvisited(states[..]), 0
  {
    if states[index] == 2 {
      return Ok(());
    }
    if states[index] == 1 {
      return Err(FallbackCycle(tiers[index].tier));
    }
    ghost var before := states[..];
    EnterTier(g, tiers, before, index);
    states[index] := 1;
    assert states[..] == before[index := 1];
    r := VisitFallbacksOf(index, tiers, indexes, states, g, before);
    if r.Ok? {
      ghost var left := states[..];
      LeaveTier(g, tiers, left, index);
      states[index] := 2;
      assert states[..] == left[index := 2];
    }
  }

  /** The loop over the fallbacks of a tier that was just entered. */
  method VisitFallbacksOf(
    index: nat, tiers: seq<TierConfig>, indexes: map<string, nat>, states: array<int>, ghost g: Graph<string>, ghost before: seq<int>)
    returns (r: Result<(), RouteError>)
    requires ValidRoute(g, tiers, indexes)
    requires index < |tiers| == |before| && states[..] == before[index := 1] && SearchInvariant(g, tiers, states[..])
    requires PathLeadsTo(g, tiers, before, tiers[index].tier)
    modifies states
    ensures r.Ok? ==> SearchInvariant(g, tiers, states[..]) && OnlyFinishes(old(states[..]), states[..])
                      && forall name :: name in tiers[index].AllFallbacks() ==> name in Finished(tiers, states[..])
    ensures r.Err? ==> IsCycleError(g, r.error)
    decreases Unvisited(states[..]), 1
  {
    ghost var entered := states[..];
    var fallbacks := tiers[index].AllFallbacks();
    var k := 0;
    while k < |fallbacks|
      invariant k <= |fallbacks|
      invariant SearchInvariant(g, tiers, states[..]) && OnlyFinishes(entered, states[..])
      invariant FirstFinished(fallbacks, k, Finished(tiers, states[..]))
    {
      ghost var current := states[..];
      assert Edge(g, tiers[index].tier, fallbacks[k]);
      DescendAlong(g, tiers, before, current, index, fallbacks[k]);
      UnvisitedOnlyShrinks(entered, current);
      var child := indexes[fallbacks[k]];
      r := VisitFallback(child, tiers, indexes, states, g);
      if r.Err? {
        return;
      }
      OnlyFinishesTransitive(entered, current, states[..]);
      FinishedGrows(tiers, current, states[..]);
      assert tiers[child].tier in Finished(tiers, states[..]);
      FirstFinishedGrows(fallbacks, k, Finished(tiers, current), Finished(tiers, states[..]));
      k := k + 1;
    }
    return Ok(());
  }

  method IndexTiers(tiers: seq<TierConfig>) returns (indexes: map<string, nat>)
    ensures IndexesOf(tiers, indexes)
  {
    indexes := map[];
    for i := 0 to |tiers|
      invariant forall j :: 0 <= j < i ==> tiers[j].tier in indexes
      invariant forall name :: name in indexes ==> indexes[name] < |tiers| && tiers[indexes[name]].tier == name
    {
      indexes := indexes[tiers[i].tier := i];
    }
  }

  ghost predicate KnownUpTo(g: Graph<string>, tiers: seq<TierConfig>, i: nat) {
    i <= |tiers| && forall j, name :: 0 <= j < i && name in tiers[j].AllFallbacks() ==> name in g
  }

  lemma KnownFurther(g: Graph<string>, tiers: seq<TierConfig>, i: nat)
    requires KnownUpTo(g, tiers, i) && i < |tiers|
    requires forall m :: 0 <= m < |tiers[i].AllFallbacks()| ==> tiers[i].AllFallbacks()[m] in g
    ensures KnownUpTo(g, tiers, i + 1)
  {
  }

  lemma AllTiersKnown(g: Graph<string>, tiers: seq<TierConfig>)
    requires Describes(g, tiers) && KnownUpTo(g, tiers, |tiers|)
    ensures AllKnown(g)
  {
    forall a, b | Edge(g, a, b)
      ensures b in g
    {
      var i :| 0 <= i < |tiers| && tiers[i].tier == a;
    }
  }

  /** The first pass: every fallback must name a tier. */
  method CheckFallbacksKnown(tiers: seq<TierConfig>, indexes: map<string, nat>, ghost g: Graph<string>)
    returns (r: Result<(), RouteError>)
    requires Describes(g, tiers) && IndexesOf(tiers, indexes)
    ensures r.Ok? <==> AllKnown(g)
    ensures r.Err? ==> r.error.UnknownFallbackTier? && r.error.name !in g && exists a :: Edge(g, a, r.error.name)
  {
    var i := 0;
    while i < |tiers|
      invariant KnownUpTo(g, tiers, i)
    {
      var fallbacks := tiers[i].AllFallbacks();
      var k := 0;
      while k < |fallbacks|
        invariant k <= |fallbacks| && forall m :: 0 <= m < k ==> fallbacks[m] in g
      {
        if fallbacks[k] !in indexes {
          assert Edge(g, tiers[i].tier, fallbacks[k]);
          return Err(UnknownFallbackTier(fallbacks[k]));
        }
        assert tiers[indexes[fallbacks[k]]].tier in g;
        k := k + 1;
      }
      KnownFurther(g, tiers, i);
      i := i + 1;
    }
    AllTiersKnown(g, tiers);
    return Ok(());
  }

  ghost predicate SearchedUpTo(states: seq<int>, i: nat) {
    i <= |states|
    && (forall j :: 0 <= j < |states| ==> states[j] != 1)
    && (forall j :: 0 <= j < i ==> states[j] == 2)
  }

  lemma SearchedFurther(before: seq<int>, after: seq<int>, i: nat)
    requires SearchedUpTo(before, i) && OnlyFinishes(before, after) && i < |after| && after[i] == 2
    ensures SearchedUpTo(after, i + 1)
  {
  }

  lemma AllSearched(g: Graph<string>, tiers: seq<TierConfig>, states: seq<int>)
    requires Describes(g, tiers) && SearchInvariant(g, tiers, states) && SearchedUpTo(states, |tiers|)
    ensures Acyclic(g)
  {
    forall a | a in g
      ensures !OnCycle(g, a)
    {
      assert a in Finished(tiers, states);
    }
  }

  /** The second pass: a search from every tier, sharing one colouring. */
  method SearchAllTiers(tiers: seq<TierConfig>, indexes: map<string, nat>, ghost g: Graph<string>)
    returns (r: Result<(), RouteError>)
    requires ValidRoute(g, tiers, indexes)
    ensures r.Ok? <==> Acyclic(g)
    ensures r.Err? ==> IsCycleError(g, r.error)
  {
    var states := new int[|tiers|](_ => 0);
    assert Finished(tiers, states[..]) == {};
    var i := 0;
    while i < |tiers|
      invariant SearchInvariant(g, tiers, states[..]) && SearchedUpTo(states[..], i)
    {
      ghost var current := states[..];
      r := VisitFallback(i, tiers, indexes, states, g);
      if r.Err? {
        return;
      }
      SearchedFurther(current, states[..], i);
      i := i + 1;
    }
    AllSearched(g, tiers, states[..]);
    return Ok(());
  }

  method ValidateFallbacks(tiers: seq<TierConfig>) returns (r: Result<(), RouteError>)
    requires UniqueNames(tiers)
    ensures r.Ok? <==> AllKnown(RouteGraph(tiers)) && Acyclic(RouteGraph(tiers))
    ensures r.Err? && r.error.UnknownFallbackTier? ==>
              r.error.name !in RouteGraph(tiers) && exists a :: Edge(RouteGraph(tiers), a, r.error.name)
    ensures r.Err? && r.error.FallbackCycle? ==>
              AllKnown(RouteGraph(tiers)) && r.error.name in RouteGraph(tiers) && OnCycle(RouteGraph(tiers), r.error.name)
  {
    ghost var g := RouteGraph(tiers);
    var indexes := IndexTiers(tiers);
    r := CheckFallbacksKnown(tiers, indexes, g);
    if r.Ok? {
      r := SearchAllTiers(tiers, indexes, g);
    }
  }
}

/** The planner as it runs: it indexes the tiers, then walks them while updating
    the emitted set, the current path and the plan in place. */
module FallbackPlanner {
  import opened Results
  import opened Graphs
  import opened Sets
  import opened FallbackPlan
  import RouteValidation

  datatype FallbackTierSpec = FallbackTierSpec(tier: string, fallbacks: seq<string>)

  /** Tier names are non-empty and distinct. */
  ghost predicate NamesAccepted(tiers: seq<FallbackTierSpec>) {
    (forall i :: 0 <= i < |tiers| ==> tiers[i].tier != "")
    && forall i, j :: 0 <= i < j < |tiers| ==> tiers[i].tier != tiers[j].tier
  }

  ghost predicate Describes(g: Graph<string>, tiers: seq<FallbackTierSpec>) {
    (forall i :: 0 <= i < |tiers| ==> tiers[i].tier in g && g[tiers[i].tier] == tiers[i].fallbacks)
    && forall name :: name in g ==> exists i :: 0 <= i < |tiers| && tiers[i].tier == name
  }

  ghost function SpecGraph(tiers: seq<FallbackTierSpec>): (g: Graph<string>)
    requires NamesAccepted(tiers)
    ensures Describes(g, tiers)
  {
    map i | 0 <= i < |tiers| :: tiers[i].tier := tiers[i].fallbacks
  }

  /** `indexes` finds every tier of the list, and g is the list's graph. */
  ghost predicate Indexed(g: Graph<string>, tiers: seq<FallbackTierSpec>, indexes: map<string, nat>) {
    indexes.Keys == g.Keys
    && forall name :: name in indexes ==> indexes[name] < |tiers| && tiers[indexes[name]].fallbacks == g[name]
  }

  class Planner {
    var emitted: set<string>
    var active: set<string>
    var planned: seq<string>

    constructor ()
      ensures State() == Start()
    {
      emitted, active, planned := {}, {}, [];
    }

    ghost function State(): PlanState<string>
      reads this
    {
      PlanState(emitted, active, planned)
    }

    method AppendPlannedTier(
      tiers: seq<FallbackTierSpec>, indexes: map<string, nat>, tierName: string, remaining: nat, ghost g: Graph<string>)
      returns (r: Result<(), PlanError<string>>)
      requires Indexed(g, tiers, indexes)
      modifies this
      ensures match r
              case Ok(_) => PlanTier(g, tierName, remaining, old(State())) == Ok(State())
              case Err(e) => PlanTier(g, tierName, remaining, old(State())) == Err(e)
      decreases remaining
    {
      if tierName in active {
        return Err(Cycle(tierName));
      }
      if tierName !in indexes {
        return Err(UnknownTier(tierName));
      }
      if tierName in emitted {
        return Ok(());
      }
      emitted := emitted + {tierName};
      planned := planned + [tierName];
      if remaining == 0 {
        return Ok(());
      }
      active := active + {tierName};
      ghost var entered := State();
      var fallbacks := tiers[indexes[tierName]].fallbacks;
      var k := 0;
      while k < |fallbacks|
        invariant k <= |fallbacks|
        invariant PlanTiers(g, fallbacks[k..], remaining - 1, State()) == PlanTiers(g, fallbacks, remaining - 1, entered)
      {
        assert fallbacks[k..][1..] == fallbacks[k + 1..];
        r := AppendPlannedTier(tiers, indexes, fallbacks[k], remaining - 1, g);
        if r.Err? {
          return;
        }
        k := k + 1;
      }
      active := active - {tierName};
      return Ok(());
    }
  }

  /** Tier i is the first whose name is empty or taken by an earlier tier. */
  ghost predicate FirstRefused(tiers: seq<FallbackTierSpec>, i: nat) {
    i < |tiers|
    && (tiers[i].tier == "" || exists j :: 0 <= j < i && tiers[j].tier == tiers[i].tier)
    && (forall k :: 0 <= k < i ==> tiers[k].tier != "")
    && forall j, k :: 0 <= j < k < i ==> tiers[j].tier != tiers[k].tier
  }

  /** Indexing refuses the first empty or repeated tier name. */
  method IndexSpecs(tiers: seq<FallbackTierSpec>) returns (r: Result<map<string, nat>, PlanError<string>>)
    ensures r.Ok? <==> (forall i :: 0 <= i < |tiers| ==> tiers[i].tier != "")
                       && forall i, j :: 0 <= i < j < |tiers| ==> tiers[i].tier != tiers[j].tier
    ensures r.Ok? <==> NamesAccepted(tiers)
    ensures r.Ok? ==> Indexed(SpecGraph(tiers), tiers, r.value)
    ensures r.Err? ==> exists i: nat :: FirstRefused(tiers, i) && r.error == (if tiers[i].tier == "" then EmptyTier else DuplicateTier(tiers[i].tier))
  {
    var indexes: map<string, nat> := map[];
    for i := 0 to |tiers|
      invariant forall j :: 0 <= j < i ==> tiers[j].tier != ""
      invariant forall j, k :: 0 <= j < k < i ==> tiers[j].tier != tiers[k].tier
      invariant forall j :: 0 <= j < i ==> tiers[j].tier in indexes
      invariant forall name :: name in indexes ==> indexes[name] < i && tiers[indexes[name]].tier == name
    {
      var name := tiers[i].tier;
      if name == "" || name in indexes {
        assert FirstRefused(tiers, i);
        return Err(if name == "" then EmptyTier else DuplicateTier(name));
      }
      indexes := indexes[name := i];
    }
    return Ok(indexes);
  }

  method PlanFallbackTiers(tiers: seq<FallbackTierSpec>, selected: string, maxDepth: nat)
    returns (r: Result<seq<string>, PlanError<string>>)
    ensures NamesAccepted(tiers) ==> r == Plan(SpecGraph(tiers), selected, maxDepth)
    ensures !NamesAccepted(tiers) ==>
              exists i: nat :: FirstRefused(tiers, i)
                          && r == Err(if tiers[i].tier == "" then EmptyTier else DuplicateTier(tiers[i].tier))
  {
    var indexes := IndexSpecs(tiers);
    if indexes.Err? {
      return Err(indexes.error);
    }
    var planner := new Planner();
    var walked := planner.AppendPlannedTier(tiers, indexes.value, selected, maxDepth, SpecGraph(tiers));
    if walked.Err? {
      return Err(walked.error);
    }
    return Ok(planner.planned);
  }

  /** Specs derived from a route: the same tiers, each with some of its edges. */
  ghost predicate DerivedFrom(specs: seq<FallbackTierSpec>, route: seq<RouteValidation.TierConfig>) {
    |specs| == |route|
    && forall i :: 0 <= i < |route| ==>
         specs[i].tier == route[i].tier
         && forall name :: name in specs[i].fallbacks ==> name in route[i].AllFallbacks()
  }

  lemma DerivedKeys(
    route: seq<RouteValidation.TierConfig>, specs: seq<FallbackTierSpec>, g: Graph<string>, h: Graph<string>)
    requires DerivedFrom(specs, route) && RouteValidation.Describes(g, route) && Describes(h, specs)
    ensures h.Keys == g.Keys
  {
    forall name | name in h
      ensures name in g
    {
      var i :| 0 <= i < |specs| && specs[i].tier == name;
      assert route[i].tier in g;
    }
    forall name | name in g
      ensures name in h
    {
      var i :| 0 <= i < |route| && route[i].tier == name;
      assert specs[i].tier in h;
    }
  }

  lemma DerivedIsSubgraph(
    route: seq<RouteValidation.TierConfig>, specs: seq<FallbackTierSpec>, g: Graph<string>, h: Graph<string>)
    requires DerivedFrom(specs, route) && RouteValidation.Describes(g, route) && Describes(h, specs)
    ensures SubgraphOf(h, g)
  {
    DerivedKeys(route, specs, g, h);
    forall a, b | Edge(h, a, b)
      ensures Edge(g, a, b)
    {
      var i :| 0 <= i < |specs| && specs[i].tier == a;
      assert g[route[i].tier] == route[i].AllFallbacks();
    }
  }

  /** On a route that validation accepts, planning from any of its tiers succeeds
      at every depth, whichever of the validated edges it walks. */
  lemma ValidatedRoutePlans(
    route: seq<RouteValidation.TierConfig>, specs: seq<FallbackTierSpec>, g: Graph<string>, h: Graph<string>,
    selected: string, maxDepth: nat)
    requires RouteValidation.Describes(g, route) && AllKnown(g) && Acyclic(g)
    requires DerivedFrom(specs, route) && Describes(h, specs) && selected in h
    ensures Plan(h, selected, maxDepth).Ok?
  {
    DerivedIsSubgraph(route, specs, g, h);
    SubgraphIsSound(h, g);
    PlanOnSoundGraph(h, selected, maxDepth);
  }

  /** The specs for one failure cause, which pick the cause's own chain. */
  function SpecsFor(route: seq<RouteValidation.TierConfig>, cause: RouteValidation.FallbackCause): seq<FallbackTierSpec> {
    seq(|route|, i requires 0 <= i < |route| => FallbackTierSpec(route[i].tier, route[i].FallbacksFor(cause)))
  }

  lemma CauseSpecsAreDerived(route: seq<RouteValidation.TierConfig>, cause: RouteValidation.FallbackCause)
    ensures DerivedFrom(SpecsFor(route, cause), route)
  {
    forall i, name | 0 <= i < |route| && name in route[i].FallbacksFor(cause)
      ensures name in route[i].AllFallbacks()
    {
      RouteValidation.CauseChainIsValidated(route[i], cause, name);
    }
  }

  /** In particular, planning over the chain of any one failure cause. */
  lemma CausePlanNeverFails(
    route: seq<RouteValidation.TierConfig>, cause: RouteValidation.FallbackCause, g: Graph<string>, h: Graph<string>,
    selected: string, maxDepth: nat)
    requires RouteValidation.Describes(g, route) && AllKnown(g) && Acyclic(g)
    requires Describes(h, SpecsFor(route, cause)) && selected in h
    ensures Plan(h, selected, maxDepth).Ok?
  {
    CauseSpecsAreDerived(route, cause);
    ValidatedRoutePlans(route, SpecsFor(route, cause), g, h, selected, maxDepth);
  }

  // The detour as a route that validation and the planner accept.

  function DetourRoute(k: nat, size: nat): (route: seq<RouteValidation.TierConfig>)
    ensures |route| == size
    ensures forall i :: 0 <= i < size ==> route[i] == RouteValidation.TierConfig(Name(i), DetourFallbacks(k, i), [])
  {
    seq(size, i requires 0 <= i < size => RouteValidation.TierConfig(Name(i), DetourFallbacks(k, i), []))
  }

  lemma SameSpecs(g: Graph<string>, h: Graph<string>, tiers: seq<FallbackTierSpec>)
    requires Describes(g, tiers) && Describes(h, tiers)
    ensures g == h
  {
    forall name | name in g || name in h
      ensures name in g && name in h && g[name] == h[name]
    {
      var i :| 0 <= i < |tiers| && tiers[i].tier == name;
    }
  }

  /** The specs list the detour's tiers in order. */
  ghost predicate ListsDetour(k: nat, specs: seq<FallbackTierSpec>) {
    forall i :: 0 <= i < |specs| ==> specs[i] == FallbackTierSpec(Name(i), DetourFallbacks(k, i))
  }

  lemma DetourNamesAccepted(k: nat, specs: seq<FallbackTierSpec>)
    requires ListsDetour(k, specs)
    ensures NamesAccepted(specs)
  {
    hide DetourFallbacks;
    assert forall i :: 0 <= i < |specs| ==> |specs[i].tier| == i + 1;
  }

  lemma DetourDescribed(k: nat, size: nat, specs: seq<FallbackTierSpec>)
    requires 2 <= k && k + 2 <= size && |specs| == size && ListsDetour(k, specs)
    ensures Describes(Detour(k, size), specs)
  {
    hide DetourFallbacks;
    var g := Detour(k, size);
    forall i | 0 <= i < size
      ensures specs[i].tier in g && g[specs[i].tier] == specs[i].fallbacks
    {
      DetourHas(k, size, i);
    }
    forall name | name in g
      ensures exists i :: 0 <= i < |specs| && specs[i].tier == name
    {
      var i :| 0 <= i < size && Name(i) == name;
      assert specs[i].tier == name;
    }
  }

  lemma DetourIsAccepted(k: nat, size: nat, specs: seq<FallbackTierSpec>)
    requires 2 <= k && k + 2 <= size && |specs| == size && ListsDetour(k, specs)
    ensures NamesAccepted(specs) && SpecGraph(specs) == Detour(k, size)
  {
    hide Describes, NamesAccepted, ListsDetour, Detour;
    DetourNamesAccepted(k, specs);
    DetourDescribed(k, size, specs);
    SameSpecs(Detour(k, size), SpecGraph(specs), specs);
  }

  lemma DetourTier(k: nat, size: nat, i: nat)
    requires 2 <= k && k + 2 <= size && i < size
    ensures var tier := DetourRoute(k, size)[i];
            tier.tier == Name(i) != "" && Name(i) in Detour(k, size) && Detour(k, size)[Name(i)] == tier.AllFallbacks()
  {
    hide Detour, DetourFallbacks;
    DetourHas(k, size, i);
    assert DetourFallbacks(k, i) + [] == DetourFallbacks(k, i);
  }

  lemma DetourTierNamed(k: nat, size: nat, name: string)
    requires 2 <= k && k + 2 <= size && name in Detour(k, size)
    ensures exists i :: 0 <= i < size && DetourRoute(k, size)[i].tier == name
  {
    var i :| 0 <= i < size && Name(i) == name;
    assert DetourRoute(k, size)[i].tier == name;
  }

  lemma DetourRouteIsUnique(k: nat, size: nat)
    ensures RouteValidation.UniqueNames(DetourRoute(k, size))
  {
    var route := DetourRoute(k, size);
    hide DetourFallbacks, DetourRoute;
    assert forall i :: 0 <= i < size ==> |route[i].tier| == i + 1;
  }

  /** Route validation has the same graph and accepts it. */
  lemma DetourRouteIsValid(k: nat, size: nat)
    requires 2 <= k && k + 2 <= size
    ensures var route := DetourRoute(k, size);
            RouteValidation.UniqueNames(route) && (forall i :: 0 <= i < size ==> route[i].tier != "")
            && RouteValidation.Describes(Detour(k, size), route)
            && AllKnown(Detour(k, size)) && Acyclic(Detour(k, size))
  {
    hide Detour, DetourFallbacks, DetourRoute, Name, Acyclic, AllKnown, RouteValidation.UniqueNames;
    var route, g := DetourRoute(k, size), Detour(k, size);
    DetourIsValid(k, size);
    DetourRouteIsUnique(k, size);
    forall i | 0 <= i < size
      ensures route[i].tier != "" && route[i].tier in g && g[route[i].tier] == route[i].AllFallbacks()
    {
      DetourTier(k, size, i);
    }
    forall name | name in g
      ensures exists i :: 0 <= i < |route| && route[i].tier == name
    {
      DetourTierNamed(k, size, name);
    }
  }

  /** On this accepted route, for every cause, the planner answers with a plan that leaves
      out a tier two edges from the start. */
  lemma ValidRouteMissesATier(k: nat, size: nat, cause: RouteValidation.FallbackCause)
    requires 2 <= k && k + 2 <= size
    ensures var specs := SpecsFor(DetourRoute(k, size), cause);
            NamesAccepted(specs)
            && var g := SpecGraph(specs);
               Plan(g, Name(0), k).Ok? && Name(k + 1) !in Plan(g, Name(0), k).value
               && Name(k + 1) in g && Within(g, Name(0), Name(k + 1), 2)
  {
    hide Plan;
    var specs := SpecsFor(DetourRoute(k, size), cause);
    DetourIsAccepted(k, size, specs);
    DetourMissesATier(k, size);
  }

  lemma SpecGraphSize(tiers: seq<FallbackTierSpec>)
    requires NamesAccepted(tiers)
    ensures |SpecGraph(tiers)| == |tiers|
  {
    var names := seq(|tiers|, i requires 0 <= i < |tiers| => tiers[i].tier);
    DistinctSize(names);
    SpecGraphNames(tiers, names);
  }

  lemma SpecGraphNames(tiers: seq<FallbackTierSpec>, names: seq<string>)
    requires NamesAccepted(tiers) && |names| == |tiers| && forall i :: 0 <= i < |tiers| ==> names[i] == tiers[i].tier
    ensures SpecGraph(tiers).Keys == Elements(names)
  {
    hide NamesAccepted;
    forall name | name in SpecGraph(tiers)
      ensures name in names
    {
      var i :| 0 <= i < |tiers| && tiers[i].tier == name;
      assert names[i] == name;
    }
    assert forall i :: 0 <= i < |names| ==> names[i] in SpecGraph(tiers);
  }

  /** The depths for which the planner covers every tier within the depth, on all lists of
      n tiers that it accepts and whose graphs validation accepts. */
  lemma PlannerDepthThreshold(n: nat, k: nat)
    ensures (forall specs: seq<FallbackTierSpec>, selected ::
               |specs| == n && NamesAccepted(specs) && AllKnown(SpecGraph(specs)) && Acyclic(SpecGraph(specs))
               ==> CoversDepth(SpecGraph(specs), selected, k))
            <==> (k <= 1 || k + 1 >= n)
  {
    hide CoversDepth, Plan;
    if k <= 1 || k + 1 >= n {
      forall specs: seq<FallbackTierSpec>, selected | |specs| == n && NamesAccepted(specs)
        ensures CoversDepth(SpecGraph(specs), selected, k)
      {
        if k <= 1 {
          CoversOneEdge(SpecGraph(specs), selected, k);
        } else {
          SpecGraphSize(specs);
          CoversNearFullDepth(SpecGraph(specs), selected, k);
        }
      }
    } else {
      var specs := SpecsFor(DetourRoute(k, n), RouteValidation.Timeout);
      DetourIsAccepted(k, n, specs);
      DetourIsValid(k, n);
      DetourMissesATier(k, n);
    }
  }
}

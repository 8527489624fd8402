/** The order of a plan, and which defect it reports: both are those of one walk
    through everything below the selected tier that remembers only its own path. */
module FallbackOrder {
  import opened Results
  import opened Graphs
  import opened Sets
  import opened FallbackPlan

  /** What a walk comes upon: a tier, a name without one, or a tier it stands on. */
  datatype Sight<N> = Tier(name: N) | Nothing(name: N) | Loop(name: N)

  /** Everything within k edges below `name`, each tier before its fallbacks and these in
      the order they are listed, however often it turns up. */
  function Unfold<N(==)>(g: Graph<N>, path: set<N>, name: N, k: nat): seq<Sight<N>>
    decreases k, 0, 0
  {
    if name in path then [Loop(name)]
    else if name !in g then [Nothing(name)]
    else if k == 0 then [Tier(name)]
    else [Tier(name)] + UnfoldAll(g, path + {name}, g[name], k - 1)
  }

  function UnfoldAll<N(==)>(g: Graph<N>, path: set<N>, names: seq<N>, k: nat): seq<Sight<N>>
    decreases k, 1, |names|
  {
    if names == [] then [] else Unfold(g, path, names[0], k) + UnfoldAll(g, path, names[1..], k)
  }

  /** The first defect in sight, or else every tier where it is first seen. */
  function Outcome<N(==)>(sights: seq<Sight<N>>, planned: seq<N>): Result<seq<N>, PlanError<N>>
    decreases |sights|
  {
    if sights == [] then Ok(planned)
    else
      match sights[0]
      case Nothing(name) => Err(UnknownTier(name))
      case Loop(name) => Err(Cycle(name))
      case Tier(name) => Outcome(sights[1..], if name in planned then planned else planned + [name])
  }

  /** The depth ends no walk before it comes to a last tier or to a defect. */
  ghost predicate Uncut<N(!new)>(g: Graph<N>, path: set<N>, name: N, k: nat)
    decreases k
  {
    name in g && name !in path ==>
      if k == 0 then g[name] == [] else forall child :: child in g[name] ==> Uncut(g, path + {name}, child, k - 1)
  }

  lemma {:induction false} OutcomeConcat<N>(a: seq<Sight<N>>, b: seq<Sight<N>>, planned: seq<N>)
    ensures Outcome(a + b, planned)
            == match Outcome(a, planned) case Ok(p) => Outcome(b, p) case Err(e) => Err(e)
    decreases |a|
  {
    if a == [] {
      assert a + b == b;
    } else {
      assert (a + b)[0] == a[0] && (a + b)[1..] == a[1..] + b;
      if a[0].Tier? {
        OutcomeConcat(a[1..], b, if a[0].name in planned then planned else planned + [a[0].name]);
      }
    }
  }

  lemma {:induction false} SeenBefore<N>(sights: seq<Sight<N>>, planned: seq<N>)
    requires forall x :: x in sights ==> x.Tier? && x.name in planned
    ensures Outcome(sights, planned) == Ok(planned)
  {
    if sights != [] {
      SeenBefore(sights[1..], planned);
    }
  }

  /** Below a finished tier there are only finished tiers. */
  lemma {:induction false} DoneUnfolds<N(!new)>(g: Graph<N>, s: PlanState<N>, path: set<N>, name: N, k: nat)
    requires DoneIsSound(g, s) && Done(s) <= g.Keys && name in Done(s)
    requires forall p :: p in path && p in Done(s) ==> ReachesPlus(g, p, name)
    ensures forall x :: x in Unfold(g, path, name, k) ==> x.Tier? && x.name in Done(s)
    decreases k, 0, 0
  {
    if k > 0 {
      forall child | child in g[name]
        ensures child in Done(s)
      {
        assert Edge(g, name, child);
      }
      forall p, child | p in path + {name} && p in Done(s) && child in g[name]
        ensures ReachesPlus(g, p, child)
      {
        assert Edge(g, name, child);
        if p == name {
          WithinSelf(g, child, 0);
        } else {
          ReachesPlusAppend(g, p, name, child);
        }
      }
      DoneUnfoldsAll(g, s, path + {name}, g[name], k - 1);
    }
  }

  lemma {:induction false} DoneUnfoldsAll<N(!new)>(g: Graph<N>, s: PlanState<N>, path: set<N>, names: seq<N>, k: nat)
    requires DoneIsSound(g, s) && Done(s) <= g.Keys && forall n :: n in names ==> n in Done(s)
    requires forall p, n :: p in path && p in Done(s) && n in names ==> ReachesPlus(g, p, n)
    ensures forall x :: x in UnfoldAll(g, path, names, k) ==> x.Tier? && x.name in Done(s)
    decreases k, 1, |names|
  {
    if names != [] {
      assert names[0] in names;
      DoneUnfolds(g, s, path, names[0], k);
      DoneUnfoldsAll(g, s, path, names[1..], k);
    }
  }

  ghost predicate Fit<N(!new)>(g: Graph<N>, s: PlanState<N>) {
    DoneIsSound(g, s) && s.emitted == Elements(s.planned) && s.active <= s.emitted <= g.Keys
  }

  /** The visit comes to what the walk sees. */
  ghost predicate Follows<N(!new)>(g: Graph<N>, names: seq<N>, s: PlanState<N>, r: Result<PlanState<N>, PlanError<N>>,
                                  sights: seq<Sight<N>>) {
    match r
    case Err(e) => Outcome(sights, s.planned) == Err(e)
    case Ok(t) => Outcome(sights, s.planned) == Ok(t.planned) && Fit(g, t) && FinishedAll(g, names, s, t) && t.active == s.active
  }

  lemma {:induction false} TierFollows<N(!new)>(g: Graph<N>, name: N, k: nat, s: PlanState<N>)
    requires Fit(g, s) && Uncut(g, s.active, name, k)
    ensures Follows(g, [name], s, PlanTier(g, name, k, s), Unfold(g, s.active, name, k))
    decreases k, 0, 0
  {
    if name in s.active || name !in g {
    } else if name in s.emitted {
      DoneUnfolds(g, s, s.active, name, k);
      SeenBefore(Unfold(g, s.active, name, k), s.planned);
    } else {
      var emitted := Emit(s, name);
      assert emitted.emitted == Elements(emitted.planned);
      if k == 0 {
        LastFinishes(g, name, s);
        assert [Tier(name)][1..] == [];
      } else {
        var entered := Enter(emitted, name);
        EnteredIsSound(g, name, s);
        TiersFollow(g, g[name], k - 1, entered);
        var rest := UnfoldAll(g, entered.active, g[name], k - 1);
        assert ([Tier(name)] + rest)[1..] == rest;
        var below := PlanTiers(g, g[name], k - 1, entered);
        if below.Ok? {
          LeaveFinishes(g, name, s, below.value);
          assert Leave(below.value, name).active == s.active;
        }
      }
    }
  }

  lemma {:induction false} TiersFollow<N(!new)>(g: Graph<N>, names: seq<N>, k: nat, s: PlanState<N>)
    requires Fit(g, s) && forall n :: n in names ==> Uncut(g, s.active, n, k)
    ensures Follows(g, names, s, PlanTiers(g, names, k, s), UnfoldAll(g, s.active, names, k))
    decreases k, 1, |names|
  {
    if names != [] {
      assert names[0] in names;
      TierFollows(g, names[0], k, s);
      var first := PlanTier(g, names[0], k, s);
      OutcomeConcat(Unfold(g, s.active, names[0], k), UnfoldAll(g, s.active, names[1..], k), s.planned);
      if first.Ok? {
        TiersFollow(g, names[1..], k, first.value);
        assert names[0] in [names[0]];
        assert forall n :: n in names ==> n == names[0] || n in names[1..];
      }
    }
  }

  /** On every graph, whenever the depth ends no walk early: planning reports the first
      defect that the walk sees, and otherwise plans every tier in the order in which
      the walk first sees them. */
  lemma PlanIsFirstSight<N(!new)>(g: Graph<N>, selected: N, maxDepth: nat)
    requires Uncut(g, {}, selected, maxDepth)
    ensures Plan(g, selected, maxDepth) == Outcome(Unfold(g, {}, selected, maxDepth), [])
  {
    TierFollows(g, selected, maxDepth, Start());
  }

  /** A depth of at least the number of tiers ends no walk early. */
  lemma {:induction false} DeepIsUncut<N(!new)>(g: Graph<N>, path: set<N>, name: N, k: nat)
    requires path <= g.Keys && |path| + k >= |g|
    ensures Uncut(g, path, name, k)
    decreases k
  {
    if name in g && name !in path {
      if k == 0 {
        SubsetOfSameSize(path, g.Keys);
        assert false;
      } else {
        forall child | child in g[name]
          ensures Uncut(g, path + {name}, child, k - 1)
        {
          DeepIsUncut(g, path + {name}, child, k - 1);
        }
      }
    }
  }

  /** Nor does a depth that no walk exceeds. */
  lemma {:induction false} ShallowIsUncut<N(!new)>(g: Graph<N>, path: set<N>, name: N, k: nat)
    requires Shallow(g, name, k)
    ensures Uncut(g, path, name, k)
    decreases k
  {
    if name in g && name !in path {
      if g[name] != [] {
        assert Edge(g, name, g[name][0]);
        ShallowBelow(g, name, g[name][0], k);
      }
      forall child | k > 0 && child in g[name]
        ensures Uncut(g, path + {name}, child, k - 1)
      {
        ShallowBelow(g, name, child, k);
        ShallowIsUncut(g, path + {name}, child, k - 1);
      }
    }
  }
}

/** The meaning of fallback planning: a depth-bounded, de-duplicating walk of
    the fallback graph, written as a function of the graph and related to plain
    reachability. */
module FallbackPlan {
  import opened Results
  import opened Graphs
  import opened Sets

  datatype PlanError<N> = EmptyTier | DuplicateTier(name: N) | UnknownTier(name: N) | Cycle(name: N)

  datatype PlanState<N> = PlanState(emitted: set<N>, active: set<N>, planned: seq<N>)

  function Start<N>(): PlanState<N> {
    PlanState({}, {}, [])
  }

  function PlanTier<N(==)>(g: Graph<N>, name: N, remaining: nat, s: PlanState<N>): Result<PlanState<N>, PlanError<N>>
    decreases remaining, 0, 0
  {
    if name in s.active then Err(Cycle(name))
    else if name !in g then Err(UnknownTier(name))
    else if name in s.emitted then Ok(s)
    else
      var emitted := Emit(s, name);
      if remaining == 0 then Ok(emitted)
      else
        match PlanTiers(g, g[name], remaining - 1, Enter(emitted, name))
        case Err(e) => Err(e)
        case Ok(after) => Ok(Leave(after, name))
  }

  function PlanTiers<N(==)>(g: Graph<N>, names: seq<N>, remaining: nat, s: PlanState<N>): Result<PlanState<N>, PlanError<N>>
    decreases remaining, 1, |names|
  {
    if names == [] then Ok(s)
    else
      match PlanTier(g, names[0], remaining, s)
      case Err(e) => Err(e)
      case Ok(after) => PlanTiers(g, names[1..], remaining, after)
  }

  function Emit<N(==)>(s: PlanState<N>, name: N): PlanState<N> {
    s.(emitted := s.emitted + {name}, planned := s.planned + [name])
  }

  function Enter<N(==)>(s: PlanState<N>, name: N): PlanState<N> {
    s.(active := s.active + {name})
  }

  function Leave<N(==)>(s: PlanState<N>, name: N): PlanState<N> {
    s.(active := s.active - {name})
  }

  /** `emitted` lists the tiers of `planned`, each planned once. */
  ghost predicate Listed<N(!new)>(s: PlanState<N>) {
    s.emitted == Elements(s.planned)
    && (forall i, j :: 0 <= i < j < |s.planned| ==> s.planned[i] != s.planned[j])
    && s.active <= s.emitted
  }

  /** What a successful visit does to the plan: it keeps what was planned and
      adds known tiers within `k` edges of one of the visited names. */
  ghost predicate Extends<N(!new)>(g: Graph<N>, names: seq<N>, k: nat, s: PlanState<N>, t: PlanState<N>) {
    Frame(g, s, t)
    && s.planned <= t.planned
    && (forall n :: n in names ==> n in g && n in t.emitted && n !in s.active)
    && (forall n :: n in t.emitted ==> n in s.emitted || (n in g && WithinAny(g, names, n, k)))
  }

  ghost predicate WithinAny<N(!new)>(g: Graph<N>, names: seq<N>, n: N, k: nat) {
    exists m :: m in names && Within(g, m, n, k)
  }

  lemma EmitKeepsListed<N(!new)>(s: PlanState<N>, name: N)
    requires Listed(s) && name !in s.emitted
    ensures Listed(Emit(s, name)) && Listed(Enter(Emit(s, name), name))
  {
    assert Elements(s.planned + [name]) == Elements(s.planned) + {name};
  }

  /** Coming back from the tiers below `name`. */
  lemma DescentExtends<N(!new)>(g: Graph<N>, name: N, k: nat, s: PlanState<N>, t: PlanState<N>)
    requires k > 0 && name in g && Listed(s) && name !in s.emitted && Listed(t)
    requires Extends(g, g[name], k - 1, Enter(Emit(s, name), name), t)
    ensures Listed(Leave(t, name)) && Extends(g, [name], k, s, Leave(t, name))
  {
    WithinSelf(g, name, k);
    assert name in [name];
    assert Leave(t, name).active == s.active;
    assert s.planned <= t.planned;
    forall n | n in t.emitted && n !in s.emitted && n != name
      ensures WithinAny(g, [name], n, k)
    {
      var m :| m in g[name] && Within(g, m, n, k - 1);
      WithinPrepend(g, name, m, n, k - 1);
    }
  }

  lemma {:induction false} PlanTierExtends<N(!new)>(g: Graph<N>, name: N, k: nat, s: PlanState<N>)
    requires Listed(s) && PlanTier(g, name, k, s).Ok?
    ensures Listed(PlanTier(g, name, k, s).value)
    ensures Extends(g, [name], k, s, PlanTier(g, name, k, s).value)
    decreases k, 0, 0
  {
    WithinSelf(g, name, k);
    assert name in [name];
    if name !in s.emitted {
      EmitKeepsListed(s, name);
      if k > 0 {
        var entered := Enter(Emit(s, name), name);
        PlanTiersExtends(g, g[name], k - 1, entered);
        hide Extends, Listed;
        DescentExtends(g, name, k, s, PlanTiers(g, g[name], k - 1, entered).value);
      }
    }
  }

  lemma {:induction false} PlanTiersExtends<N(!new)>(g: Graph<N>, names: seq<N>, k: nat, s: PlanState<N>)
    requires Listed(s) && PlanTiers(g, names, k, s).Ok?
    ensures Listed(PlanTiers(g, names, k, s).value)
    ensures Extends(g, names, k, s, PlanTiers(g, names, k, s).value)
    decreases k, 1, |names|
  {
    if names != [] {
      PlanTierExtends(g, names[0], k, s);
      var mid := PlanTier(g, names[0], k, s).value;
      PlanTiersExtends(g, names[1..], k, mid);
      var t := PlanTiers(g, names[1..], k, mid).value;
      forall n | n in t.emitted && n !in s.emitted
        ensures n in g && WithinAny(g, names, n, k)
      {
        if n in mid.emitted {
          assert names[0] in names;
        } else {
          var m :| m in names[1..] && Within(g, m, n, k);
          assert m in names;
        }
      }
      assert forall n :: n in names ==> n == names[0] || n in names[1..];
    }
  }

  /** Every tier on the current path reaches every name about to be visited. */
  ghost predicate PathReaches<N(!new)>(g: Graph<N>, active: set<N>, names: seq<N>) {
    forall a, n :: a in active && n in names ==> ReachesPlus(g, a, n)
  }

  /** A refusal is justified at every depth: the named tier is reachable from a
      visited name and is unknown, or lies on a cycle. */
  ghost predicate Justified<N(!new)>(g: Graph<N>, names: seq<N>, e: PlanError<N>) {
    match e
    case UnknownTier(n) => n !in g && exists m :: m in names && Reaches(g, m, n)
    case Cycle(n) => n in g && OnCycle(g, n) && exists m :: m in names && Reaches(g, m, n)
    case _ => false
  }

  lemma {:induction false} PlanTierErrors<N(!new)>(g: Graph<N>, name: N, k: nat, s: PlanState<N>)
    requires s.active <= g.Keys && PathReaches(g, s.active, [name]) && PlanTier(g, name, k, s).Err?
    ensures Justified(g, [name], PlanTier(g, name, k, s).error)
    decreases k, 0, 0
  {
    WithinSelf(g, name, 0);
    assert name in [name];
    if name !in s.active && name in g {
      var entered := Enter(Emit(s, name), name);
      forall a, n | a in entered.active && n in g[name]
        ensures ReachesPlus(g, a, n)
      {
        if a == name {
          WithinSelf(g, n, 0);
          assert Edge(g, name, n);
        } else {
          ReachesPlusAppend(g, a, name, n);
        }
      }
      PlanTiersErrors(g, g[name], k - 1, entered);
      var e := PlanTiers(g, g[name], k - 1, entered).error;
      var m :| m in g[name] && Reaches(g, m, e.name);
      ReachesPrepend(g, name, m, e.name);
    }
  }

  lemma {:induction false} PlanTiersErrors<N(!new)>(g: Graph<N>, names: seq<N>, k: nat, s: PlanState<N>)
    requires s.active <= g.Keys && PathReaches(g, s.active, names) && PlanTiers(g, names, k, s).Err?
    ensures Justified(g, names, PlanTiers(g, names, k, s).error)
    decreases k, 1, |names|
  {
    assert names[0] in names;
    if PlanTier(g, names[0], k, s).Err? {
      PlanTierErrors(g, names[0], k, s);
    } else {
      PlanTierFrame(g, names[0], k, s);
      PlanTiersErrors(g, names[1..], k, PlanTier(g, names[0], k, s).value);
      assert forall m :: m in names[1..] ==> m in names;
    }
  }

  /** A successful visit restores the path and only adds known tiers. */
  ghost predicate Frame<N(!new)>(g: Graph<N>, s: PlanState<N>, t: PlanState<N>) {
    t.active == s.active && s.emitted <= t.emitted && (s.emitted <= g.Keys ==> t.emitted <= g.Keys)
  }

  lemma {:induction false} PlanTierFrame<N(!new)>(g: Graph<N>, name: N, k: nat, s: PlanState<N>)
    requires PlanTier(g, name, k, s).Ok?
    ensures Frame(g, s, PlanTier(g, name, k, s).value)
    decreases k, 0, 0
  {
    if name !in s.emitted && k > 0 {
      var entered := Enter(Emit(s, name), name);
      PlanTiersFrame(g, g[name], k - 1, entered);
      assert Leave(entered, name).active == s.active;
    }
  }

  lemma {:induction false} PlanTiersFrame<N(!new)>(g: Graph<N>, names: seq<N>, k: nat, s: PlanState<N>)
    requires PlanTiers(g, names, k, s).Ok?
    ensures Frame(g, s, PlanTiers(g, names, k, s).value)
    decreases k, 1, |names|
  {
    if names != [] {
      PlanTierFrame(g, names[0], k, s);
      PlanTiersFrame(g, names[1..], k, PlanTier(g, names[0], k, s).value);
    }
  }

  // Depth that cannot bind: completeness.

  /** Tiers whose fallbacks have all been visited. */
  ghost function Done<N(!new)>(s: PlanState<N>): set<N> {
    s.emitted - s.active
  }

  ghost predicate DoneIsSound<N(!new)>(g: Graph<N>, s: PlanState<N>) {
    ClosedUnder(g, Done(s)) && forall a :: a in Done(s) ==> !OnCycle(g, a)
  }

  /** A visit either finished every name it was given or, when one edge short
      of the number of tiers, at least emitted every tier there is. */
  ghost predicate Searched<N(!new)>(g: Graph<N>, names: seq<N>, k: nat, s: PlanState<N>, t: PlanState<N>) {
    FinishedAll(g, names, s, t) || (|s.active| + k < |g| && t.emitted == g.Keys)
  }

  ghost predicate FinishedAll<N(!new)>(g: Graph<N>, names: seq<N>, s: PlanState<N>, t: PlanState<N>) {
    DoneIsSound(g, t) && Done(s) <= Done(t) && forall n :: n in names ==> n in Done(t)
  }

  /** The path plus a fresh tier fills the graph when no edges are left. */
  lemma LastEdge<N(!new)>(g: Graph<N>, name: N, s: PlanState<N>)
    requires s.active <= g.Keys && name in g && name !in s.active && |s.active| + 1 >= |g|
    ensures |s.active| < |g| && s.active + {name} == g.Keys
  {
    SubsetOfSameSize(s.active + {name}, g.Keys);
  }

  lemma LeaveFinishes<N(!new)>(g: Graph<N>, name: N, s: PlanState<N>, t: PlanState<N>)
    requires name in g && name !in s.emitted && name in t.active && name in t.emitted
    requires FinishedAll(g, g[name], Enter(Emit(s, name), name), t)
    ensures FinishedAll(g, [name], s, Leave(t, name))
  {
    assert Done(Enter(Emit(s, name), name)) == Done(s);
    FinishedNodeIsAcyclic(g, Done(t), name);
    assert Done(Leave(t, name)) == Done(t) + {name};
  }

  ghost predicate CanSearch<N(!new)>(g: Graph<N>, k: nat, s: PlanState<N>) {
    s.active <= s.emitted <= g.Keys && |s.active| + k + 1 >= |g| && DoneIsSound(g, s)
  }

  lemma EnterCanSearch<N(!new)>(g: Graph<N>, name: N, k: nat, s: PlanState<N>)
    requires CanSearch(g, k, s) && name in g && name !in s.emitted && k > 0
    ensures CanSearch(g, k - 1, Enter(Emit(s, name), name))
    ensures |Enter(Emit(s, name), name).active| == |s.active| + 1
  {
    assert Done(Enter(Emit(s, name), name)) == Done(s);
    assert name !in s.active;
  }

  lemma PlannedIsSearched<N(!new)>(g: Graph<N>, name: N, k: nat, s: PlanState<N>)
    requires CanSearch(g, k, s) && name in s.emitted && name !in s.active
    ensures Searched(g, [name], k, s, s)
  {
  }

  lemma LastIsSearched<N(!new)>(g: Graph<N>, name: N, s: PlanState<N>)
    requires CanSearch(g, 0, s) && name in g && name !in s.emitted
    ensures Searched(g, [name], 0, s, Emit(s, name))
  {
    LastEdge(g, name, s);
  }

  lemma {:induction false} PlanTierSearches<N(!new)>(g: Graph<N>, name: N, k: nat, s: PlanState<N>)
    requires CanSearch(g, k, s) && PlanTier(g, name, k, s).Ok?
    ensures Searched(g, [name], k, s, PlanTier(g, name, k, s).value)
    decreases k, 0, 0
  {
    hide Searched, CanSearch, Frame;
    if name in s.emitted {
      PlannedIsSearched(g, name, k, s);
    } else if k == 0 {
      LastIsSearched(g, name, s);
    } else {
      var entered := Enter(Emit(s, name), name);
      EnterCanSearch(g, name, k, s);
      PlanTiersSearch(g, g[name], k - 1, entered);
      PlanTiersFrame(g, g[name], k - 1, entered);
      DescentSearches(g, name, k, s, PlanTiers(g, g[name], k - 1, entered).value);
    }
  }

  lemma DescentSearches<N(!new)>(g: Graph<N>, name: N, k: nat, s: PlanState<N>, t: PlanState<N>)
    requires name in g && name !in s.emitted && name !in s.active && k > 0
    requires Searched(g, g[name], k - 1, Enter(Emit(s, name), name), t)
    requires Frame(g, Enter(Emit(s, name), name), t)
    ensures Searched(g, [name], k, s, Leave(t, name))
  {
    if FinishedAll(g, g[name], Enter(Emit(s, name), name), t) {
      LeaveFinishes(g, name, s, t);
    }
  }

  lemma {:induction false} PlanTiersSearch<N(!new)>(g: Graph<N>, names: seq<N>, k: nat, s: PlanState<N>)
    requires CanSearch(g, k, s) && PlanTiers(g, names, k, s).Ok?
    ensures Searched(g, names, k, s, PlanTiers(g, names, k, s).value)
    decreases k, 1, |names|
  {
    if names != [] {
      PlanTierSearches(g, names[0], k, s);
      PlanTierFrame(g, names[0], k, s);
      var mid := PlanTier(g, names[0], k, s).value;
      PlanTiersFrame(g, names[1..], k, mid);
      if FinishedAll(g, [names[0]], s, mid) {
        assert names[0] in [names[0]];
        PlanTiersSearch(g, names[1..], k, mid);
      }
      assert forall n :: n in names ==> n == names[0] || n in names[1..];
    }
  }

  // The whole plan.

  function Plan<N(==)>(g: Graph<N>, selected: N, maxDepth: nat): Result<seq<N>, PlanError<N>> {
    match PlanTier(g, selected, maxDepth, Start())
    case Err(e) => Err(e)
    case Ok(s) => Ok(s.planned)
  }

  /** At any depth: an accepted plan starts with the selected tier, repeats
      nothing and stays within the depth; a refusal names a reachable defect. */
  lemma PlanIsSound<N(!new)>(g: Graph<N>, selected: N, maxDepth: nat)
    ensures match Plan(g, selected, maxDepth)
            case Ok(plan) =>
              && |plan| > 0 && plan[0] == selected
              && (forall i, j :: 0 <= i < j < |plan| ==> plan[i] != plan[j])
              && (forall n :: n in plan ==> n in g && Within(g, selected, n, maxDepth))
            case Err(e) => Justified(g, [selected], e)
  {
    assert selected in [selected];
    if PlanTier(g, selected, maxDepth, Start()).Ok? {
      PlanTierExtends(g, selected, maxDepth, Start());
      var s := PlanTier(g, selected, maxDepth, Start()).value;
      SelectedComesFirst(g, selected, maxDepth);
      forall n | n in s.planned
        ensures n in g && Within(g, selected, n, maxDepth)
      {
        assert n in s.emitted;
        var m :| m in [selected] && Within(g, m, n, maxDepth);
      }
    } else {
      PlanTierErrors(g, selected, maxDepth, Start());
    }
  }

  lemma SelectedComesFirst<N(!new)>(g: Graph<N>, selected: N, maxDepth: nat)
    requires PlanTier(g, selected, maxDepth, Start()).Ok?
    ensures [selected] <= PlanTier(g, selected, maxDepth, Start()).value.planned
  {
    var emitted := Emit(Start(), selected);
    if maxDepth > 0 {
      EmitKeepsListed(Start(), selected);
      PlanTiersExtends(g, g[selected], maxDepth - 1, Enter(emitted, selected));
    }
  }

  /** A defect that planning from `selected` must refuse. */
  ghost predicate ReachableDefect<N(!new)>(g: Graph<N>, selected: N) {
    exists n :: Reaches(g, selected, n) && (n !in g || OnCycle(g, n))
  }

  /** Once the depth is at least the number of tiers, planning succeeds exactly
      when no unknown tier and no cycle is reachable, and the plan is exactly
      the set of reachable tiers. */
  lemma DeepPlanIsReachability<N(!new)>(g: Graph<N>, selected: N, maxDepth: nat)
    requires maxDepth >= |g|
    ensures Plan(g, selected, maxDepth).Ok? <==> !ReachableDefect(g, selected)
    ensures Plan(g, selected, maxDepth).Ok? ==>
              forall n :: n in Plan(g, selected, maxDepth).value <==> Reaches(g, selected, n)
  {
    PlanIsSound(g, selected, maxDepth);
    if PlanTier(g, selected, maxDepth, Start()).Ok? {
      assert selected in [selected];
      PlanTierSearches(g, selected, maxDepth, Start());
      PlanTierExtends(g, selected, maxDepth, Start());
      var s := PlanTier(g, selected, maxDepth, Start()).value;
      forall n | Reaches(g, selected, n)
        ensures n in s.planned && n in g && !OnCycle(g, n)
      {
        ReachesStaysInside(g, Done(s), selected, n);
      }
      forall n | n in s.planned
        ensures Reaches(g, selected, n)
      {
        WithinReaches(g, selected, n, maxDepth);
      }
    }
  }

  /** On an acyclic graph without dangling fallbacks planning never fails. */
  lemma PlanOnSoundGraph<N(!new)>(g: Graph<N>, selected: N, maxDepth: nat)
    requires AllKnown(g) && Acyclic(g) && selected in g
    ensures Plan(g, selected, maxDepth).Ok?
  {
    PlanIsSound(g, selected, maxDepth);
    if Plan(g, selected, maxDepth).Err? {
      var e := Plan(g, selected, maxDepth).error;
      if e.UnknownTier? {
        var m :| m in [selected] && Reaches(g, m, e.name);
        ReachesStaysInside(g, g.Keys, selected, e.name);
      }
    }
  }

  /** A refusal for a cycle is exact once the depth covers every tier: with all
      fallbacks known, planning reports a cycle iff one is reachable. */
  lemma CycleReportIsExact<N(!new)>(g: Graph<N>, selected: N, maxDepth: nat)
    requires AllKnown(g) && selected in g && maxDepth >= |g|
    ensures (Plan(g, selected, maxDepth).Err? && Plan(g, selected, maxDepth).error.Cycle?)
            <==> exists n :: Reaches(g, selected, n) && OnCycle(g, n)
  {
    DeepPlanIsReachability(g, selected, maxDepth);
    PlanIsSound(g, selected, maxDepth);
    forall n | Reaches(g, selected, n)
      ensures n in g
    {
      ReachesStaysInside(g, g.Keys, selected, n);
    }
  }

  // A depth that no walk exceeds, on one given graph.

  /** Every walk from `name` has at most k edges. */
  ghost predicate Shallow<N(!new)>(g: Graph<N>, name: N, k: nat) {
    forall p :: Walk(g, p) && p[0] == name ==> |p| <= k + 1
  }

  lemma ShallowBelow<N(!new)>(g: Graph<N>, name: N, child: N, k: nat)
    requires Shallow(g, name, k) && Edge(g, name, child)
    ensures k > 0 && Shallow(g, child, k - 1)
  {
    assert Walk(g, [name, child]);
    forall p | Walk(g, p) && p[0] == child
      ensures |p| <= k
    {
      assert Walk(g, [name] + p);
    }
  }

  lemma LastFinishes<N(!new)>(g: Graph<N>, name: N, s: PlanState<N>)
    requires name in g && g[name] == [] && DoneIsSound(g, s) && name !in s.active
    ensures FinishedAll(g, [name], s, Emit(s, name))
  {
    assert Done(Emit(s, name)) == Done(s) + {name};
  }

  lemma {:induction false} ShallowTierFinishes<N(!new)>(g: Graph<N>, name: N, k: nat, s: PlanState<N>)
    requires Shallow(g, name, k) && DoneIsSound(g, s) && s.active <= s.emitted && PlanTier(g, name, k, s).Ok?
    ensures FinishedAll(g, [name], s, PlanTier(g, name, k, s).value)
    decreases k, 0, 0
  {
    hide FinishedAll, DoneIsSound, Shallow, Frame;
    if name in s.emitted {
      AlreadyFinished(g, name, s);
    } else if g[name] == [] {
      LastFinishes(g, name, s);
      if k > 0 {
        assert Leave(Enter(Emit(s, name), name), name) == Emit(s, name);
      }
    } else {
      assert Edge(g, name, g[name][0]);
      ShallowBelow(g, name, g[name][0], k);
      forall child | child in g[name]
        ensures Shallow(g, child, k - 1)
      {
        ShallowBelow(g, name, child, k);
      }
      var entered := Enter(Emit(s, name), name);
      EnteredIsSound(g, name, s);
      ShallowTiersFinish(g, g[name], k - 1, entered);
      PlanTiersFrame(g, g[name], k - 1, entered);
      FinishesBelow(g, name, s, PlanTiers(g, g[name], k - 1, entered).value);
    }
  }

  lemma AlreadyFinished<N(!new)>(g: Graph<N>, name: N, s: PlanState<N>)
    requires DoneIsSound(g, s) && name in s.emitted && name !in s.active
    ensures FinishedAll(g, [name], s, s)
  {
  }

  lemma EnteredIsSound<N(!new)>(g: Graph<N>, name: N, s: PlanState<N>)
    requires DoneIsSound(g, s) && s.active <= s.emitted && name !in s.emitted
    ensures DoneIsSound(g, Enter(Emit(s, name), name))
  {
    assert Done(Enter(Emit(s, name), name)) == Done(s);
  }

  lemma FinishesBelow<N(!new)>(g: Graph<N>, name: N, s: PlanState<N>, t: PlanState<N>)
    requires name in g && name !in s.emitted && name !in s.active
    requires FinishedAll(g, g[name], Enter(Emit(s, name), name), t) && Frame(g, Enter(Emit(s, name), name), t)
    ensures FinishedAll(g, [name], s, Leave(t, name))
  {
    hide FinishedAll;
    LeaveFinishes(g, name, s, t);
  }

  lemma {:induction false} ShallowTiersFinish<N(!new)>(g: Graph<N>, names: seq<N>, k: nat, s: PlanState<N>)
    requires (forall n :: n in names ==> Shallow(g, n, k)) && DoneIsSound(g, s) && s.active <= s.emitted
    requires PlanTiers(g, names, k, s).Ok?
    ensures FinishedAll(g, names, s, PlanTiers(g, names, k, s).value)
    decreases k, 1, |names|
  {
    hide Shallow;
    if names != [] {
      ShallowTierFinishes(g, names[0], k, s);
      PlanTierFrame(g, names[0], k, s);
      var mid := PlanTier(g, names[0], k, s).value;
      ShallowTiersFinish(g, names[1..], k, mid);
      assert names[0] in [names[0]];
      assert forall n :: n in names ==> n == names[0] || n in names[1..];
    }
  }

  /** On any one graph: when no walk from the selected tier is longer than the depth, a
      plan has exactly the reachable tiers. */
  lemma ShallowPlanIsReachability<N(!new)>(g: Graph<N>, selected: N, maxDepth: nat)
    requires Shallow(g, selected, maxDepth) && Plan(g, selected, maxDepth).Ok?
    ensures forall n :: n in Plan(g, selected, maxDepth).value <==> Reaches(g, selected, n)
    ensures CoversDepth(g, selected, maxDepth)
  {
    PlanIsSound(g, selected, maxDepth);
    assert selected in [selected];
    ShallowTierFinishes(g, selected, maxDepth, Start());
    PlanTierExtends(g, selected, maxDepth, Start());
    var s := PlanTier(g, selected, maxDepth, Start()).value;
    forall n | Reaches(g, selected, n)
      ensures n in s.planned
    {
      ReachesStaysInside(g, Done(s), selected, n);
    }
    forall n | n in s.planned
      ensures Reaches(g, selected, n)
    {
      WithinReaches(g, selected, n, maxDepth);
    }
    forall n | n in g && Within(g, selected, n, maxDepth)
      ensures n in s.planned
    {
      WithinReaches(g, selected, n, maxDepth);
    }
  }

  // Depths that can bind.

  /** The plan contains every tier within the depth it was given. */
  ghost predicate CoversDepth<N(!new)>(g: Graph<N>, selected: N, k: nat) {
    Plan(g, selected, k).Ok? ==>
      forall n :: n in g && Within(g, selected, n, k) ==> n in Plan(g, selected, k).value
  }

  lemma CoversNearFullDepth<N(!new)>(g: Graph<N>, selected: N, k: nat)
    requires k + 1 >= |g|
    ensures CoversDepth(g, selected, k)
  {
    if PlanTier(g, selected, k, Start()).Ok? {
      assert selected in [selected];
      PlanTierSearches(g, selected, k, Start());
      PlanTierExtends(g, selected, k, Start());
      var s := PlanTier(g, selected, k, Start()).value;
      forall n | n in g && Within(g, selected, n, k)
        ensures n in s.emitted
      {
        if DoneIsSound(g, s) {
          ReachesStaysInside(g, Done(s), selected, n);
        }
      }
    }
  }

  lemma CoversOneEdge<N(!new)>(g: Graph<N>, selected: N, k: nat)
    requires k <= 1
    ensures CoversDepth(g, selected, k)
  {
    if PlanTier(g, selected, k, Start()).Ok? {
      assert selected in [selected];
      PlanTierExtends(g, selected, k, Start());
      var entered := Enter(Emit(Start(), selected), selected);
      EmitKeepsListed(Start(), selected);
      if k == 1 {
        PlanTiersExtends(g, g[selected], 0, entered);
      }
      forall n | Within(g, selected, n, k)
        ensures n in PlanTier(g, selected, k, Start()).value.emitted
      {
        var p :| WalkBetween(g, selected, n, p) && |p| <= k + 1;
        if |p| > 1 {
          assert Edge(g, p[0], p[0 + 1]);
        }
      }
    }
  }

  /** Distinct, non-empty tier names: `Name(i)` is i + 1 letters long. */
  function Name(i: nat): (n: string)
    ensures |n| == i + 1
  {
    seq(i + 1, _ => 'a')
  }

  /** A route of `size` tiers whose tier k is reachable directly and, earlier in
      the walk, along a detour of exactly k edges; only tier k leads to tier
      k + 1. */
  ghost function Detour(k: nat, size: nat): (g: Graph<string>)
    requires 2 <= k && k + 2 <= size
  {
    map i | 0 <= i < size :: Name(i) := DetourFallbacks(k, i)
  }

  function DetourFallbacks(k: nat, i: nat): seq<string> {
    if i == 0 then [Name(1), Name(k)] else if i <= k then [Name(i + 1)] else []
  }

  lemma DetourHas(k: nat, size: nat, i: nat)
    requires 2 <= k && k + 2 <= size && i < size
    ensures Name(i) in Detour(k, size) && Detour(k, size)[Name(i)] == DetourFallbacks(k, i)
  {
  }

  lemma {:induction false} CountNames(i: nat)
    ensures |set j | 0 <= j < i :: Name(j)| == i
  {
    if i > 0 {
      CountNames(i - 1);
      assert (set j | 0 <= j < i :: Name(j)) == (set j | 0 <= j < i - 1 :: Name(j)) + {Name(i - 1)};
    }
  }

  /** Edges of the detour lead to longer names, so it has no cycle. */
  lemma DetourIsValid(k: nat, size: nat)
    requires 2 <= k && k + 2 <= size
    ensures |Detour(k, size)| == size && "" !in Detour(k, size) && AllKnown(Detour(k, size)) && Acyclic(Detour(k, size))
  {
    var g := Detour(k, size);
    CountNames(size);
    assert g.Keys == set j | 0 <= j < size :: Name(j);
    forall a, b | Edge(g, a, b)
      ensures b in g && |a| < |b|
    {
      DetourHas(k, size, |a| - 1);
      DetourHas(k, size, |b| - 1);
    }
    forall a | a in g
      ensures !OnCycle(g, a)
    {
      if m :| Edge(g, a, m) && Reaches(g, m, a) {
        var p :| WalkBetween(g, m, a, p);
        WalkLengthens(g, p, |p| - 1);
      }
    }
  }

  lemma {:induction false} WalkLengthens(g: Graph<string>, p: seq<string>, i: nat)
    requires forall a, b :: Edge(g, a, b) ==> |a| < |b|
    requires Walk(g, p) && i < |p|
    ensures |p[0]| <= |p[i]|
  {
    if i > 0 {
      WalkLengthens(g, p, i - 1);
      assert Edge(g, p[i - 1], p[i - 1 + 1]);
    }
  }

  /** Along the detour the depth runs out exactly at tier k. */
  lemma {:induction false} DetourRunsOut(k: nat, size: nat, i: nat, s: PlanState<string>)
    requires 2 <= k && k + 2 <= size && 1 <= i <= k
    requires forall j :: i <= j <= k + 1 ==> Name(j) !in s.emitted && Name(j) !in s.active
    ensures PlanTier(Detour(k, size), Name(i), k - i, s).Ok?
    ensures var t := PlanTier(Detour(k, size), Name(i), k - i, s).value;
            t.active == s.active && Name(k) in t.emitted && Name(k + 1) !in t.emitted
    decreases k - i
  {
    var g := Detour(k, size);
    DetourHas(k, size, i);
    if i < k {
      var entered := Enter(Emit(s, Name(i)), Name(i));
      DetourRunsOut(k, size, i + 1, entered);
      var t := PlanTier(g, Name(i + 1), k - i - 1, entered).value;
      assert g[Name(i)] == [Name(i + 1)];
      assert PlanTiers(g, [], k - i - 1, t) == Ok(t);
      assert PlanTiers(g, [Name(i + 1)], k - i - 1, entered) == Ok(t);
      assert Leave(t, Name(i)).active == s.active;
    }
  }

  /** Tier k + 1 is two edges away, yet the plan that starts at tier 0 leaves it out. */
  lemma DetourMissesATier(k: nat, size: nat)
    requires 2 <= k && k + 2 <= size
    ensures Plan(Detour(k, size), Name(0), k).Ok? && Name(k + 1) !in Plan(Detour(k, size), Name(0), k).value
    ensures Name(k + 1) in Detour(k, size) && Within(Detour(k, size), Name(0), Name(k + 1), 2)
    ensures !CoversDepth(Detour(k, size), Name(0), k)
  {
    var g := Detour(k, size);
    DetourHas(k, size, 0);
    DetourHas(k, size, k);
    DetourHas(k, size, k + 1);
    var entered := Enter(Emit(Start(), Name(0)), Name(0));
    DetourRunsOut(k, size, 1, entered);
    var t := PlanTier(g, Name(1), k - 1, entered).value;
    assert PlanTier(g, Name(k), k - 1, t) == Ok(t);
    assert PlanTiers(g, [], k - 1, t) == Ok(t);
    assert [Name(1), Name(k)][1..] == [Name(k)];
    assert PlanTiers(g, [Name(k)], k - 1, t) == Ok(t);
    assert PlanTiers(g, [Name(1), Name(k)], k - 1, entered) == Ok(t);
    PlanTierExtends(g, Name(0), k, Start());
    assert Name(k + 1) !in PlanTier(g, Name(0), k, Start()).value.planned;
    assert WalkBetween(g, Name(0), Name(k + 1), [Name(0), Name(k), Name(k + 1)]);
  }

  /** Planning covers every tier within the depth on all valid routes of n tiers
      exactly when the depth is at most one edge or leaves at most one tier out:
      in between a tier first met at the end of a long chain is never expanded,
      although a shorter chain reaches it. */
  lemma DepthThreshold(n: nat, k: nat)
    ensures (forall g: Graph<string>, selected ::
               |g| == n && "" !in g && AllKnown(g) && Acyclic(g) ==> CoversDepth(g, selected, k))
            <==> (k <= 1 || k + 1 >= n)
  {
    if k <= 1 || k + 1 >= n {
      forall g: Graph<string>, selected | |g| == n
        ensures CoversDepth(g, selected, k)
      {
        if k <= 1 {
          CoversOneEdge(g, selected, k);
        } else {
          CoversNearFullDepth(g, selected, k);
        }
      }
    } else {
      DetourIsValid(k, n);
      DetourMissesATier(k, n);
    }
  }
}

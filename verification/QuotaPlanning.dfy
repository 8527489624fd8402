/** Which counters a request draws down, in which order, and whether it fits:
    the pure half of the multi-scope quota ledger. */
module QuotaPlanning {
  import opened Results
  import opened Sorting

  const MINUTE_WINDOW_MILLIS: nat := 60_000
  const DAY_WINDOW_MILLIS: nat := 86_400_000

  datatype ScopeKind = Tenant | Provider | Credential | Deployment
  datatype Window = InFlight | Minute | Day
  datatype Dimension = Concurrency | Requests | Tokens

  datatype QuotaLimit = QuotaLimit(scope: ScopeKind, window: Window, dimension: Dimension, limit: nat)

  datatype ScopeRef = ScopeRef(kind: ScopeKind, id: string)

  datatype QuotaRequest = QuotaRequest(scopes: seq<ScopeRef>, estimatedTokens: nat)

  /** What one counter is addressed by. */
  datatype Counter = Counter(
    scope: ScopeKind, scopeId: string, window: Window, dimension: Dimension, dayBucket: Option<nat>)

  datatype QuotaCharge = QuotaCharge(counter: Counter, limit: nat, amount: nat, windowMillis: nat) {
    /** When this counter next has room, in milliseconds from `now`. */
    function ResetMillis(now: nat): nat {
      match counter.dayBucket
      case Some(bucket) =>
        var end := (bucket + 1) * DAY_WINDOW_MILLIS;
        if end >= now then end - now else 0
      case None => windowMillis
    }
  }

  type QuotaChargePlan = seq<QuotaCharge>

  datatype QuotaCounter = QuotaCounter(
    scope: ScopeKind, window: Window, dimension: Dimension, used: nat, limit: nat, resetMillis: nat)

  datatype QuotaBreach = QuotaBreach(scope: ScopeKind, window: Window, dimension: Dimension, resetMillis: nat)

  // Planning.

  /** Position of a (scope, window, dimension) triple in the rejection order. */
  function Rank(scope: ScopeKind, window: Window, dimension: Dimension): nat {
    (match scope case Tenant => 0 case Provider => 9 case Credential => 18 case Deployment => 27)
    + (match window case InFlight => 0 case Minute => 3 case Day => 6)
    + (match dimension case Concurrency => 0 case Requests => 1 case Tokens => 2)
  }

  function LimitRank(limit: QuotaLimit): nat {
    Rank(limit.scope, limit.window, limit.dimension)
  }

  function ChargeRank(charge: QuotaCharge): nat {
    Rank(charge.counter.scope, charge.counter.window, charge.counter.dimension)
  }

  const ByRank: Order<QuotaCharge> := (a, b) => ChargeRank(a) <= ChargeRank(b)

  lemma RankIsInjective(s: ScopeKind, w: Window, d: Dimension, s': ScopeKind, w': Window, d': Dimension)
    requires Rank(s, w, d) == Rank(s', w', d')
    ensures s == s' && w == w' && d == d'
  {
  }

  function FindScope(scopes: seq<ScopeRef>, kind: ScopeKind): Option<string> {
    if scopes == [] then None
    else if scopes[0].kind == kind then Some(scopes[0].id)
    else FindScope(scopes[1..], kind)
  }

  function AmountFor(dimension: Dimension, request: QuotaRequest): nat {
    if dimension == Tokens then request.estimatedTokens else 1
  }

  /** The charge one configured limit makes on a request, if it applies. */
  function ChargeFor(limit: QuotaLimit, request: QuotaRequest, now: nat): Option<QuotaCharge> {
    var scope := FindScope(request.scopes, limit.scope);
    var amount := AmountFor(limit.dimension, request);
    if limit.limit == 0 || scope.None? || amount == 0 then None
    else
      var dayBucket := if limit.window == Day then Some(now / DAY_WINDOW_MILLIS) else None;
      Some(QuotaCharge(
        Counter(limit.scope, scope.value, limit.window, limit.dimension, dayBucket),
        limit.limit, amount, WindowMillis(limit.window)))
  }

  function WindowMillis(window: Window): nat {
    match window
    case Minute => MINUTE_WINDOW_MILLIS
    case Day => DAY_WINDOW_MILLIS
    case InFlight => 0
  }

  ghost function Collected(limits: seq<QuotaLimit>, request: QuotaRequest, now: nat): seq<QuotaCharge> {
    if limits == [] then []
    else
      var rest := Collected(limits[..|limits| - 1], request, now);
      match ChargeFor(limits[|limits| - 1], request, now)
      case Some(charge) => rest + [charge]
      case None => rest
  }

  ghost function PlannedCharges(limits: seq<QuotaLimit>, request: QuotaRequest, now: nat): QuotaChargePlan {
    Sort(ByRank, Collected(limits, request, now))
  }

  method PlanQuotaCharges(limits: seq<QuotaLimit>, request: QuotaRequest, now: nat) returns (plan: QuotaChargePlan)
    ensures plan == PlannedCharges(limits, request, now)
    ensures forall charge :: charge in plan <==> exists l, i :: l in limits && Charging(l, i, request, now, charge)
    ensures UniqueLimits(limits) ==> forall i, j :: 0 <= i < j < |plan| ==> Precedes(plan[i].counter, plan[j].counter)
  {
    var charges: seq<QuotaCharge> := [];
    for i := 0 to |limits|
      invariant charges == Collected(limits[..i], request, now)
    {
      assert limits[..i + 1][..i] == limits[..i];
      var charge := ChargeFor(limits[i], request, now);
      if charge.Some? {
        charges := charges + [charge.value];
      }
    }
    assert limits[..|limits|] == limits;
    plan := Sort(ByRank, charges);
    hide *;
    forall charge
      ensures charge in plan <==> exists l, i :: l in limits && Charging(l, i, request, now, charge)
    {
      PlanIsExact(limits, request, now, charge);
    }
    forall i, j | UniqueLimits(limits) && 0 <= i < j < |plan|
      ensures Precedes(plan[i].counter, plan[j].counter)
    {
      PlanIsInPrecedence(limits, request, now, i, j);
    }
  }

  /** No two limits share a (scope, window, dimension) triple. */
  ghost predicate UniqueLimits(limits: seq<QuotaLimit>) {
    forall i, j :: 0 <= i < j < |limits| ==> LimitRank(limits[i]) != LimitRank(limits[j])
  }

  /** Limit i has the triple of an earlier one. */
  ghost predicate Repeats(limits: seq<QuotaLimit>, i: nat) {
    i < |limits| && exists k :: 0 <= k < i && LimitRank(limits[k]) == LimitRank(limits[i])
  }

  /** Ascending positions of just those among the first n limits that repeat. */
  ghost predicate RepeatsAt(limits: seq<QuotaLimit>, n: nat, positions: seq<nat>) {
    (forall a, b :: 0 <= a < b < |positions| ==> positions[a] < positions[b])
    && forall i: nat :: i in positions <==> i < n && Repeats(limits, i)
  }

  /** Reports every limit that repeats an earlier one, in the configured order. */
  method Duplicates(limits: seq<QuotaLimit>) returns (duplicates: seq<QuotaLimit>, ghost positions: seq<nat>)
    ensures duplicates == [] <==> UniqueLimits(limits)
    ensures |duplicates| == |positions| && RepeatsAt(limits, |limits|, positions)
    ensures forall m :: 0 <= m < |positions| ==> positions[m] < |limits| && duplicates[m] == limits[positions[m]]
  {
    hide LimitRank, Repeats, RepeatsAt;
    var seen: seq<(ScopeKind, Window, Dimension)> := [];
    duplicates := [];
    positions := [];
    NothingRepeats(limits);
    for i := 0 to |limits|
      invariant forall key :: key in seen <==> key in Keys(limits, i)
      invariant |duplicates| == |positions| && RepeatsAt(limits, i, positions)
      invariant forall m :: 0 <= m < |positions| ==> positions[m] < |limits| && duplicates[m] == limits[positions[m]]
    {
      SeenRepeats(limits, i);
      NextPosition(limits, i, positions);
      var limit := limits[i];
      var key := KeyOf(limit);
      if key in seen {
        duplicates := duplicates + [limit];
        positions := positions + [i];
      } else {
        seen := seen + [key];
      }
    }
    UniqueMeansNoRepeat(limits, positions);
  }

  function KeyOf(limit: QuotaLimit): (ScopeKind, Window, Dimension) {
    (limit.scope, limit.window, limit.dimension)
  }

  ghost function Keys(limits: seq<QuotaLimit>, n: nat): set<(ScopeKind, Window, Dimension)>
    requires n <= |limits|
  {
    set k | 0 <= k < n :: KeyOf(limits[k])
  }

  lemma SeenRepeats(limits: seq<QuotaLimit>, i: nat)
    requires i < |limits|
    ensures KeyOf(limits[i]) in Keys(limits, i) <==> Repeats(limits, i)
    ensures Keys(limits, i + 1) == Keys(limits, i) + {KeyOf(limits[i])}
  {
    hide Rank;
    forall k | 0 <= k < i && LimitRank(limits[k]) == LimitRank(limits[i])
      ensures KeyOf(limits[k]) == KeyOf(limits[i])
    {
      RankIsInjective(limits[k].scope, limits[k].window, limits[k].dimension,
                      limits[i].scope, limits[i].window, limits[i].dimension);
    }
  }

  lemma NothingRepeats(limits: seq<QuotaLimit>)
    ensures RepeatsAt(limits, 0, [])
  {
  }

  lemma NextPosition(limits: seq<QuotaLimit>, i: nat, positions: seq<nat>)
    requires RepeatsAt(limits, i, positions)
    ensures RepeatsAt(limits, i + 1, if Repeats(limits, i) then positions + [i] else positions)
  {
    hide Repeats;
    forall a | 0 <= a < |positions|
      ensures positions[a] < i
    {
      assert positions[a] in positions;
    }
  }

  lemma UniqueMeansNoRepeat(limits: seq<QuotaLimit>, positions: seq<nat>)
    requires RepeatsAt(limits, |limits|, positions)
    ensures positions == [] <==> UniqueLimits(limits)
  {
    hide LimitRank;
    if positions != [] {
      assert positions[0] in positions && Repeats(limits, positions[0]);
    }
    if i, j :| 0 <= i < j < |limits| && LimitRank(limits[i]) == LimitRank(limits[j]) {
      assert Repeats(limits, j);
    }
  }

  // What the plan is.

  /** A charge as the planner makes it at time `now`. */
  ghost predicate WellFormed(charge: QuotaCharge, now: nat) {
    && charge.limit > 0 && charge.amount > 0
    && (charge.counter.dimension != Tokens ==> charge.amount == 1)
    && charge.windowMillis == WindowMillis(charge.counter.window)
    && charge.counter.dayBucket == (if charge.counter.window == Day then Some(now / DAY_WINDOW_MILLIS) else None)
  }

  /** Strictly increasing ranks: the order is total and no counter repeats. */
  ghost predicate StrictlyRanked(plan: QuotaChargePlan) {
    forall i, j :: 0 <= i < j < |plan| ==> ChargeRank(plan[i]) < ChargeRank(plan[j])
  }

  lemma {:induction false} CollectedIff(limits: seq<QuotaLimit>, request: QuotaRequest, now: nat, charge: QuotaCharge)
    ensures charge in Collected(limits, request, now)
            <==> exists l :: l in limits && ChargeFor(l, request, now) == Some(charge)
  {
    if limits != [] {
      var n := |limits| - 1;
      CollectedIff(limits[..n], request, now, charge);
      assert limits == limits[..n] + [limits[n]];
    }
  }

  lemma {:induction false} CollectedIsUnique(limits: seq<QuotaLimit>, request: QuotaRequest, now: nat)
    requires UniqueLimits(limits)
    ensures forall i, j :: 0 <= i < j < |Collected(limits, request, now)| ==>
                             ChargeRank(Collected(limits, request, now)[i]) != ChargeRank(Collected(limits, request, now)[j])
  {
    if limits != [] {
      var n := |limits| - 1;
      var rest := Collected(limits[..n], request, now);
      CollectedIsUnique(limits[..n], request, now);
      forall i | 0 <= i < |rest|
        ensures ChargeRank(rest[i]) != LimitRank(limits[n])
      {
        CollectedIff(limits[..n], request, now, rest[i]);
        var l :| l in limits[..n] && ChargeFor(l, request, now) == Some(rest[i]);
        var k :| 0 <= k < n && limits[..n][k] == l;
        assert LimitRank(limits[k]) != LimitRank(limits[n]);
      }
    }
  }

  /** The plan holds exactly the charges of the limits that apply. */
  lemma PlanContains(limits: seq<QuotaLimit>, request: QuotaRequest, now: nat, charge: QuotaCharge)
    ensures charge in PlannedCharges(limits, request, now)
            <==> exists l :: l in limits && ChargeFor(l, request, now) == Some(charge)
    ensures charge in PlannedCharges(limits, request, now) ==> WellFormed(charge, now)
  {
    SortKeepsElements(ByRank, Collected(limits, request, now));
    CollectedIff(limits, request, now, charge);
  }

  /** Limit l, drawing on the i-th identity of the request, makes this charge. */
  ghost predicate Charging(l: QuotaLimit, i: nat, request: QuotaRequest, now: nat, charge: QuotaCharge) {
    && l.limit > 0
    && i < |request.scopes| && request.scopes[i].kind == l.scope && (forall j :: 0 <= j < i ==> request.scopes[j].kind != l.scope)
    && charge.counter.scope == l.scope && charge.counter.scopeId == request.scopes[i].id
    && charge.counter.window == l.window && charge.counter.dimension == l.dimension
    && charge.counter.dayBucket == (if l.window == Day then Some(now / 86_400_000) else None)
    && charge.limit == l.limit
    && charge.amount == (if l.dimension == Tokens then request.estimatedTokens else 1) && charge.amount > 0
    && charge.windowMillis == (if l.window == Minute then 60_000 else if l.window == Day then 86_400_000 else 0)
  }

  lemma {:induction false} FirstOfKind(scopes: seq<ScopeRef>, kind: ScopeKind) returns (i: nat)
    ensures FindScope(scopes, kind).None? ==> forall j :: 0 <= j < |scopes| ==> scopes[j].kind != kind
    ensures FindScope(scopes, kind).Some? ==>
              i < |scopes| && scopes[i].kind == kind && FindScope(scopes, kind).value == scopes[i].id
              && forall j :: 0 <= j < i ==> scopes[j].kind != kind
  {
    i := 0;
    if scopes != [] && scopes[0].kind != kind {
      var rest := FirstOfKind(scopes[1..], kind);
      i := rest + 1;
      assert forall j :: 0 < j < |scopes| ==> scopes[j] == scopes[1..][j - 1];
    }
  }

  lemma ChargeForIs(l: QuotaLimit, request: QuotaRequest, now: nat, charge: QuotaCharge)
    ensures ChargeFor(l, request, now) == Some(charge) <==> exists i :: Charging(l, i, request, now, charge)
  {
    hide FindScope;
    var first := FirstOfKind(request.scopes, l.scope);
    if ChargeFor(l, request, now) == Some(charge) {
      assert Charging(l, first, request, now, charge);
    }
    if i :| Charging(l, i, request, now, charge) {
      assert i == first;
    }
  }

  /** The plan holds exactly the charges of the limits that apply, each in full: a positive
      limit, the first identity of its scope, the estimate for tokens and one for all else. */
  lemma PlanIsExact(limits: seq<QuotaLimit>, request: QuotaRequest, now: nat, charge: QuotaCharge)
    ensures charge in PlannedCharges(limits, request, now)
            <==> exists l, i :: l in limits && Charging(l, i, request, now, charge)
  {
    hide PlannedCharges, ChargeFor, Charging;
    PlanContains(limits, request, now, charge);
    forall l
      ensures ChargeFor(l, request, now) == Some(charge) <==> exists i :: Charging(l, i, request, now, charge)
    {
      ChargeForIs(l, request, now, charge);
    }
  }

  /** The rejection precedence: tenant before provider before credential before deployment,
      then in flight before minute before day, then concurrency before requests before tokens. */
  predicate Precedes(c: Counter, d: Counter) {
    ScopeBefore(c.scope, d.scope)
    || (c.scope == d.scope && (WindowBefore(c.window, d.window)
                               || (c.window == d.window && DimensionBefore(c.dimension, d.dimension))))
  }

  predicate ScopeBefore(a: ScopeKind, b: ScopeKind) {
    (a == Tenant && b != Tenant) || (a == Provider && (b == Credential || b == Deployment)) || (a == Credential && b == Deployment)
  }

  predicate WindowBefore(a: Window, b: Window) {
    (a == InFlight && b != InFlight) || (a == Minute && b == Day)
  }

  predicate DimensionBefore(a: Dimension, b: Dimension) {
    (a == Concurrency && b != Concurrency) || (a == Requests && b == Tokens)
  }

  /** With unique triples the plan lists its charges in that precedence, each once. */
  lemma PlanIsInPrecedence(limits: seq<QuotaLimit>, request: QuotaRequest, now: nat, i: nat, j: nat)
    requires UniqueLimits(limits) && i < j < |PlannedCharges(limits, request, now)|
    ensures Precedes(PlannedCharges(limits, request, now)[i].counter, PlannedCharges(limits, request, now)[j].counter)
  {
    hide PlannedCharges;
    PlanIsStrict(limits, request, now);
  }

  /** When a planned counter next has room: a permit at once, a minute after a minute, and
      a day counter at the next midnight, which is at most a day away. */
  lemma ResetIsNextRoom(limits: seq<QuotaLimit>, request: QuotaRequest, now: nat, charge: QuotaCharge)
    requires charge in PlannedCharges(limits, request, now)
    ensures charge.counter.window == InFlight ==> charge.ResetMillis(now) == 0
    ensures charge.counter.window == Minute ==> charge.ResetMillis(now) == 60_000
    ensures charge.counter.window == Day ==>
              0 < charge.ResetMillis(now) <= 86_400_000 && (now + charge.ResetMillis(now)) % 86_400_000 == 0
  {
    PlanContains(limits, request, now, charge);
  }

  /** Asked later, a day counter resets at the end of its own day, or at once when that is over. */
  lemma DayResetsAtMidnight(charge: QuotaCharge, bucket: nat, now: nat)
    requires charge.counter.dayBucket == Some(bucket)
    ensures charge.ResetMillis(now) == if now <= (bucket + 1) * 86_400_000 then (bucket + 1) * 86_400_000 - now else 0
  {
  }

  /** With unique triples the plan is strictly ordered, whatever the file order. */
  lemma PlanIsStrict(limits: seq<QuotaLimit>, request: QuotaRequest, now: nat)
    requires UniqueLimits(limits)
    ensures StrictlyRanked(PlannedCharges(limits, request, now))
  {
    CollectedIsUnique(limits, request, now);
    SortSorts(ByRank, Collected(limits, request, now));
  }

  /** Reordering the configured limits does not change the plan, and with it
      neither the charges nor which breach is reported first. */
  lemma PlanIgnoresLimitOrder(limits: seq<QuotaLimit>, reordered: seq<QuotaLimit>, request: QuotaRequest, now: nat)
    requires UniqueLimits(limits) && UniqueLimits(reordered)
    requires forall l :: l in limits <==> l in reordered
    ensures PlannedCharges(limits, request, now) == PlannedCharges(reordered, request, now)
  {
    var a, b := Collected(limits, request, now), Collected(reordered, request, now);
    CollectedIsUnique(limits, request, now);
    CollectedIsUnique(reordered, request, now);
    forall x
      ensures x in a <==> x in b
    {
      CollectedIff(limits, request, now, x);
      CollectedIff(reordered, request, now, x);
    }
    SortIgnoresOrder(ByRank, a, b);
  }

  // Admission.

  /** A counter of the charge's scope, window and dimension. */
  predicate Matches(observed: QuotaCounter, charge: QuotaCharge) {
    observed.scope == charge.counter.scope && observed.window == charge.counter.window
    && observed.dimension == charge.counter.dimension
  }

  /** What the first matching counter has used, and nothing without one. */
  function FindUsed(observation: seq<QuotaCounter>, charge: QuotaCharge): (used: nat)
    ensures (forall i :: 0 <= i < |observation| ==> !Matches(observation[i], charge)) ==> used == 0
    ensures (exists i :: 0 <= i < |observation| && Matches(observation[i], charge)) ==>
              exists i :: 0 <= i < |observation| && Matches(observation[i], charge) && used == observation[i].used
                          && forall k :: 0 <= k < i ==> !Matches(observation[k], charge)
  {
    if observation == [] then 0
    else
      var first := observation[0];
      if first.scope == charge.counter.scope && first.window == charge.counter.window && first.dimension == charge.counter.dimension
      then first.used
      else
        assert forall i :: 0 < i < |observation| ==> observation[i] == observation[1..][i - 1];
        FindUsed(observation[1..], charge)
  }

  function BreachOf(charge: QuotaCharge): QuotaBreach {
    QuotaBreach(charge.counter.scope, charge.counter.window, charge.counter.dimension, charge.windowMillis)
  }

  /** The first charge that does not fit on top of what is used. */
  function FirstBreach(plan: QuotaChargePlan, used: seq<nat>): Option<nat>
    requires |used| == |plan|
  {
    FirstBreachFrom(plan, used, 0)
  }

  function FirstBreachFrom(plan: QuotaChargePlan, used: seq<nat>, i: nat): (r: Option<nat>)
    requires |used| == |plan| && i <= |plan|
    ensures r.None? ==> forall k :: i <= k < |plan| ==> used[k] + plan[k].amount <= plan[k].limit
    ensures r.Some? ==> i <= r.value < |plan| && used[r.value] + plan[r.value].amount > plan[r.value].limit
                        && forall k :: i <= k < r.value ==> used[k] + plan[k].amount <= plan[k].limit
    decreases |plan| - i
  {
    if i == |plan| then None
    else if used[i] + plan[i].amount > plan[i].limit then Some(i)
    else FirstBreachFrom(plan, used, i + 1)
  }

  /** The observation reports, in plan order, what each charge's counter has used. */
  function ObservationOf(plan: QuotaChargePlan, used: seq<nat>, now: nat): seq<QuotaCounter>
    requires |used| == |plan|
  {
    seq(|plan|, i requires 0 <= i < |plan| =>
      QuotaCounter(plan[i].counter.scope, plan[i].counter.window, plan[i].counter.dimension,
                   used[i], plan[i].limit, plan[i].ResetMillis(now)))
  }

  lemma {:induction false} FindUsedAt(plan: QuotaChargePlan, used: seq<nat>, now: nat, i: nat, from: nat)
    requires |used| == |plan| && from <= i < |plan| && StrictlyRanked(plan)
    ensures FindUsed(ObservationOf(plan, used, now)[from..], plan[i]) == used[i]
    decreases i - from
  {
    var rest := ObservationOf(plan, used, now)[from..];
    if from < i {
      assert ChargeRank(plan[from]) < ChargeRank(plan[i]);
      FindUsedAt(plan, used, now, i, from + 1);
      assert rest[1..] == ObservationOf(plan, used, now)[from + 1..];
    }
  }

  predicate Over(charge: QuotaCharge, observation: seq<QuotaCounter>) {
    FindUsed(observation, charge) + charge.amount > charge.limit
  }

  /** The admission predicate: refused for the first charge in plan order that does not
      fit on top of what is observed, a counter not observed counting as unused. */
  method EvaluateQuotaPlan(plan: QuotaChargePlan, observation: seq<QuotaCounter>) returns (r: Result<(), QuotaBreach>)
    ensures r.Ok? <==> forall i :: 0 <= i < |plan| ==> !Over(plan[i], observation)
    ensures r.Err? ==> exists i :: 0 <= i < |plan| && Over(plan[i], observation)
                                   && (forall k :: 0 <= k < i ==> !Over(plan[k], observation))
                                   && r.error.scope == plan[i].counter.scope && r.error.window == plan[i].counter.window
                                   && r.error.dimension == plan[i].counter.dimension && r.error.resetMillis == plan[i].windowMillis
  {
    hide FindUsed;
    var i := 0;
    while i < |plan|
      invariant i <= |plan| && forall k :: 0 <= k < i ==> !Over(plan[k], observation)
    {
      if FindUsed(observation, plan[i]) + plan[i].amount > plan[i].limit {
        assert Over(plan[i], observation);
        return Err(BreachOf(plan[i]));
      }
      i := i + 1;
    }
    return Ok(());
  }

  /** On a backend's own observation of a plan this is the first breach of what was used. */
  lemma EvaluationIsFirstBreach(plan: QuotaChargePlan, used: seq<nat>, now: nat)
    requires |used| == |plan| && StrictlyRanked(plan)
    ensures forall i :: 0 <= i < |plan| ==>
              (Over(plan[i], ObservationOf(plan, used, now)) <==> used[i] + plan[i].amount > plan[i].limit)
  {
    hide FindUsed;
    var observation := ObservationOf(plan, used, now);
    forall i | 0 <= i < |plan|
      ensures Over(plan[i], observation) <==> used[i] + plan[i].amount > plan[i].limit
    {
      FindUsedAt(plan, used, now, i, 0);
      assert observation[0..] == observation;
    }
  }

  /** `with_observed_reset`: the breach carries its own counter's reset time. */
  function WithObservedReset(breach: QuotaBreach, observation: seq<QuotaCounter>): QuotaBreach {
    if observation == [] then breach
    else if observation[0].scope == breach.scope && observation[0].window == breach.window
            && observation[0].dimension == breach.dimension then breach.(resetMillis := observation[0].resetMillis)
    else WithObservedReset(breach, observation[1..])
  }

  lemma {:induction false} ResetAt(plan: QuotaChargePlan, used: seq<nat>, now: nat, i: nat, from: nat)
    requires |used| == |plan| && from <= i < |plan| && StrictlyRanked(plan)
    ensures WithObservedReset(BreachOf(plan[i]), ObservationOf(plan, used, now)[from..])
            == BreachOf(plan[i]).(resetMillis := plan[i].ResetMillis(now))
    decreases i - from
  {
    var rest := ObservationOf(plan, used, now)[from..];
    if from < i {
      assert ChargeRank(plan[from]) < ChargeRank(plan[i]);
      ResetAt(plan, used, now, i, from + 1);
      assert rest[1..] == ObservationOf(plan, used, now)[from + 1..];
    }
  }
}

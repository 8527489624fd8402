/** Capacity lease planning (urouter-contracts/src/capacity.rs): unavailable candidates
    are marked, a picker narrows the lowest order, then the weights decide. */
module CapacityLease {
  import opened Results
  import opened DeploymentSelection

  datatype Circuit = Closed | Open | HalfOpen | HalfOpenProbeInFlight

  datatype Snapshot = Snapshot(id: string, order: nat, weight: nat, retryExcluded: bool, circuit: Circuit, inFlight: nat,
                               latency: Option<nat>, quotaUsage: Option<nat>, reasons: seq<string>)

  datatype Picker = Weighted | LeastLoaded | LowestLatency | LowestQuotaUsage

  datatype Plan = Plan(selection: Selection, reserveHalfOpenProbe: bool)

  datatype PlanError = NoCandidates | AllExcluded(evaluations: seq<Evaluation>) | NoWeight

  function Metric(s: Snapshot, picker: Picker): Option<nat> {
    match picker
    case Weighted => None
    case LeastLoaded => Some(s.inFlight)
    case LowestLatency => s.latency
    case LowestQuotaUsage => s.quotaUsage
  }

  function Reason(picker: Picker): string {
    match picker
    case Weighted => ""
    case LeastLoaded => "higher_load"
    case LowestLatency => "higher_latency"
    case LowestQuotaUsage => "higher_quota_usage"
  }

  function ToCandidate(s: Snapshot): Candidate {
    var reasons := s.reasons
                   + (if s.retryExcluded then ["retry_excluded"] else [])
                   + (if s.circuit == Open || s.circuit == HalfOpenProbeInFlight then ["local_circuit_unavailable"] else []);
    Candidate(s.id, s.order, s.weight, reasons == [], reasons)
  }

  function Candidates(ss: seq<Snapshot>): (cs: seq<Candidate>)
    ensures |cs| == |ss| && forall i :: 0 <= i < |cs| ==> cs[i] == ToCandidate(ss[i])
  {
    seq(|ss|, i requires 0 <= i < |ss| => ToCandidate(ss[i]))
  }

  /** Some available candidate of that order has the id. */
  predicate NamesGroup(cs: seq<Candidate>, order: nat, id: string) {
    exists i :: 0 <= i < |cs| && cs[i].id == id && InGroup(cs[i], order)
  }

  /** The least metric among the snapshots that the group names. */
  function BestMetric(ss: seq<Snapshot>, cs: seq<Candidate>, order: nat, picker: Picker): (r: Option<nat>)
    ensures r.None? <==> forall i :: 0 <= i < |ss| && NamesGroup(cs, order, ss[i].id) ==> Metric(ss[i], picker).None?
    ensures r.Some? ==>
              (exists i :: 0 <= i < |ss| && NamesGroup(cs, order, ss[i].id) && Metric(ss[i], picker) == r)
              && forall i :: 0 <= i < |ss| && NamesGroup(cs, order, ss[i].id) && Metric(ss[i], picker).Some? ==>
                               r.value <= Metric(ss[i], picker).value
  {
    if ss == [] then None
    else
      var rest := BestMetric(ss[1..], cs, order, picker);
      assert forall i :: 0 < i < |ss| ==> ss[i] == ss[1..][i - 1];
      var first := Metric(ss[0], picker);
      if !NamesGroup(cs, order, ss[0].id) || first.None? then rest
      else if rest.Some? && rest.value <= first.value then rest
      else first
  }

  /** The metric of the first snapshot with the id. */
  function MetricOf(ss: seq<Snapshot>, id: string, picker: Picker): Option<nat> {
    if ss == [] then None
    else if ss[0].id == id then Metric(ss[0], picker)
    else MetricOf(ss[1..], id, picker)
  }

  predicate Worse(metric: Option<nat>, best: Option<nat>) {
    metric.Some? && best.Some? && metric.value > best.value
  }

  function PickOne(c: Candidate, ss: seq<Snapshot>, order: nat, best: Option<nat>, picker: Picker): Candidate {
    if InGroup(c, order) && Worse(MetricOf(ss, c.id, picker), best)
    then c.(available := false, reasons := c.reasons + [Reason(picker)]) else c
  }

  function Picked(cs: seq<Candidate>, ss: seq<Snapshot>, picker: Picker): (r: seq<Candidate>)
    ensures |r| == |cs|
  {
    var minimum := MinimumOrder(cs);
    if minimum.None? then cs
    else
      var best := BestMetric(ss, cs, minimum.value, picker);
      seq(|cs|, i requires 0 <= i < |cs| => PickOne(cs[i], ss, minimum.value, best, picker))
  }

  /** Marks, in place, the group's candidates that are worse than the best. */
  method ApplyPicker(policy: array<Candidate>, snapshots: seq<Snapshot>, picker: Picker)
    modifies policy
    ensures policy[..] == Picked(old(policy[..]), snapshots, picker)
  {
    hide MinimumOrder, BestMetric, MetricOf;
    ghost var before := policy[..];
    var minimum := MinimumOrder(policy[..]);
    if minimum.None? {
      return;
    }
    var best := BestMetric(snapshots, policy[..], minimum.value, picker);
    if best.None? {
      assert policy[..] == Picked(before, snapshots, picker);
      return;
    }
    for i := 0 to policy.Length
      invariant forall k :: i <= k < policy.Length ==> policy[k] == before[k]
      invariant forall k :: 0 <= k < i ==> policy[k] == PickOne(before[k], snapshots, minimum.value, best, picker)
    {
      if policy[i].available && policy[i].order == minimum.value {
        var metric := MetricOf(snapshots, policy[i].id, picker);
        if metric.Some? && metric.value > best.value {
          policy[i] := policy[i].(available := false, reasons := policy[i].reasons + [Reason(picker)]);
        }
      }
    }
    assert policy[..] == Picked(before, snapshots, picker);
  }

  // With unique ids the picker never empties the group.

  ghost predicate UniqueSnapshots(ss: seq<Snapshot>) {
    forall i, j :: 0 <= i < j < |ss| ==> ss[i].id != ss[j].id
  }

  lemma {:induction false} MetricOfOwn(ss: seq<Snapshot>, i: nat, picker: Picker)
    requires UniqueSnapshots(ss) && i < |ss|
    ensures MetricOf(ss, ss[i].id, picker) == Metric(ss[i], picker)
  {
    if i > 0 {
      assert ss[0].id != ss[i].id;
      MetricOfOwn(ss[1..], i - 1, picker);
    }
  }

  /** cs are the candidates of the snapshots, one by one. */
  ghost predicate Mirrors(cs: seq<Candidate>, ss: seq<Snapshot>) {
    |cs| == |ss| && forall i :: 0 <= i < |cs| ==> cs[i].id == ss[i].id && cs[i].order == ss[i].order && cs[i].weight == ss[i].weight
  }

  lemma CandidatesMirror(ss: seq<Snapshot>)
    ensures Mirrors(Candidates(ss), ss)
  {
  }

  lemma PickedAt(cs: seq<Candidate>, ss: seq<Snapshot>, picker: Picker, i: nat)
    requires i < |cs| && MinimumOrder(cs).Some?
    ensures var order := MinimumOrder(cs).value;
            Picked(cs, ss, picker)[i] == PickOne(cs[i], ss, order, BestMetric(ss, cs, order, picker), picker)
  {
    hide MinimumOrder, BestMetric, PickOne;
  }

  /** No metric in the group is less than the best. */
  lemma BestIsLeast(cs: seq<Candidate>, ss: seq<Snapshot>, order: nat, picker: Picker, i: nat)
    requires Mirrors(cs, ss) && i < |ss| && InGroup(cs[i], order) && Metric(ss[i], picker).Some?
    ensures BestMetric(ss, cs, order, picker).Some? && BestMetric(ss, cs, order, picker).value <= Metric(ss[i], picker).value
  {
    hide InGroup, Metric, BestMetric;
    assert NamesGroup(cs, order, ss[i].id);
  }

  /** What stays in the group: the candidates without a metric and those with the best. */
  lemma PickedStays(cs: seq<Candidate>, ss: seq<Snapshot>, order: nat, picker: Picker, i: nat)
    requires UniqueSnapshots(ss) && Mirrors(cs, ss) && i < |ss|
    ensures var best := BestMetric(ss, cs, order, picker);
            var picked := PickOne(cs[i], ss, order, best, picker);
            picked.id == ss[i].id && picked.order == ss[i].order && picked.weight == ss[i].weight
            && (!InGroup(cs[i], order) ==> picked == cs[i])
            && (InGroup(picked, order) <==>
                InGroup(cs[i], order) && (Metric(ss[i], picker).None? || Metric(ss[i], picker) == best))
  {
    hide MetricOf, BestMetric, Metric, UniqueSnapshots;
    MetricOfOwn(ss, i, picker);
    if InGroup(cs[i], order) && Metric(ss[i], picker).Some? {
      BestIsLeast(cs, ss, order, picker, i);
    }
  }

  /** The best metric is a candidate's own when ids are unique. */
  lemma BestIsAttained(cs: seq<Candidate>, ss: seq<Snapshot>, order: nat, picker: Picker)
    requires UniqueSnapshots(ss) && Mirrors(cs, ss) && BestMetric(ss, cs, order, picker).Some?
    ensures exists k :: 0 <= k < |ss| && InGroup(cs[k], order) && Metric(ss[k], picker) == BestMetric(ss, cs, order, picker)
  {
    hide InGroup, Metric, BestMetric;
    var k :| 0 <= k < |ss| && NamesGroup(cs, order, ss[k].id) && Metric(ss[k], picker) == BestMetric(ss, cs, order, picker);
    var m :| 0 <= m < |cs| && cs[m].id == ss[k].id && InGroup(cs[m], order);
    assert m == k;
  }

  /** Some candidate of a group that has any keeps its place. */
  lemma SomeoneStays(cs: seq<Candidate>, ss: seq<Snapshot>, order: nat, picker: Picker)
    requires UniqueSnapshots(ss) && Mirrors(cs, ss) && exists i :: 0 <= i < |cs| && InGroup(cs[i], order)
    ensures exists k :: 0 <= k < |cs| && InGroup(PickOne(cs[k], ss, order, BestMetric(ss, cs, order, picker), picker), order)
  {
    hide BestMetric, Metric, InGroup, UniqueSnapshots, PickOne;
    var best := BestMetric(ss, cs, order, picker);
    if best.Some? {
      BestIsAttained(cs, ss, order, picker);
      var k :| 0 <= k < |ss| && InGroup(cs[k], order) && Metric(ss[k], picker) == best;
      PickedStays(cs, ss, order, picker, k);
    } else {
      var k :| 0 <= k < |cs| && InGroup(cs[k], order);
      if Metric(ss[k], picker).Some? {
        BestIsLeast(cs, ss, order, picker, k);
      }
      PickedStays(cs, ss, order, picker, k);
    }
  }

  /** The picker's test does not fail candidate i of the lowest group. */
  predicate Survives(cs: seq<Candidate>, ss: seq<Snapshot>, order: nat, picker: Picker, i: nat)
    requires i < |cs|
  {
    InGroup(cs[i], order) && !Worse(MetricOf(ss, cs[i].id, picker), BestMetric(ss, cs, order, picker))
  }

  /** On any candidates, duplicate ids or not, the lowest order stays exactly when the
      test spares some candidate of the group. */
  lemma WhenPickerKeepsGroup(cs: seq<Candidate>, ss: seq<Snapshot>, picker: Picker)
    requires MinimumOrder(cs).Some?
    ensures MinimumOrder(Picked(cs, ss, picker)) == MinimumOrder(cs)
            <==> exists i :: 0 <= i < |cs| && Survives(cs, ss, MinimumOrder(cs).value, picker, i)
  {
    hide InGroup, BestMetric, Picked, MinimumOrder, PickOne, Survives;
    var order := MinimumOrder(cs).value;
    var picked := Picked(cs, ss, picker);
    forall i | 0 <= i < |picked|
      ensures picked[i].available ==> order <= picked[i].order
      ensures InGroup(picked[i], order) <==> Survives(cs, ss, order, picker, i)
    {
      PickedAt(cs, ss, picker, i);
      PickedNoMore(cs[i], ss, order, BestMetric(ss, cs, order, picker), picker);
      SurvivorsStay(cs, ss, order, picker, i);
    }
    if MinimumOrder(picked) == Some(order) {
      GroupMember(picked);
    }
    if i :| 0 <= i < |cs| && Survives(cs, ss, order, picker, i) {
      assert InGroup(picked[i], order);
      InGroupParts(picked[i], order);
      LeastIsMinimum(picked, i, order);
    }
  }

  lemma SurvivorsStay(cs: seq<Candidate>, ss: seq<Snapshot>, order: nat, picker: Picker, i: nat)
    requires i < |cs|
    ensures InGroup(PickOne(cs[i], ss, order, BestMetric(ss, cs, order, picker), picker), order)
            <==> Survives(cs, ss, order, picker, i)
  {
    hide BestMetric, MetricOf, Worse;
  }

  /** With unique ids the picker leaves the lowest order as it was, so a lease is exhausted
      only when nothing was available to begin with. */
  lemma PickerKeepsGroup(cs: seq<Candidate>, ss: seq<Snapshot>, picker: Picker)
    requires UniqueSnapshots(ss) && Mirrors(cs, ss)
    ensures MinimumOrder(Picked(cs, ss, picker)) == MinimumOrder(cs)
  {
    hide InGroup, BestMetric, UniqueSnapshots, Picked, MinimumOrder, PickOne, Survives;
    if MinimumOrder(cs).Some? {
      var order := MinimumOrder(cs).value;
      GroupMember(cs);
      SomeoneStays(cs, ss, order, picker);
      var k :| 0 <= k < |cs| && InGroup(PickOne(cs[k], ss, order, BestMetric(ss, cs, order, picker), picker), order);
      SurvivorsStay(cs, ss, order, picker, k);
      WhenPickerKeepsGroup(cs, ss, picker);
    } else {
      NothingPicked(cs, ss, picker);
    }
  }

  lemma PickedNoMore(c: Candidate, ss: seq<Snapshot>, order: nat, best: Option<nat>, picker: Picker)
    ensures var picked := PickOne(c, ss, order, best, picker); picked.order == c.order && (picked.available ==> c.available)
  {
  }

  lemma GroupMember(cs: seq<Candidate>)
    requires MinimumOrder(cs).Some?
    ensures exists k :: 0 <= k < |cs| && InGroup(cs[k], MinimumOrder(cs).value)
  {
    var k :| 0 <= k < |cs| && cs[k].available && cs[k].order == MinimumOrder(cs).value;
    assert InGroup(cs[k], MinimumOrder(cs).value);
  }

  lemma NothingPicked(cs: seq<Candidate>, ss: seq<Snapshot>, picker: Picker)
    requires MinimumOrder(cs).None?
    ensures Picked(cs, ss, picker) == cs
  {
  }

  lemma LeastIsMinimum(cs: seq<Candidate>, i: nat, order: nat)
    requires i < |cs| && cs[i].available && cs[i].order == order
    requires forall k :: 0 <= k < |cs| && cs[k].available ==> order <= cs[k].order
    ensures MinimumOrder(cs) == Some(order)
  {
    hide MinimumOrder;
  }

  lemma InGroupParts(c: Candidate, order: nat)
    requires InGroup(c, order)
    ensures c.available && c.order == order
  {
  }

  lemma MinimumOfTwo(cs: seq<Candidate>, order: nat)
    requires |cs| == 2 && InGroup(cs[0], order) && InGroup(cs[1], order)
    ensures MinimumOrder(cs) == Some(order)
  {
    hide MinimumOrder;
    assert cs[0].available && cs[1].available;
  }

  lemma NothingAvailable(cs: seq<Candidate>)
    requires forall i :: 0 <= i < |cs| ==> !cs[i].available
    ensures MinimumOrder(cs).None?
  {
    hide MinimumOrder;
  }

  /** What the picker compares when two snapshots share an id. */
  lemma FirstSpeaksForBoth(a: Snapshot, b: Snapshot, cs: seq<Candidate>, order: nat)
    requires a.id == b.id && |cs| == 2 && cs[0].id == a.id && InGroup(cs[0], order)
    ensures MetricOf([a, b], a.id, LeastLoaded) == Some(a.inFlight)
    ensures BestMetric([a, b], cs, order, LeastLoaded).Some?
            && BestMetric([a, b], cs, order, LeastLoaded).value <= b.inFlight
  {
    hide BestMetric, InGroup;
    var ss := [a, b];
    assert ss[1] == b && NamesGroup(cs, order, ss[1].id);
    assert Metric(ss[1], LeastLoaded) == Some(b.inFlight);
  }

  /** Two snapshots of one id: both are judged by the first one's load, so a heavier
      first entry excludes both although they were available. */
  lemma DuplicateIdsEmptyGroup(a: Snapshot, b: Snapshot)
    requires a.id == b.id && a.order == b.order && a.inFlight > b.inFlight
    requires ToCandidate(a).available && ToCandidate(b).available
    ensures MinimumOrder(Candidates([a, b])).Some?
    ensures MinimumOrder(Picked(Candidates([a, b]), [a, b], LeastLoaded)).None?
  {
    hide MinimumOrder, BestMetric, MetricOf, ToCandidate, Picked, Candidates;
    var ss := [a, b];
    var cs := Candidates(ss);
    CandidatesMirror(ss);
    assert cs[0] == ToCandidate(a) && cs[1] == ToCandidate(b);
    MinimumOfTwo(cs, a.order);
    FirstSpeaksForBoth(a, b, cs, a.order);
    PickedAt(cs, ss, LeastLoaded, 0);
    PickedAt(cs, ss, LeastLoaded, 1);
    NothingAvailable(Picked(cs, ss, LeastLoaded));
  }

  function ReservesProbe(ss: seq<Snapshot>, id: string): bool {
    exists i :: 0 <= i < |ss| && ss[i].id == id && ss[i].circuit == HalfOpen
  }

  function ExcludedBy(cs: seq<Candidate>): (r: seq<Evaluation>)
    ensures |r| == |cs|
    ensures forall i :: 0 <= i < |cs| ==> r[i].deployment == cs[i].id && r[i].disposition == Excluded && r[i].reasons == cs[i].reasons
  {
    seq(|cs|, i requires 0 <= i < |cs| => Evaluation(cs[i].id, Excluded, cs[i].reasons))
  }

  method PlanLease(ss: seq<Snapshot>, ticket: nat, picker: Picker) returns (r: Result<Plan, PlanError>)
    ensures r == Err(NoCandidates) <==> ss == []
    ensures ss != [] && MinimumOrder(Candidates(ss)).None? ==> r == Err(AllExcluded(ExcludedBy(Candidates(ss))))
    ensures r.Err? && r.error.AllExcluded? <==> ss != [] && MinimumOrder(Picked(Candidates(ss), ss, picker)).None?
    ensures UniqueSnapshots(ss) ==> (r.Err? && r.error.AllExcluded? <==> ss != [] && MinimumOrder(Candidates(ss)).None?)
    ensures r.Ok? <==> Selectable(Picked(Candidates(ss), ss, picker))
    ensures r.Ok? ==> Selects(r.value.selection, Picked(Candidates(ss), ss, picker), ticket)
                      && r.value.reserveHalfOpenProbe == ReservesProbe(ss, r.value.selection.selected)
  {
    hide MinimumOrder, Picked, Selects, TotalWeight, Eligible;
    if ss == [] {
      return Err(NoCandidates);
    }
    var candidates := Candidates(ss);
    if MinimumOrder(candidates).None? {
      NothingPicked(candidates, ss, picker);
      return Err(AllExcluded(ExcludedBy(candidates)));
    }
    var policy := new Candidate[|candidates|](i requires 0 <= i < |candidates| => candidates[i]);
    assert policy[..] == candidates;
    ApplyPicker(policy, ss, picker);
    CandidatesMirror(ss);
    if UniqueSnapshots(ss) {
      PickerKeepsGroup(candidates, ss, picker);
    }
    var selection := SelectWeighted(policy[..], ticket);
    match selection {
      case Err(Empty) => r := Err(NoCandidates);
      case Err(Exhausted) => r := Err(AllExcluded([]));
      case Err(ZeroWeight) => r := Err(NoWeight);
      case Ok(s) => r := Ok(Plan(s, ReservesProbe(ss, s.selected)));
    }
  }

  lemma ChosenIsEligible(cs: seq<Candidate>, ticket: nat)
    requires Selectable(cs)
    ensures exists i :: 0 <= i < |cs| && cs[i] == Chosen(cs, ticket)
    ensures Chosen(cs, ticket).weight > 0 && InGroup(Chosen(cs, ticket), MinimumOrder(cs).value)
  {
    hide InGroup, Eligible, MinimumOrder;
    EligibleElements(cs, MinimumOrder(cs).value);
    var chosen := Chosen(cs, ticket);
    assert chosen in cs;
  }

  // What this means for the snapshots themselves.

  /** The snapshot can be leased from: no reason against it, no retry that excludes it, and
      a circuit that lets a request or a probe through. */
  predicate Free(s: Snapshot) {
    s.reasons == [] && !s.retryExcluded && (s.circuit == Closed || s.circuit == HalfOpen)
  }

  lemma FreeIsAvailable(s: Snapshot)
    ensures ToCandidate(s).available <==> Free(s)
    ensures ToCandidate(s).id == s.id && ToCandidate(s).order == s.order && ToCandidate(s).weight == s.weight
  {
  }

  /** The reasons a snapshot that is not free is excluded for: its own, then these two. */
  lemma ReasonsAre(s: Snapshot)
    ensures var r := ToCandidate(s).reasons;
            s.reasons <= r
            && r[|s.reasons|..] == (if s.retryExcluded then ["retry_excluded"] else [])
                                   + (if s.circuit in {Open, HalfOpenProbeInFlight} then ["local_circuit_unavailable"] else [])
  {
    var first := s.reasons + (if s.retryExcluded then ["retry_excluded"] else []);
    var last := if s.circuit in {Open, HalfOpenProbeInFlight} then ["local_circuit_unavailable"] else [];
    assert first + last == s.reasons + ((if s.retryExcluded then ["retry_excluded"] else []) + last);
  }

  /** What the picker prefers, in the snapshots' own fields: fewer requests in flight, a lower
      latency or a lower quota usage where both are known, and nothing when only weights count. */
  predicate Beats(a: Snapshot, b: Snapshot, picker: Picker) {
    match picker
    case Weighted => false
    case LeastLoaded => a.inFlight < b.inFlight
    case LowestLatency => a.latency.Some? && b.latency.Some? && a.latency.value < b.latency.value
    case LowestQuotaUsage => a.quotaUsage.Some? && b.quotaUsage.Some? && a.quotaUsage.value < b.quotaUsage.value
  }

  lemma BeatsIsMetric(a: Snapshot, b: Snapshot, picker: Picker)
    ensures Beats(a, b, picker) <==>
            Metric(a, picker).Some? && Metric(b, picker).Some? && Metric(a, picker).value < Metric(b, picker).value
  {
  }

  /** A snapshot of the lowest order that anything free has. */
  ghost predicate Leading(ss: seq<Snapshot>, i: nat) {
    i < |ss| && Free(ss[i]) && forall k :: 0 <= k < |ss| && Free(ss[k]) ==> ss[i].order <= ss[k].order
  }

  /** One that the picker leaves: no other leading snapshot beats it. */
  ghost predicate Unbeaten(ss: seq<Snapshot>, i: nat, picker: Picker) {
    Leading(ss, i) && forall k :: 0 <= k < |ss| && Leading(ss, k) ==> !Beats(ss[k], ss[i], picker)
  }

  lemma LeadingIsGroup(ss: seq<Snapshot>, i: nat)
    requires i < |ss|
    ensures var cs := Candidates(ss);
            Leading(ss, i) <==> MinimumOrder(cs).Some? && InGroup(cs[i], MinimumOrder(cs).value)
  {
    hide MinimumOrder, ToCandidate, Free;
    var cs := Candidates(ss);
    forall k | 0 <= k < |ss|
      ensures cs[k].available == Free(ss[k]) && cs[k].order == ss[k].order
    {
      FreeIsAvailable(ss[k]);
    }
    if MinimumOrder(cs).Some? {
      var j :| 0 <= j < |cs| && cs[j].available && cs[j].order == MinimumOrder(cs).value;
      assert Free(ss[j]);
    }
  }

  lemma UnbeatenIsBest(ss: seq<Snapshot>, i: nat, picker: Picker)
    requires UniqueSnapshots(ss) && i < |ss| && Leading(ss, i)
    ensures var cs := Candidates(ss);
            MinimumOrder(cs).Some?
            && (Unbeaten(ss, i, picker) <==>
                Metric(ss[i], picker).None? || Metric(ss[i], picker) == BestMetric(ss, cs, MinimumOrder(cs).value, picker))
  {
    hide MinimumOrder, ToCandidate, Free, Metric, Beats, BestMetric, UniqueSnapshots, InGroup, Candidates, Leading;
    var cs := Candidates(ss);
    CandidatesMirror(ss);
    LeadingIsGroup(ss, i);
    var order := MinimumOrder(cs).value;
    var best := BestMetric(ss, cs, order, picker);
    forall k | 0 <= k < |ss| && Leading(ss, k)
      ensures InGroup(cs[k], order) && (Beats(ss[k], ss[i], picker) <==>
              Metric(ss[k], picker).Some? && Metric(ss[i], picker).Some? && Metric(ss[k], picker).value < Metric(ss[i], picker).value)
      ensures Metric(ss[k], picker).Some? ==> best.Some? && best.value <= Metric(ss[k], picker).value
    {
      LeadingIsGroup(ss, k);
      BeatsIsMetric(ss[k], ss[i], picker);
      if Metric(ss[k], picker).Some? {
        BestIsLeast(cs, ss, order, picker, k);
      }
    }
    if best.Some? {
      BestIsAttained(cs, ss, order, picker);
      var k :| 0 <= k < |ss| && InGroup(cs[k], order) && Metric(ss[k], picker) == best;
      LeadingIsGroup(ss, k);
    }
  }

  /** The picker leaves in the running exactly the unbeaten snapshots, and gives its own
      reason to those it takes out. */
  lemma PickedAreUnbeaten(ss: seq<Snapshot>, i: nat, picker: Picker)
    requires UniqueSnapshots(ss) && i < |ss| && MinimumOrder(Candidates(ss)).Some?
    ensures var cs := Candidates(ss);
            var picked := Picked(cs, ss, picker);
            var order := MinimumOrder(cs).value;
            MinimumOrder(picked) == MinimumOrder(cs)
            && (InGroup(picked[i], order) <==> Unbeaten(ss, i, picker))
            && (!Leading(ss, i) || Unbeaten(ss, i, picker) ==> picked[i] == cs[i])
            && (Leading(ss, i) && !Unbeaten(ss, i, picker) ==>
                  !picked[i].available
                  && picked[i].reasons == cs[i].reasons + [match picker
                                                           case LeastLoaded => "higher_load"
                                                           case LowestLatency => "higher_latency"
                                                           case LowestQuotaUsage => "higher_quota_usage"
                                                           case Weighted => ""])
  {
    hide MinimumOrder, ToCandidate, Free, Metric, Beats, BestMetric, UniqueSnapshots, Candidates, Leading, Picked, Unbeaten, MetricOf;
    var cs := Candidates(ss);
    var order := MinimumOrder(cs).value;
    CandidatesMirror(ss);
    PickerKeepsGroup(cs, ss, picker);
    PickedAt(cs, ss, picker, i);
    PickedStays(cs, ss, order, picker, i);
    LeadingIsGroup(ss, i);
    UnbeatenLeads(ss, i, picker);
    if Leading(ss, i) {
      UnbeatenIsBest(ss, i, picker);
    }
  }

  lemma UnbeatenLeads(ss: seq<Snapshot>, i: nat, picker: Picker)
    ensures Unbeaten(ss, i, picker) ==> Leading(ss, i)
  {
  }

  /** The picker named "weighted" changes nothing. */
  lemma WeightedPicksAll(cs: seq<Candidate>, ss: seq<Snapshot>)
    ensures Picked(cs, ss, Weighted) == cs
  {
    hide MetricOf, BestMetric, MinimumOrder;
    if MinimumOrder(cs).Some? {
      forall i | 0 <= i < |cs|
        ensures Picked(cs, ss, Weighted)[i] == cs[i]
      {
        PickedAt(cs, ss, Weighted, i);
        WeightedHasNoMetric(ss, cs[i].id);
      }
    }
  }

  lemma {:induction false} WeightedHasNoMetric(ss: seq<Snapshot>, id: string)
    ensures MetricOf(ss, id, Weighted).None?
  {
    if ss != [] {
      WeightedHasNoMetric(ss[1..], id);
    }
  }

  /** The deployment chosen was free, has weight, leads, and is beaten by no other that leads. */
  lemma ChosenIsBest(ss: seq<Snapshot>, ticket: nat, picker: Picker)
    requires UniqueSnapshots(ss) && Selectable(Picked(Candidates(ss), ss, picker))
    ensures exists i :: 0 <= i < |ss| && ss[i].id == Chosen(Picked(Candidates(ss), ss, picker), ticket).id
                        && ss[i].weight > 0 && Unbeaten(ss, i, picker)
  {
    hide MetricOf, Metric, Picked, BestMetric, ToCandidate, UniqueSnapshots, Chosen, MinimumOrder, Eligible, Candidates, PickOne, Unbeaten, InGroup;
    var cs := Candidates(ss);
    var picked := Picked(cs, ss, picker);
    CandidatesMirror(ss);
    PickerKeepsGroup(cs, ss, picker);
    ChosenIsEligible(picked, ticket);
    var i :| 0 <= i < |picked| && picked[i] == Chosen(picked, ticket);
    PickedAreUnbeaten(ss, i, picker);
    PickedAt(cs, ss, picker, i);
    PickedStays(cs, ss, MinimumOrder(cs).value, picker, i);
  }

  /** A lease takes the half-open probe exactly when a snapshot of the chosen deployment is
      half open. */
  lemma ProbeIsReserved(ss: seq<Snapshot>, id: string)
    requires UniqueSnapshots(ss)
    ensures forall i :: 0 <= i < |ss| && ss[i].id == id ==> (ReservesProbe(ss, id) <==> ss[i].circuit == HalfOpen)
    ensures (forall i :: 0 <= i < |ss| ==> ss[i].id != id) ==> !ReservesProbe(ss, id)
  {
  }
}

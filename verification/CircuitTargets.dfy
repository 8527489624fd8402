/** Which keys a deployment's permit names and which one a failure counts against
    (urouter-gateway/src/circuit.rs). The digest of an id is taken to be injective. */
module CircuitTargets {
  import opened Results
  import opened Circuits
  import opened CircuitRuns

  datatype Scope = DeploymentScope | CredentialScope | ProviderScope

  datatype Target = Target(scope: Scope, id: string)

  datatype Deployment = Deployment(id: string, model: string, provider: Option<string>, credential: Option<string>)

  datatype FailureKind =
    | Transport | Timeout | RateLimited | ServerError
    | ProviderUnavailable | Unauthorized | NotFound | BadRequest

  /** The text before the first '/', or all of it. */
  function BeforeSlash(s: string): (r: string)
    ensures '/' !in r && r <= s && (r == s || s[|r|] == '/')
  {
    if s == "" || s[0] == '/' then ""
    else
      var rest := BeforeSlash(s[1..]);
      assert [s[0]] + rest <= s;
      [s[0]] + rest
  }

  function ProviderOf(d: Deployment): string {
    if d.provider.Some? then d.provider.value else BeforeSlash(d.model)
  }

  function CredentialOf(d: Deployment): string {
    if d.credential.Some? then d.credential.value else ProviderOf(d)
  }

  function TargetsOf(d: Deployment): seq<Target> {
    [Target(DeploymentScope, d.id), Target(CredentialScope, CredentialOf(d)), Target(ProviderScope, ProviderOf(d))]
  }

  function FailureScope(kind: FailureKind): Scope {
    match kind
    case Unauthorized => CredentialScope
    case RateLimited => CredentialScope
    case ProviderUnavailable => ProviderScope
    case _ => DeploymentScope
  }

  function PositionOf(targets: seq<Target>, scope: Scope, i: nat): Option<nat>
    requires i <= |targets|
    decreases |targets| - i
  {
    if i == |targets| then None
    else if targets[i].scope == scope then Some(i)
    else PositionOf(targets, scope, i + 1)
  }

  /** What finish passes to its script; None stands for success. */
  function ReportOf(targets: seq<Target>, failure: Option<FailureKind>, tierSize: nat): Report {
    match failure
    case None => Report(0, false, tierSize)
    case Some(kind) =>
      var position := PositionOf(targets, FailureScope(kind), 0);
      Report(if position.Some? then position.value + 1 else 1, kind == RateLimited || kind == Unauthorized, tierSize)
  }

  /** The part of a deployment that a kind of failure speaks about. */
  function BlamedId(d: Deployment, kind: FailureKind): string {
    match FailureScope(kind)
    case DeploymentScope => d.id
    case CredentialScope => CredentialOf(d)
    case ProviderScope => ProviderOf(d)
  }

  lemma TargetsAreDistinct(d: Deployment)
    ensures Distinct(TargetsOf(d))
  {
  }

  lemma FailureIndexOf(d: Deployment, kind: FailureKind, tierSize: nat)
    ensures ReportOf(TargetsOf(d), Some(kind), tierSize).failureIndex
            == match FailureScope(kind) case DeploymentScope => 1 case CredentialScope => 2 case ProviderScope => 3
  {
    var targets := TargetsOf(d);
    assert PositionOf(targets, FailureScope(kind), 3) == None;
    assert targets[0].scope == DeploymentScope && targets[1].scope == CredentialScope && targets[2].scope == ProviderScope;
    assert FailureScope(kind) == ProviderScope ==> PositionOf(targets, FailureScope(kind), 2) == Some(2);
    assert FailureScope(kind) != DeploymentScope ==>
             PositionOf(targets, FailureScope(kind), 1) == (if FailureScope(kind) == CredentialScope then Some(1) else Some(2));
  }

  lemma OnePrefix(s: string, p: string, q: string)
    requires p <= s && '/' !in p && (p == s || s[|p|] == '/')
    requires q <= s && '/' !in q && (q == s || s[|q|] == '/')
    ensures p == q
  {
    assert forall i :: 0 <= i < |p| ==> p[i] == s[i] != '/';
    assert forall i :: 0 <= i < |q| ==> q[i] == s[i] != '/';
    assert p == s[..|p|] && q == s[..|q|];
  }

  /** Which of a deployment's three ids each kind of failure speaks about, and what
      is reported: its position, whether it opens the circuit at once, and the
      tier's size. A success is position 0. */
  lemma WhatIsReported(d: Deployment, provider: string, credential: string, tierSize: nat)
    requires if d.provider.Some? then provider == d.provider.value
             else '/' !in provider && provider <= d.model && (provider == d.model || d.model[|provider|] == '/')
    requires credential == if d.credential.Some? then d.credential.value else provider
    ensures TargetsOf(d) == [Target(DeploymentScope, d.id), Target(CredentialScope, credential), Target(ProviderScope, provider)]
    ensures ReportOf(TargetsOf(d), None, tierSize) == Report(0, false, tierSize)
    ensures forall kind: FailureKind :: ReportOf(TargetsOf(d), Some(kind), tierSize) ==
              match kind
              case RateLimited => Report(2, true, tierSize)
              case Unauthorized => Report(2, true, tierSize)
              case ProviderUnavailable => Report(3, false, tierSize)
              case _ => Report(1, false, tierSize)
    ensures forall kind: FailureKind :: BlamedId(d, kind) ==
              match kind
              case RateLimited => credential
              case Unauthorized => credential
              case ProviderUnavailable => provider
              case _ => d.id
  {
    if d.provider.None? {
      OnePrefix(d.model, BeforeSlash(d.model), provider);
    }
    forall kind: FailureKind
      ensures ReportOf(TargetsOf(d), Some(kind), tierSize).failureIndex
              == match FailureScope(kind) case DeploymentScope => 1 case CredentialScope => 2 case ProviderScope => 3
    {
      FailureIndexOf(d, kind, tierSize);
    }
  }

  /** A failure of d counts against a key of e exactly when both share the id that the
      kind of failure blames. */
  lemma FailureReachesSharedScope(d: Deployment, e: Deployment, kind: FailureKind, tierSize: nat, token: nat, now: nat)
    ensures var op := Op.Finish(TargetsOf(d), token, ReportOf(TargetsOf(d), Some(kind), tierSize), now);
            (exists k :: k in TargetsOf(e) && CountsAgainst(op, k)) <==> BlamedId(d, kind) == BlamedId(e, kind)
  {
    FailureIndexOf(d, kind, tierSize);
    var op := Op.Finish(TargetsOf(d), token, ReportOf(TargetsOf(d), Some(kind), tierSize), now);
    var blamed := Target(FailureScope(kind), BlamedId(d, kind));
    assert CountsAgainst(op, blamed);
    assert blamed in TargetsOf(e) <==> BlamedId(d, kind) == BlamedId(e, kind);
    assert forall k :: CountsAgainst(op, k) ==> k == blamed;
  }

  /** After a failure has tripped its key, every deployment that shares the blamed id is
      refused for a cooldown, unless a success is reported on that key meanwhile. */
  lemma SharedScopeIsRefused(ops: seq<Op<Target, nat>>, i: nat, j: nat, d: Deployment, e: Deployment, kind: FailureKind,
                             tierSize: nat, p: Policy)
    requires Orderly(ops) && i < j < |ops| && ops[i].Finish? && ops[j].Acquire?
    requires ops[i].keys == TargetsOf(d) && ops[i].report == ReportOf(TargetsOf(d), Some(kind), tierSize)
    requires ops[j].keys == TargetsOf(e) && BlamedId(d, kind) == BlamedId(e, kind)
    requires (kind == RateLimited || kind == Unauthorized) && tierSize > 1 && ops[j].now < ops[i].now + p.cooldown
    requires forall m :: i < m < j ==> !CountsFor(ops[m], Target(FailureScope(kind), BlamedId(d, kind)))
    ensures !Admits(After(ops, j, p), ops[j].keys, ops[j].now)
  {
    hide Admits, After, CountsFor, Orderly, Trips;
    FailureIndexOf(d, kind, tierSize);
    var blamed := Target(FailureScope(kind), BlamedId(d, kind));
    assert blamed == TargetsOf(d)[1];
    ForcedFailureTrips(ops, i, blamed, p);
    CooldownIsKept(ops, i, j, blamed, p);
  }

  lemma ForcedFailureTrips<K, T>(ops: seq<Op<K, T>>, i: nat, k: K, p: Policy)
    requires i < |ops| && CountsAgainst(ops[i], k) && ops[i].report.forceOpen && ops[i].report.tierSize > 1
    ensures Trips(ops, i, k, p)
  {
  }

  /** A failure leaves the opening time of every key it is not counted against. */
  lemma FailureSparesOtherKeys<K, T>(cells: Cells<K, T>, op: Op<K, T>, p: Policy, k: K)
    requires op.Finish? && Distinct(op.keys) && op.report.failureIndex > 0 && !CountsAgainst(op, k)
    ensures At(Step(cells, op, p), k, op.now).openUntil == At(cells, k, op.now).openUntil
  {
    hide FinishAll;
    if k in op.keys {
      var i :| 0 <= i < |op.keys| && op.keys[i] == k;
      FinishAllAt(cells, op.keys, op.token, op.report, op.now, p, i);
    } else {
      FinishAllElsewhere(cells, op.keys, op.token, op.report, op.now, p, k);
    }
  }
}

/** The reference state of the tenant guard (urouter-gateway/src/quota.rs): every
    grant and every charge ever made, nothing pruned. Both backends refine it. */
module TenantQuota {
  import opened Results
  import opened Sums

  const REQUEST_WINDOW_MS: nat := 60_000

  type Token = nat

  /** A limit of zero switches its check off. */
  datatype Limits = Limits(inFlight: nat, requests: nat, tokens: nat)

  datatype Rejection = InFlight | RequestsPerMinute | TokensPerMinute

  /** No token when every check is off. */
  datatype Permit<T> = Permit(tenant: T, token: Option<Token>, countedInFlight: bool)

  datatype Reservation<T> = Granted(permit: Permit<T>) | Rejected(reason: Rejection)

  datatype Grant<T> = Grant(at: nat, tenant: T, token: Token)

  datatype Key<T> = Key(tenant: T, token: Token)

  datatype Entry = Entry(expires: nat, amount: nat)

  datatype Guard<T> = Guard(permits: map<T, set<Token>>, grants: seq<Grant<T>>, charges: map<Key<T>, Entry>)

  /** A stored key and the time it is dropped. */
  datatype Stored<V> = Stored(value: V, deadline: nat)

  function Read<T, V>(store: map<T, Stored<V>>, t: T, now: nat, absent: V): V {
    if t in store && now <= store[t].deadline then store[t].value else absent
  }

  function HeldBy<T>(permits: map<T, set<Token>>, t: T): set<Token> {
    if t in permits then permits[t] else {}
  }

  function Held<T>(permits: map<T, set<Token>>, t: T): nat {
    if t in permits then |permits[t]| else 0
  }

  /** The grants of a tenant that lie within the last minute. */
  ghost function LiveRequests<T>(grants: seq<Grant<T>>, t: T, now: nat): nat {
    if grants == [] then 0
    else
      var last := grants[|grants| - 1];
      LiveRequests(grants[..|grants| - 1], t, now)
      + (if last.tenant == t && last.at + REQUEST_WINDOW_MS > now then 1 else 0)
  }

  ghost function LiveAmounts<T>(charges: map<Key<T>, Entry>, t: T, now: nat): map<Key<T>, nat> {
    map k | k in charges && k.tenant == t && charges[k].expires > now :: charges[k].amount
  }

  ghost function LiveTokens<T(!new)>(charges: map<Key<T>, Entry>, t: T, now: nat): nat {
    Sum(LiveAmounts(charges, t, now))
  }

  /** The three checks, in the source's order. */
  function Refused(held: nat, requests: nat, tokens: nat, estimated: nat, limits: Limits): Option<Rejection> {
    if limits.inFlight > 0 && held >= limits.inFlight then Some(InFlight)
    else if limits.requests > 0 && requests >= limits.requests then Some(RequestsPerMinute)
    else if limits.tokens > 0 && tokens + estimated > limits.tokens then Some(TokensPerMinute)
    else None
  }

  ghost function Refusal<T(!new)>(g: Guard<T>, t: T, estimated: nat, now: nat, limits: Limits): Option<Rejection> {
    Refused(Held(g.permits, t), LiveRequests(g.grants, t, now), LiveTokens(g.charges, t, now), estimated, limits)
  }

  predicate Off(limits: Limits) {
    limits.inFlight == 0 && limits.requests == 0 && limits.tokens == 0
  }

  function HoldPermit<T>(permits: map<T, set<Token>>, t: T, token: Token): map<T, set<Token>> {
    permits[t := (if t in permits then permits[t] else {}) + {token}]
  }

  ghost function Charged<T>(g: Guard<T>, t: T, estimated: nat, now: nat, token: Token, limits: Limits): Guard<T> {
    Guard(if limits.inFlight > 0 then HoldPermit(g.permits, t, token) else g.permits,
          if limits.requests > 0 then g.grants + [Grant(now, t, token)] else g.grants,
          if limits.tokens > 0 then g.charges[Key(t, token) := Entry(now + REQUEST_WINDOW_MS, estimated)] else g.charges)
  }

  /** The answer to a reserve call and the state after it. */
  ghost function ReserveAnswer<T(!new)>(g: Guard<T>, t: T, estimated: nat, now: nat, token: Token, limits: Limits): Reservation<T> {
    if Off(limits) then Granted(Permit(t, None, false))
    else
      var refusal := Refusal(g, t, estimated, now, limits);
      if refusal.Some? then Rejected(refusal.value) else Granted(Permit(t, Some(token), limits.inFlight > 0))
  }

  ghost function Reserved<T(!new)>(g: Guard<T>, t: T, estimated: nat, now: nat, token: Token, limits: Limits): Guard<T> {
    if Off(limits) || Refusal(g, t, estimated, now, limits).Some? then g else Charged(g, t, estimated, now, token, limits)
  }

  /** A live charge is corrected in place; one that has lapsed enters the window anew. */
  ghost function SettledCharges<T>(charges: map<Key<T>, Entry>, k: Key<T>, actual: nat, now: nat): map<Key<T>, Entry> {
    charges[k := Entry(if k in charges && charges[k].expires > now then charges[k].expires else now + REQUEST_WINDOW_MS, actual)]
  }

  ghost function Settled<T>(g: Guard<T>, permit: Permit<T>, actual: nat, now: nat, limits: Limits): Guard<T> {
    if limits.tokens == 0 || permit.token.None? then g
    else g.(charges := SettledCharges(g.charges, Key(permit.tenant, permit.token.value), actual, now))
  }

  function DropPermit<T>(permits: map<T, set<Token>>, t: T, token: Token): map<T, set<Token>> {
    if t !in permits then permits
    else
      var rest := permits[t] - {token};
      if rest == {} then permits - {t} else permits[t := rest]
  }

  ghost function Released<T>(g: Guard<T>, permit: Permit<T>): Guard<T> {
    if !permit.countedInFlight || permit.token.None? then g
    else g.(permits := DropPermit(g.permits, permit.tenant, permit.token.value))
  }

  /** No call has used the token yet. */
  ghost predicate Unused<T>(g: Guard<T>, token: Token) {
    (forall k :: k in g.charges ==> k.token != token)
    && (forall i :: 0 <= i < |g.grants| ==> g.grants[i].token != token)
    && (forall t :: t in g.permits ==> token !in g.permits[t])
  }
}

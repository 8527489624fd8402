/** Weighted selection among deployments (urouter-contracts/src/capacity.rs): the
    lowest available order, spread over the tickets in proportion to the weights. */
module DeploymentSelection {
  import opened Results
  import opened Arithmetic
  import opened Sorting
  import opened StringOrder

  datatype Candidate = Candidate(id: string, order: nat, weight: nat, available: bool, reasons: seq<string>)

  datatype Disposition = Selected | RunnerUp | Excluded

  datatype Evaluation = Evaluation(deployment: string, disposition: Disposition, reasons: seq<string>)

  datatype Selection = Selection(selected: string, runnersUp: seq<string>, evaluations: seq<Evaluation>)

  datatype SelectionError = Empty | Exhausted | ZeroWeight

  /** Sums of weights are checked against 64 bits. */
  const U64_LIMIT: nat := 0x1_0000_0000_0000_0000

  /** The lowest order of an available candidate. */
  function MinimumOrder(cs: seq<Candidate>): (r: Option<nat>)
    ensures r.None? <==> forall i :: 0 <= i < |cs| ==> !cs[i].available
    ensures r.Some? ==> (exists i :: 0 <= i < |cs| && cs[i].available && cs[i].order == r.value)
                        && forall i :: 0 <= i < |cs| && cs[i].available ==> r.value <= cs[i].order
  {
    if cs == [] then None
    else
      var rest := MinimumOrder(cs[1..]);
      assert forall i :: 0 < i < |cs| ==> cs[i] == cs[1..][i - 1];
      if !cs[0].available then rest
      else if rest.Some? && rest.value <= cs[0].order then rest
      else Some(cs[0].order)
  }

  predicate InGroup(c: Candidate, order: nat) {
    c.available && c.order == order
  }

  function Group(cs: seq<Candidate>, order: nat): seq<Candidate> {
    if cs == [] then []
    else (if InGroup(cs[0], order) then [cs[0]] else []) + Group(cs[1..], order)
  }

  const ById: Order<Candidate> := (x: Candidate, y: Candidate) => AtMost(x.id, y.id)

  function Eligible(cs: seq<Candidate>, order: nat): seq<Candidate> {
    Sort(ById, Group(cs, order))
  }

  function TotalWeight(group: seq<Candidate>): nat {
    if group == [] then 0 else group[0].weight + TotalWeight(group[1..])
  }

  /** The candidate whose share of the line of weights a position falls into. */
  function Pick(group: seq<Candidate>, position: nat): (c: Candidate)
    requires position < TotalWeight(group)
    ensures c in group && c.weight > 0
  {
    if position < group[0].weight then group[0] else Pick(group[1..], position - group[0].weight)
  }

  function Ids(group: seq<Candidate>, except: string): seq<string> {
    if group == [] then []
    else (if group[0].id != except then [group[0].id] else []) + Ids(group[1..], except)
  }

  function Evaluate(c: Candidate, order: nat, selected: string): Evaluation {
    if !c.available then Evaluation(c.id, Excluded, if c.reasons == [] then ["unavailable"] else c.reasons)
    else if c.order != order then Evaluation(c.id, Excluded, ["lower_priority_order"])
    else if c.id == selected then Evaluation(c.id, Selected, [])
    else Evaluation(c.id, RunnerUp, [])
  }

  /** The group can be selected from: its total is positive and fits in 64 bits. */
  predicate Selectable(cs: seq<Candidate>) {
    MinimumOrder(cs).Some? && 0 < TotalWeight(Eligible(cs, MinimumOrder(cs).value)) < U64_LIMIT
  }

  function Chosen(cs: seq<Candidate>, ticket: nat): Candidate
    requires Selectable(cs)
  {
    var group := Eligible(cs, MinimumOrder(cs).value);
    Pick(group, ticket % TotalWeight(group))
  }

  /** A selection names the ticket's choice, the rest of its group in id order, and for
      every candidate, in the listed order, why it was chosen or not. */
  ghost predicate Selects(s: Selection, cs: seq<Candidate>, ticket: nat)
    requires Selectable(cs)
  {
    var order := MinimumOrder(cs).value;
    s.selected == Chosen(cs, ticket).id && s.runnersUp == Ids(Eligible(cs, order), s.selected)
    && |s.evaluations| == |cs| && forall i :: 0 <= i < |cs| ==> Explains(s.evaluations[i], cs[i], order, s.selected)
  }

  /** Why a candidate was chosen or not. */
  predicate Explains(e: Evaluation, c: Candidate, order: nat, selected: string) {
    && e.deployment == c.id
    && (e.disposition == Selected <==> c.available && c.order == order && c.id == selected)
    && (e.disposition == RunnerUp <==> c.available && c.order == order && c.id != selected)
    && (c.available && c.order == order ==> e.reasons == [])
    && (c.available && c.order != order ==> e.reasons == ["lower_priority_order"])
    && (!c.available && c.reasons != [] ==> e.reasons == c.reasons)
    && (!c.available && c.reasons == [] ==> e.reasons == ["unavailable"])
  }

  method SelectWeighted(candidates: seq<Candidate>, ticket: nat) returns (r: Result<Selection, SelectionError>)
    ensures r == Err(Empty) <==> candidates == []
    ensures r == Err(Exhausted) <==> candidates != [] && forall i :: 0 <= i < |candidates| ==> !candidates[i].available
    ensures r.Ok? <==> Selectable(candidates)
    ensures r.Ok? ==> Selects(r.value, candidates, ticket)
  {
    if candidates == [] {
      return Err(Empty);
    }
    var minimum := MinimumOrder(candidates);
    if minimum.None? {
      return Err(Exhausted);
    }
    var eligible := Eligible(candidates, minimum.value);
    var totalWeight := TotalWeight(eligible);
    if totalWeight == 0 || totalWeight >= U64_LIMIT {
      return Err(ZeroWeight);
    }
    var selected := Scan(eligible, ticket % totalWeight);
    var evaluations := seq(|candidates|, i requires 0 <= i < |candidates| => Evaluate(candidates[i], minimum.value, selected.id));
    r := Ok(Selection(selected.id, Ids(eligible, selected.id), evaluations));
  }

  /** Walks the sorted group, taking each weight off the position. */
  method Scan(group: seq<Candidate>, start: nat) returns (c: Candidate)
    requires start < TotalWeight(group)
    ensures c == Pick(group, start)
  {
    var position: nat := start;
    var i := 0;
    assert group[0..] == group;
    while position >= group[i].weight
      invariant i < |group| && position < TotalWeight(group[i..])
      invariant Pick(group[i..], position) == Pick(group, start)
      decreases |group| - i
    {
      position := position - group[i].weight;
      assert group[i..][1..] == group[i + 1..];
      i := i + 1;
    }
    c := group[i];
  }

  // Fairness.

  ghost predicate UniqueIds(cs: seq<Candidate>) {
    forall i, j :: 0 <= i < j < |cs| ==> cs[i].id != cs[j].id
  }

  /** How many of n consecutive positions, or tickets, fall to an id. */
  ghost function PickCount(group: seq<Candidate>, n: nat, id: string): nat
    requires n <= TotalWeight(group)
  {
    if n == 0 then 0 else PickCount(group, n - 1, id) + (if Pick(group, n - 1).id == id then 1 else 0)
  }

  ghost function WeightOf(group: seq<Candidate>, id: string): nat {
    if group == [] then 0
    else (if group[0].id == id then group[0].weight else 0) + WeightOf(group[1..], id)
  }

  lemma {:induction false} PickCountInHead(group: seq<Candidate>, n: nat, id: string)
    requires group != [] && n <= TotalWeight(group) && n <= group[0].weight
    ensures PickCount(group, n, id) == if group[0].id == id then n else 0
  {
    if n > 0 {
      PickCountInHead(group, n - 1, id);
    }
  }

  lemma {:induction false} PickCountInTail(group: seq<Candidate>, n: nat, id: string)
    requires group != [] && group[0].weight + n <= TotalWeight(group)
    ensures PickCount(group, group[0].weight + n, id) == PickCount(group, group[0].weight, id) + PickCount(group[1..], n, id)
  {
    if n > 0 {
      PickCountInTail(group, n - 1, id);
    }
  }

  /** Over the whole line every id gets its weight. */
  lemma {:induction false} LineIsFair(group: seq<Candidate>, id: string)
    ensures PickCount(group, TotalWeight(group), id) == WeightOf(group, id)
  {
    if group != [] {
      LineIsFair(group[1..], id);
      PickCountInTail(group, TotalWeight(group[1..]), id);
      PickCountInHead(group, group[0].weight, id);
    }
  }

  ghost function TicketCount(cs: seq<Candidate>, start: nat, n: nat, id: string): nat
    requires Selectable(cs)
    decreases n
  {
    if n == 0 then 0 else TicketCount(cs, start, n - 1, id) + (if Chosen(cs, start + n - 1).id == id then 1 else 0)
  }

  lemma {:induction false} FirstTicketsArePositions(cs: seq<Candidate>, n: nat, id: string)
    requires Selectable(cs)
    requires var group := Eligible(cs, MinimumOrder(cs).value); n <= TotalWeight(group)
    ensures TicketCount(cs, 0, n, id) == PickCount(Eligible(cs, MinimumOrder(cs).value), n, id)
  {
    if n > 0 {
      FirstTicketsArePositions(cs, n - 1, id);
      var w := TotalWeight(Eligible(cs, MinimumOrder(cs).value));
      SmallMod(n - 1, w);
    }
  }

  lemma SmallMod(n: nat, w: nat)
    requires n < w
    ensures n % w == n
  {
  }

  lemma {:induction false} DropFirstTicket(cs: seq<Candidate>, start: nat, n: nat, id: string)
    requires Selectable(cs)
    ensures TicketCount(cs, start, n + 1, id) == (if Chosen(cs, start).id == id then 1 else 0) + TicketCount(cs, start + 1, n, id)
    decreases n
  {
    hide Chosen;
    if n > 0 {
      DropFirstTicket(cs, start, n - 1, id);
    }
  }

  /** Exact fairness: over any W consecutive tickets, W the total eligible weight, each
      id is chosen exactly as often as it weighs. */
  lemma {:induction false} TicketsAreFair(cs: seq<Candidate>, start: nat, id: string)
    requires Selectable(cs)
    ensures var group := Eligible(cs, MinimumOrder(cs).value);
            TicketCount(cs, start, TotalWeight(group), id) == WeightOf(group, id)
  {
    hide Chosen;
    var group := Eligible(cs, MinimumOrder(cs).value);
    var w := TotalWeight(group);
    if start == 0 {
      FirstTicketsArePositions(cs, w, id);
      LineIsFair(group, id);
    } else {
      TicketsAreFair(cs, start - 1, id);
      DropFirstTicket(cs, start - 1, w, id);
      SameTicket(cs, start - 1);
    }
  }

  lemma SameTicket(cs: seq<Candidate>, s: nat)
    requires Selectable(cs)
    ensures Chosen(cs, s + TotalWeight(Eligible(cs, MinimumOrder(cs).value))) == Chosen(cs, s)
  {
    AddModulus(s, TotalWeight(Eligible(cs, MinimumOrder(cs).value)));
  }

  // The group.

  lemma {:induction false} GroupElements(cs: seq<Candidate>, order: nat)
    ensures forall c :: c in Group(cs, order) <==> c in cs && InGroup(c, order)
  {
    if cs != [] {
      GroupElements(cs[1..], order);
      assert forall c :: c in cs <==> c == cs[0] || c in cs[1..];
    }
  }

  lemma {:induction false} GroupIsSeparated(cs: seq<Candidate>, order: nat)
    requires UniqueIds(cs)
    ensures UniqueIds(Group(cs, order))
  {
    if cs != [] {
      assert UniqueIds(cs[1..]);
      GroupIsSeparated(cs[1..], order);
      GroupElements(cs[1..], order);
      var rest := Group(cs[1..], order);
      forall i | 0 <= i < |rest|
        ensures rest[i].id != cs[0].id
      {
        assert rest[i] in rest;
        assert rest[i] in cs[1..];
      }
    }
  }

  lemma UniqueIsSeparated(cs: seq<Candidate>)
    requires UniqueIds(cs)
    ensures Separated(ById, cs) && IsOrder(ById)
  {
    ByKeyIsOrder((c: Candidate) => c.id, ById);
    forall i, j | 0 <= i < j < |cs|
      ensures !(ById(cs[i], cs[j]) && ById(cs[j], cs[i]))
    {
      if ById(cs[i], cs[j]) && ById(cs[j], cs[i]) {
        AtMostIsAntisymmetric(cs[i].id, cs[j].id);
      }
    }
  }

  lemma EligibleElements(cs: seq<Candidate>, order: nat)
    ensures forall c :: c in Eligible(cs, order) <==> c in cs && InGroup(c, order)
  {
    GroupElements(cs, order);
    SortKeepsElements(ById, Group(cs, order));
  }

  lemma {:induction false} AbsentWeighsNothing(group: seq<Candidate>, id: string)
    requires forall c :: c in group ==> c.id != id
    ensures WeightOf(group, id) == 0
  {
    if group != [] {
      AbsentWeighsNothing(group[1..], id);
    }
  }

  lemma {:induction false} WeightOfMember(group: seq<Candidate>, c: Candidate)
    requires UniqueIds(group) && c in group
    ensures WeightOf(group, c.id) == c.weight
  {
    assert forall i :: 0 < i < |group| ==> group[i] == group[1..][i - 1];
    if group[0] == c {
      AbsentWeighsNothing(group[1..], c.id);
    } else {
      assert c in group[1..];
      WeightOfMember(group[1..], c);
    }
  }

  lemma EligibleIsUnique(cs: seq<Candidate>, order: nat)
    requires UniqueIds(cs)
    ensures UniqueIds(Eligible(cs, order)) && StrictlySorted(ById, Eligible(cs, order))
  {
    GroupIsSeparated(cs, order);
    UniqueIsSeparated(Group(cs, order));
    SortSorts(ById, Group(cs, order));
    var sorted := Eligible(cs, order);
    forall i, j | 0 <= i < j < |sorted|
      ensures sorted[i].id != sorted[j].id
    {
      assert ById(sorted[i], sorted[j]) && !ById(sorted[j], sorted[i]);
    }
  }

  /** With unique ids: an available candidate of the lowest order is selected exactly
      its weight's number of times, and any other never. */
  lemma EachGetsItsWeight(cs: seq<Candidate>, start: nat, c: Candidate)
    requires Selectable(cs) && UniqueIds(cs) && c in cs
    ensures var order := MinimumOrder(cs).value;
            TicketCount(cs, start, TotalWeight(Eligible(cs, order)), c.id) == if InGroup(c, order) then c.weight else 0
  {
    var order := MinimumOrder(cs).value;
    TicketsAreFair(cs, start, c.id);
    EligibleElements(cs, order);
    EligibleIsUnique(cs, order);
    if InGroup(c, order) {
      WeightOfMember(Eligible(cs, order), c);
    } else {
      forall e | e in Eligible(cs, order)
        ensures e.id != c.id
      {
        SameId(cs, e, c);
      }
      AbsentWeighsNothing(Eligible(cs, order), c.id);
    }
  }

  lemma SameId(cs: seq<Candidate>, a: Candidate, b: Candidate)
    requires UniqueIds(cs) && a in cs && b in cs
    ensures a.id == b.id ==> a == b
  {
  }

  /** The choice does not depend on the order in which the candidates are listed. */
  lemma ListingOrderIsIrrelevant(cs: seq<Candidate>, ds: seq<Candidate>, ticket: nat)
    requires UniqueIds(cs) && UniqueIds(ds) && forall c :: c in cs <==> c in ds
    ensures MinimumOrder(cs) == MinimumOrder(ds)
    ensures MinimumOrder(cs).Some? ==> Eligible(cs, MinimumOrder(cs).value) == Eligible(ds, MinimumOrder(cs).value)
    ensures Selectable(cs) <==> Selectable(ds)
    ensures Selectable(cs) ==> Chosen(cs, ticket) == Chosen(ds, ticket)
  {
    hide Sort;
    SameMinimum(cs, ds);
    if MinimumOrder(cs).Some? {
      var order := MinimumOrder(cs).value;
      GroupElements(cs, order);
      GroupElements(ds, order);
      GroupIsSeparated(cs, order);
      GroupIsSeparated(ds, order);
      UniqueIsSeparated(Group(cs, order));
      UniqueIsSeparated(Group(ds, order));
      SortIgnoresOrder(ById, Group(cs, order), Group(ds, order));
    }
  }

  lemma NoLessMinimum(cs: seq<Candidate>, ds: seq<Candidate>)
    requires forall c :: c in cs ==> c in ds
    ensures MinimumOrder(cs).Some? ==> MinimumOrder(ds).Some? && MinimumOrder(ds).value <= MinimumOrder(cs).value
  {
    hide MinimumOrder;
    if MinimumOrder(cs).Some? {
      var i :| 0 <= i < |cs| && cs[i].available && cs[i].order == MinimumOrder(cs).value;
      assert cs[i] in ds;
      var j :| 0 <= j < |ds| && ds[j] == cs[i];
    }
  }

  lemma SameMinimum(cs: seq<Candidate>, ds: seq<Candidate>)
    requires forall c :: c in cs <==> c in ds
    ensures MinimumOrder(cs) == MinimumOrder(ds)
  {
    hide MinimumOrder;
    NoLessMinimum(cs, ds);
    NoLessMinimum(ds, cs);
  }

  // Which candidate a ticket falls to.

  /** The weights of the available candidates of an order. */
  ghost function GroupWeight(cs: seq<Candidate>, order: nat): nat {
    if cs == [] then 0
    else (if cs[0].available && cs[0].order == order then cs[0].weight else 0) + GroupWeight(cs[1..], order)
  }

  /** The same for those whose ids come before one. */
  ghost function WeightBelow(cs: seq<Candidate>, order: nat, id: string): nat {
    if cs == [] then 0
    else (if cs[0].available && cs[0].order == order && Less(cs[0].id, id) then cs[0].weight else 0) + WeightBelow(cs[1..], order, id)
  }

  ghost function SumBelow(group: seq<Candidate>, id: string): nat {
    if group == [] then 0 else (if Less(group[0].id, id) then group[0].weight else 0) + SumBelow(group[1..], id)
  }

  lemma {:induction false} InsertKeepsWeights(le: Order<Candidate>, c: Candidate, group: seq<Candidate>, id: string)
    ensures TotalWeight(Insert(le, c, group)) == c.weight + TotalWeight(group)
    ensures SumBelow(Insert(le, c, group), id) == (if Less(c.id, id) then c.weight else 0) + SumBelow(group, id)
  {
    hide Less;
    if group == [] || le(c, group[0]) {
      assert ([c] + group)[1..] == group;
    } else {
      InsertKeepsWeights(le, c, group[1..], id);
      assert ([group[0]] + Insert(le, c, group[1..]))[1..] == Insert(le, c, group[1..]);
    }
  }

  lemma {:induction false} SortKeepsWeights(le: Order<Candidate>, group: seq<Candidate>, id: string)
    ensures TotalWeight(Sort(le, group)) == TotalWeight(group) && SumBelow(Sort(le, group), id) == SumBelow(group, id)
  {
    if group != [] {
      SortKeepsWeights(le, group[1..], id);
      InsertKeepsWeights(le, group[0], Sort(le, group[1..]), id);
    }
  }

  lemma {:induction false} GroupHasWeights(cs: seq<Candidate>, order: nat, id: string)
    ensures TotalWeight(Group(cs, order)) == GroupWeight(cs, order) && SumBelow(Group(cs, order), id) == WeightBelow(cs, order, id)
  {
    hide Less;
    if cs != [] {
      GroupHasWeights(cs[1..], order, id);
      assert ([cs[0]] + Group(cs[1..], order))[1..] == Group(cs[1..], order);
      assert [] + Group(cs[1..], order) == Group(cs[1..], order);
    }
  }

  lemma {:induction false} NoneBelow(group: seq<Candidate>, id: string)
    requires forall c :: c in group ==> !Less(c.id, id)
    ensures SumBelow(group, id) == 0
  {
    hide Less;
    if group != [] {
      NoneBelow(group[1..], id);
    }
  }

  lemma SortedAbove(group: seq<Candidate>, c: Candidate)
    requires StrictlySorted(ById, group) && group != [] && c in group[1..]
    ensures Less(group[0].id, c.id)
  {
    var i :| 0 <= i < |group[1..]| && group[1..][i] == c;
    assert group[i + 1] == c;
    assert ById(group[0], c) && !ById(c, group[0]);
  }

  lemma {:induction false} PickHolds(group: seq<Candidate>, position: nat)
    requires StrictlySorted(ById, group) && position < TotalWeight(group)
    ensures var c := Pick(group, position); SumBelow(group, c.id) <= position < SumBelow(group, c.id) + c.weight
  {
    hide Less;
    if position < group[0].weight {
      forall c | c in group
        ensures !Less(c.id, group[0].id)
      {
        NotBelowFirst(group, c);
      }
      NoneBelow(group, group[0].id);
    } else {
      PickHolds(group[1..], position - group[0].weight);
      SortedAbove(group, Pick(group[1..], position - group[0].weight));
    }
  }

  lemma NotBelowFirst(group: seq<Candidate>, c: Candidate)
    requires StrictlySorted(ById, group) && group != [] && c in group
    ensures !Less(c.id, group[0].id)
  {
    var i :| 0 <= i < |group| && group[i] == c;
    if i > 0 {
      assert !ById(c, group[0]);
    }
  }

  /** With the eligible candidates laid out by id, each as long as its weight, the ticket,
      taken round the whole line, falls into the chosen one. */
  lemma ChosenHoldsTicket(cs: seq<Candidate>, ticket: nat)
    requires Selectable(cs) && UniqueIds(cs)
    ensures var c, order := Chosen(cs, ticket), MinimumOrder(cs).value;
            c in cs && c.available && c.order == order
            && GroupWeight(cs, order) > 0
            && WeightBelow(cs, order, c.id) <= ticket % GroupWeight(cs, order) < WeightBelow(cs, order, c.id) + c.weight
  {
    hide Less, MinimumOrder, Group, Sort, UniqueIds;
    var order, c := MinimumOrder(cs).value, Chosen(cs, ticket);
    EligibleIsUnique(cs, order);
    EligibleElements(cs, order);
    SortKeepsWeights(ById, Group(cs, order), c.id);
    GroupHasWeights(cs, order, c.id);
    PickHolds(Eligible(cs, order), ticket % TotalWeight(Eligible(cs, order)));
  }

  lemma {:induction false} IdsAre(group: seq<Candidate>, except: string, id: string)
    ensures id in Ids(group, except) <==> id != except && exists c :: c in group && c.id == id
  {
    if group != [] {
      IdsAre(group[1..], except, id);
      assert forall c :: c in group <==> c == group[0] || c in group[1..];
    }
  }

  lemma {:induction false} IdsAscend(group: seq<Candidate>, except: string, i: nat, j: nat)
    requires StrictlySorted(ById, group) && i < j < |Ids(group, except)|
    ensures Less(Ids(group, except)[i], Ids(group, except)[j])
  {
    hide Less;
    var rest := Ids(group[1..], except);
    if group[0].id == except {
      assert [] + rest == rest;
      IdsAscend(group[1..], except, i, j);
    } else if i > 0 {
      IdsAscend(group[1..], except, i - 1, j - 1);
    } else {
      var id := rest[j - 1];
      IdsAre(group[1..], except, id);
      var c :| c in group[1..] && c.id == id;
      SortedAbove(group, c);
    }
  }

  /** The runners-up: the other available candidates of the lowest order, by id. */
  lemma RunnersUpAre(cs: seq<Candidate>, selected: string)
    requires MinimumOrder(cs).Some? && UniqueIds(cs)
    ensures var order := MinimumOrder(cs).value;
            var ids := Ids(Eligible(cs, order), selected);
            (forall id :: id in ids <==> id != selected && exists c :: c in cs && c.available && c.order == order && c.id == id)
            && forall i, j :: 0 <= i < j < |ids| ==> Less(ids[i], ids[j])
  {
    hide Less, Ids, Eligible, MinimumOrder, UniqueIds;
    var order := MinimumOrder(cs).value;
    var ids := Ids(Eligible(cs, order), selected);
    EligibleIsUnique(cs, order);
    EligibleElements(cs, order);
    forall id
      ensures id in ids <==> id != selected && exists c :: c in cs && c.available && c.order == order && c.id == id
    {
      IdsAre(Eligible(cs, order), selected, id);
      if id in ids {
        var c :| c in Eligible(cs, order) && c.id == id;
        assert c in cs && c.available && c.order == order;
      }
      if c :| c in cs && c.available && c.order == order && c.id == id && id != selected {
        assert c in Eligible(cs, order);
      }
    }
    forall i, j | 0 <= i < j < |ids|
      ensures Less(ids[i], ids[j])
    {
      IdsAscend(Eligible(cs, order), selected, i, j);
    }
  }

  /** When there is a choice: something is available, and the weights of its lowest order
      add up to a positive number of 64 bits. */
  lemma WhenSelectable(cs: seq<Candidate>)
    ensures Selectable(cs) <==>
            MinimumOrder(cs).Some? && 0 < GroupWeight(cs, MinimumOrder(cs).value) <= 0xFFFF_FFFF_FFFF_FFFF
  {
    hide MinimumOrder, Group, Sort;
    if MinimumOrder(cs).Some? {
      var order := MinimumOrder(cs).value;
      SortKeepsWeights(ById, Group(cs, order), "");
      GroupHasWeights(cs, order, "");
    }
  }
}

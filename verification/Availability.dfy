/** The one judge of "can this be ordered?" (apps/availability/services.py).

    What the production service answers about materials is a parameter: for one
    kitchen and the lines it would prepare, one optional shortage per line. */
module Availability {
  import opened Wrappers
  import opened Moneys
  import opened Catalogue

  datatype Demand = Demand(item: Item, quantity: int, options: seq<Choice>, variant: Option<Variant>)

  datatype Produced = Produced(item: nat, quantity: int, options: seq<nat>)

  type Materials = (nat, seq<Produced>) -> seq<Option<nat>>

  ghost predicate AnswersEveryLine(materials: Materials) {
    forall kitchen: nat, lines: seq<Produced> :: |materials(kitchen, lines)| == |lines|
  }

  function Ids(options: seq<Choice>): seq<nat> {
    seq(|options|, i requires 0 <= i < |options| => options[i].id)
  }

  function AsProduced(d: Demand): Produced {
    Produced(d.item.id, d.quantity, Ids(d.options))
  }

  function CatalogueVerdict(d: Demand): Option<Unavailability> {
    ItemVerdict(d.item, d.options, d.quantity)
  }

  // ----------------------------------------------------- scattering by kitchen

  predicate Weighed(d: Demand, kitchen: nat) {
    CatalogueVerdict(d) == None && d.item.kitchen == kitchen
  }

  /** The ranks, among the first `n` demands, that one kitchen has to weigh. */
  function Ranks(demands: seq<Demand>, kitchen: nat, n: nat): (r: seq<nat>)
    requires n <= |demands|
    ensures forall p :: 0 <= p < |r| ==> r[p] < n && Weighed(demands[r[p]], kitchen)
    ensures forall p, q :: 0 <= p < q < |r| ==> r[p] < r[q]
  {
    if n == 0 then []
    else if Weighed(demands[n - 1], kitchen) then Ranks(demands, kitchen, n - 1) + [n - 1]
    else Ranks(demands, kitchen, n - 1)
  }

  function Batch(demands: seq<Demand>, ranks: seq<nat>): (r: seq<Produced>)
    requires forall p :: 0 <= p < |ranks| ==> ranks[p] < |demands|
    ensures |r| == |ranks|
  {
    seq(|ranks|, p requires 0 <= p < |ranks| => AsProduced(demands[ranks[p]]))
  }

  /** A weighed demand stands in its kitchen's batch behind the weighed demands of
      that kitchen that come before it, and nowhere else. */
  lemma {:induction false} RankStandsAtItsPlace(demands: seq<Demand>, i: nat, n: nat)
    requires i < n <= |demands| && CatalogueVerdict(demands[i]) == None
    ensures var kitchen := demands[i].item.kitchen;
            && |Ranks(demands, kitchen, i)| < |Ranks(demands, kitchen, n)|
            && Ranks(demands, kitchen, n)[|Ranks(demands, kitchen, i)|] == i
            && forall k, p | 0 <= p < |Ranks(demands, k, n)| && Ranks(demands, k, n)[p] == i ::
                 k == kitchen && p == |Ranks(demands, kitchen, i)|
  {
    if n > i + 1 {
      RankStandsAtItsPlace(demands, i, n - 1);
    }
  }

  /** The verdict of one line: the catalogue's refusal if any; otherwise what the
      kitchen's materials say of this line when the whole batch is prepared. */
  function LineVerdict(demands: seq<Demand>, materials: Materials, i: nat): Option<Unavailability>
    requires i < |demands|
  {
    var d := demands[i];
    if CatalogueVerdict(d) != None then CatalogueVerdict(d)
    else
      var answers := materials(d.item.kitchen, Batch(demands, Ranks(demands, d.item.kitchen, |demands|)));
      var place := |Ranks(demands, d.item.kitchen, i)|;
      if place < |answers| && answers[place].Some? then Some(Shortage(answers[place].value)) else None
  }

  ghost predicate Distinct(kitchens: seq<nat>) {
    forall a, b :: 0 <= a < b < |kitchens| ==> kitchens[a] != kitchens[b]
  }

  /** After `n` lines: one list per kitchen met, and nothing to weigh elsewhere. */
  ghost predicate Grouped(demands: seq<Demand>, n: nat, groups: map<nat, seq<nat>>)
    requires n <= |demands|
  {
    forall k :: if k in groups then groups[k] == Ranks(demands, k, n) else Ranks(demands, k, n) == []
  }

  function Put(groups: map<nat, seq<nat>>, kitchen: nat, rank: nat): map<nat, seq<nat>> {
    groups[kitchen := (if kitchen in groups then groups[kitchen] else []) + [rank]]
  }

  lemma PutKeepsGrouped(demands: seq<Demand>, n: nat, groups: map<nat, seq<nat>>)
    requires n < |demands| && Grouped(demands, n, groups) && CatalogueVerdict(demands[n]) == None
    ensures Grouped(demands, n + 1, Put(groups, demands[n].item.kitchen, n))
  {
  }

  /** A dictionary of lists, filled in the order of the lines. */
  method Scatter(demands: seq<Demand>) returns (verdicts: seq<Option<Unavailability>>, kitchens: seq<nat>, groups: map<nat, seq<nat>>)
    ensures |verdicts| == |demands| && forall i :: 0 <= i < |demands| ==> verdicts[i] == CatalogueVerdict(demands[i])
    ensures Grouped(demands, |demands|, groups) && Distinct(kitchens) && forall k :: k in groups <==> k in kitchens
  {
    verdicts, kitchens, groups := [], [], map[];
    for i := 0 to |demands|
      invariant |verdicts| == i && forall j :: 0 <= j < i ==> verdicts[j] == CatalogueVerdict(demands[j])
      invariant Grouped(demands, i, groups) && Distinct(kitchens) && forall k :: k in groups <==> k in kitchens
    {
      var verdict := CatalogueVerdict(demands[i]);
      verdicts := verdicts + [verdict];
      if verdict == None {
        PutKeepsGrouped(demands, i, groups);
        var k := demands[i].item.kitchen;
        if k !in groups {
          kitchens := kitchens + [k];
        }
        groups := Put(groups, k, i);
      }
    }
  }

  /** Writes one kitchen's answers back at the ranks they are about. */
  method Gather(demands: seq<Demand>, materials: Materials, kitchen: nat, ranks: seq<nat>, before: seq<Option<Unavailability>>)
    returns (verdicts: seq<Option<Unavailability>>)
    requires AnswersEveryLine(materials) && |before| == |demands| && ranks == Ranks(demands, kitchen, |demands|)
    requires forall i :: 0 <= i < |demands| && Weighed(demands[i], kitchen) ==> before[i] == None
    ensures |verdicts| == |demands|
    ensures forall i :: 0 <= i < |demands| ==>
              verdicts[i] == if Weighed(demands[i], kitchen) then LineVerdict(demands, materials, i) else before[i]
  {
    verdicts := before;
    var answers := materials(kitchen, Batch(demands, ranks));
    for p := 0 to |ranks|
      invariant |verdicts| == |demands|
      invariant forall q :: 0 <= q < p ==>
                  verdicts[ranks[q]] == if answers[q].Some? then Some(Shortage(answers[q].value)) else None
      invariant forall i :: 0 <= i < |demands| && (!Weighed(demands[i], kitchen) || exists q :: p <= q < |ranks| && ranks[q] == i) ==>
                  verdicts[i] == before[i]
    {
      if answers[p].Some? {
        verdicts := verdicts[ranks[p] := Some(Shortage(answers[p].value))];
      }
    }
    forall i | 0 <= i < |demands| && Weighed(demands[i], kitchen) ensures verdicts[i] == LineVerdict(demands, materials, i) {
      RankStandsAtItsPlace(demands, i, |demands|);
    }
  }

  /** The verdict of every line, in the order of the lines. */
  method Judge(demands: seq<Demand>, materials: Materials) returns (verdicts: seq<Option<Unavailability>>)
    requires AnswersEveryLine(materials)
    ensures |verdicts| == |demands|
    ensures forall i :: 0 <= i < |demands| ==> verdicts[i] == LineVerdict(demands, materials, i)
  {
    var kitchens, groups;
    verdicts, kitchens, groups := Scatter(demands);
    for g := 0 to |kitchens|
      invariant |verdicts| == |demands|
      invariant forall i :: 0 <= i < |demands| ==>
                  verdicts[i] == if CatalogueVerdict(demands[i]) != None || demands[i].item.kitchen in kitchens[..g]
                                 then LineVerdict(demands, materials, i) else None
    {
      verdicts := Gather(demands, materials, kitchens[g], groups[kitchens[g]], verdicts);
      assert kitchens[..g + 1] == kitchens[..g] + [kitchens[g]];
    }
    assert kitchens[..|kitchens|] == kitchens;
    forall i | 0 <= i < |demands| && CatalogueVerdict(demands[i]) == None ensures demands[i].item.kitchen in groups {
      RankStandsAtItsPlace(demands, i, |demands|);
    }
  }

  // ------------------------------------------------------- with the customization

  /** What the basket shows on a line and what the order asks again. */
  function FullVerdict(demands: seq<Demand>, materials: Materials, i: nat): Option<Unavailability>
    requires i < |demands|
  {
    var d := demands[i];
    match LineVerdict(demands, materials, i)
    case Some(why) => Some(why)
    case None => CustomizationVerdict(d.item, d.options, d.variant)
  }

  method JudgeFully(demands: seq<Demand>, materials: Materials) returns (verdicts: seq<Option<Unavailability>>)
    requires AnswersEveryLine(materials)
    ensures |verdicts| == |demands|
    ensures forall i :: 0 <= i < |demands| ==> verdicts[i] == FullVerdict(demands, materials, i)
  {
    var lines := Judge(demands, materials);
    verdicts := [];
    for i := 0 to |demands|
      invariant |verdicts| == i && forall j :: 0 <= j < i ==> verdicts[j] == FullVerdict(demands, materials, j)
    {
      var verdict := lines[i];
      if verdict == None {
        verdict := CustomizationVerdict(demands[i].item, demands[i].options, demands[i].variant);
      }
      verdicts := verdicts + [verdict];
    }
  }

  // -------------------------------------------------------------- the whole order

  /** `verdict`: what the kitchen's own judge says at this moment. */
  datatype Kitchen = Kitchen(id: nat, currency: string, verdict: Option<nat>)

  /** What the delivery check says of the address and the subtotal. */
  datatype Delivery = Delivery(addressNotServed: bool, quote: Option<int>)

  datatype Refusal =
    | KitchenGone
    | KitchenRefuses(code: nat)
    | EmptyBasket
    | OtherKitchen
    | OtherCurrency
    | AddressNotServed
    | LinesBlocked(ranks: seq<nat>)
    | NoQuote

  datatype Acceptance = Acceptance(refusal: Option<Refusal>, verdicts: seq<Option<Unavailability>>)

  datatype Request = Request(kitchen: Option<Kitchen>, demands: seq<Demand>, delivery: Delivery, subtotal: Money)

  const STAGES: nat := 8

  /** The conditions of an order, from the most general to the most precise. */
  ghost predicate Passes(r: Request, materials: Materials, stage: nat) {
    match stage
    case 0 => r.kitchen.Some?
    case 1 => r.kitchen.Some? && r.kitchen.value.verdict == None
    case 2 => r.demands != []
    case 3 => r.kitchen.Some? && forall i :: 0 <= i < |r.demands| ==> r.demands[i].item.kitchen == r.kitchen.value.id
    case 4 => r.kitchen.Some? && r.subtotal.currency == r.kitchen.value.currency
    case 5 => !r.delivery.addressNotServed
    case 6 => forall i :: 0 <= i < |r.demands| ==> FullVerdict(r.demands, materials, i) == None
    case _ => r.delivery.quote.Some?
  }

  function StageOf(refusal: Refusal): nat {
    match refusal
    case KitchenGone => 0
    case KitchenRefuses(_) => 1
    case EmptyBasket => 2
    case OtherKitchen => 3
    case OtherCurrency => 4
    case AddressNotServed => 5
    case LinesBlocked(_) => 6
    case NoQuote => 7
  }

  ghost predicate IsBlockedList(demands: seq<Demand>, materials: Materials, ranks: seq<nat>) {
    && (forall p, q :: 0 <= p < q < |ranks| ==> ranks[p] < ranks[q])
    && (forall p :: 0 <= p < |ranks| ==> ranks[p] < |demands|)
    && (forall i :: 0 <= i < |demands| ==> (i in ranks <==> FullVerdict(demands, materials, i) != None))
  }

  method Blocked(demands: seq<Demand>, materials: Materials, verdicts: seq<Option<Unavailability>>) returns (ranks: seq<nat>)
    requires |verdicts| == |demands| && forall i :: 0 <= i < |demands| ==> verdicts[i] == FullVerdict(demands, materials, i)
    ensures IsBlockedList(demands, materials, ranks)
  {
    ranks := [];
    for i := 0 to |demands|
      invariant forall p, q :: 0 <= p < q < |ranks| ==> ranks[p] < ranks[q]
      invariant forall p :: 0 <= p < |ranks| ==> ranks[p] < i
      invariant forall j :: 0 <= j < i ==> (j in ranks <==> FullVerdict(demands, materials, j) != None)
    {
      if verdicts[i] != None {
        ranks := ranks + [i];
      }
    }
  }

  /** An order is accepted exactly when every condition holds, and a refusal names
      the first one that does not; the verdicts shown are then those of the lines. */
  method CanAcceptOrder(r: Request, materials: Materials) returns (a: Acceptance)
    requires AnswersEveryLine(materials)
    ensures a.refusal == None <==> forall stage :: 0 <= stage < STAGES ==> Passes(r, materials, stage)
    ensures a.refusal.Some? ==>
              !Passes(r, materials, StageOf(a.refusal.value))
              && forall stage :: 0 <= stage < StageOf(a.refusal.value) ==> Passes(r, materials, stage)
    ensures a.refusal.Some? && a.refusal.value.KitchenRefuses? ==>
              r.kitchen.Some? && r.kitchen.value.verdict == Some(a.refusal.value.code)
    ensures a.refusal.Some? && a.refusal.value.LinesBlocked? ==> IsBlockedList(r.demands, materials, a.refusal.value.ranks)
    ensures if a.refusal.Some? && StageOf(a.refusal.value) < 6 then a.verdicts == []
            else |a.verdicts| == |r.demands| && forall i :: 0 <= i < |r.demands| ==> a.verdicts[i] == FullVerdict(r.demands, materials, i)
  {
    if r.kitchen.None? {
      assert !Passes(r, materials, 0);
      return Acceptance(Some(KitchenGone), []);
    }
    var kitchen := r.kitchen.value;
    if kitchen.verdict.Some? {
      assert !Passes(r, materials, 1);
      return Acceptance(Some(KitchenRefuses(kitchen.verdict.value)), []);
    }
    if r.demands == [] {
      assert !Passes(r, materials, 2);
      return Acceptance(Some(EmptyBasket), []);
    }
    if exists i :: 0 <= i < |r.demands| && r.demands[i].item.kitchen != kitchen.id {
      assert !Passes(r, materials, 3);
      return Acceptance(Some(OtherKitchen), []);
    }
    if r.subtotal.currency != kitchen.currency {
      assert !Passes(r, materials, 4);
      return Acceptance(Some(OtherCurrency), []);
    }
    if r.delivery.addressNotServed {
      assert !Passes(r, materials, 5);
      return Acceptance(Some(AddressNotServed), []);
    }
    var verdicts := JudgeFully(r.demands, materials);
    var ranks := Blocked(r.demands, materials, verdicts);
    if ranks != [] {
      assert ranks[0] in ranks;
      assert !Passes(r, materials, 6);
      return Acceptance(Some(LinesBlocked(ranks)), verdicts);
    }
    if r.delivery.quote.None? {
      assert !Passes(r, materials, 7);
      return Acceptance(Some(NoQuote), verdicts);
    }
    return Acceptance(None, verdicts);
  }
}

/** What the judge of apps/availability/services.py asks and answers, told without the
    scattering by kitchen: every line it weighs stands once, as it is, among the lines
    its kitchen is asked about, and gets the answer given there. */
module AvailabilityRules {
  import opened Wrappers
  import opened Moneys
  import opened Catalogue
  import opened Availability

  /** Nothing in the catalogue stops the line: the dish is on sale, in stock for all its
      portions if it is counted, and so are its options. */
  predicate OnSale(d: Demand) {
    && !d.item.withdrawn && d.item.available && d.item.categoryActive
    && (d.item.tracksStock ==> d.quantity <= d.item.stock)
    && forall o :: o in d.options ==> o.available
  }

  /** `ranks` are, in order, the lines on sale of one kitchen. */
  ghost predicate LinesOf(demands: seq<Demand>, kitchen: nat, ranks: seq<nat>) {
    && (forall p, q :: 0 <= p < q < |ranks| ==> ranks[p] < ranks[q])
    && (forall i: nat :: i in ranks <==> i < |demands| && OnSale(demands[i]) && demands[i].item.kitchen == kitchen)
  }

  /** The entry says of the line which dish, how many portions and which options. */
  predicate Tells(entry: Produced, d: Demand) {
    && entry.item == d.item.id && entry.quantity == d.quantity && |entry.options| == |d.options|
    && forall k :: 0 <= k < |d.options| ==> entry.options[k] == d.options[k].id
  }

  /** What the kitchen is asked: one entry for each of its lines on sale, in order. */
  ghost predicate AsksAbout(demands: seq<Demand>, kitchen: nat, ranks: seq<nat>, asked: seq<Produced>) {
    && LinesOf(demands, kitchen, ranks) && |asked| == |ranks|
    && forall p :: 0 <= p < |ranks| ==> ranks[p] < |demands| && Tells(asked[p], demands[ranks[p]])
  }

  lemma OnSaleIffNoVerdict(d: Demand)
    ensures OnSale(d) <==> CatalogueVerdict(d) == None
  {
    ItemVerdictMeaning(d.item, d.options, d.quantity);
  }

  lemma RanksAreTheLines(demands: seq<Demand>, kitchen: nat)
    ensures LinesOf(demands, kitchen, Ranks(demands, kitchen, |demands|))
  {
    var ranks := Ranks(demands, kitchen, |demands|);
    forall i: nat ensures i in ranks <==> i < |demands| && OnSale(demands[i]) && demands[i].item.kitchen == kitchen {
      if i < |demands| {
        OnSaleIffNoVerdict(demands[i]);
        if OnSale(demands[i]) { RankStandsAtItsPlace(demands, i, |demands|); }
      }
    }
  }

  /** A line on sale is judged by its own kitchen's answer at its own entry, when that
      kitchen is asked about all its lines on sale; a line that is not keeps the
      catalogue's refusal. */
  lemma JudgedAtItsEntry(demands: seq<Demand>, materials: Materials, i: nat) returns (ranks: seq<nat>, asked: seq<Produced>, p: nat)
    requires AnswersEveryLine(materials) && i < |demands| && OnSale(demands[i])
    ensures AsksAbout(demands, demands[i].item.kitchen, ranks, asked)
    ensures p < |ranks| && ranks[p] == i && p < |materials(demands[i].item.kitchen, asked)|
    ensures LineVerdict(demands, materials, i) ==
            match materials(demands[i].item.kitchen, asked)[p]
            case None => None
            case Some(portions) => Some(Shortage(portions))
  {
    var kitchen := demands[i].item.kitchen;
    ranks := Ranks(demands, kitchen, |demands|);
    asked := Batch(demands, ranks);
    p := |Ranks(demands, kitchen, i)|;
    OnSaleIffNoVerdict(demands[i]);
    RankStandsAtItsPlace(demands, i, |demands|);
    RanksAreTheLines(demands, kitchen);
    assert |materials(kitchen, asked)| == |asked|;
  }

  /** The whole verdict of a line: none exactly when it is on sale, its kitchen has the
      materials, and its options and size are well chosen. */
  lemma FullVerdictMeaning(demands: seq<Demand>, materials: Materials, i: nat)
    requires AnswersEveryLine(materials) && i < |demands|
    ensures FullVerdict(demands, materials, i) == None <==>
            && OnSale(demands[i]) && LineVerdict(demands, materials, i) == None
            && WellCustomized(demands[i].item, demands[i].options, demands[i].variant)
    ensures !OnSale(demands[i]) ==> FullVerdict(demands, materials, i) == ItemVerdict(demands[i].item, demands[i].options, demands[i].quantity)
  {
    OnSaleIffNoVerdict(demands[i]);
    CustomizationVerdictMeaning(demands[i].item, demands[i].options, demands[i].variant);
  }

  /** Materials short for more than `most` portions of a dish, whatever else is asked. */
  ghost predicate AtMost(materials: Materials, dish: nat, most: int) {
    forall kitchen: nat, lines: seq<Produced>, p :: 0 <= p < |lines| && lines[p].item == dish && lines[p].quantity > most ==>
                                                     p < |materials(kitchen, lines)| && materials(kitchen, lines)[p].Some?
  }

  /** Materials never short for a dish up to `most` portions. */
  ghost predicate AtLeast(materials: Materials, dish: nat, most: int) {
    forall kitchen: nat, lines: seq<Produced>, p :: 0 <= p < |lines| && lines[p].item == dish && lines[p].quantity <= most ==>
                                                     p < |materials(kitchen, lines)| && materials(kitchen, lines)[p].None?
  }

  /** Where materials allow exactly up to `most` portions of a dish, a line of it that is
      on sale and well customized is stopped exactly when it asks for more; and then
      the order is refused for it. */
  lemma TooManyPortionsAreBlocked(r: Request, materials: Materials, i: nat, most: int)
    requires AnswersEveryLine(materials) && i < |r.demands| && OnSale(r.demands[i])
    requires WellCustomized(r.demands[i].item, r.demands[i].options, r.demands[i].variant)
    requires AtMost(materials, r.demands[i].item.id, most) && AtLeast(materials, r.demands[i].item.id, most)
    ensures FullVerdict(r.demands, materials, i) == None <==> r.demands[i].quantity <= most
    ensures r.demands[i].quantity > most ==> !Passes(r, materials, 6)
  {
    var d := r.demands[i];
    var ranks, asked, p := JudgedAtItsEntry(r.demands, materials, i);
    assert Tells(asked[p], d);
    assert asked[p].item == d.item.id;
    FullVerdictMeaning(r.demands, materials, i);
  }

  /** What an order must meet, in full. */
  lemma AcceptedOrder(r: Request, materials: Materials)
    requires AnswersEveryLine(materials)
    ensures (forall stage :: 0 <= stage < STAGES ==> Passes(r, materials, stage)) <==>
            && r.kitchen.Some? && r.kitchen.value.verdict == None && |r.demands| > 0
            && r.subtotal.currency == r.kitchen.value.currency && !r.delivery.addressNotServed && r.delivery.quote.Some?
            && forall i :: 0 <= i < |r.demands| ==>
                 && r.demands[i].item.kitchen == r.kitchen.value.id && OnSale(r.demands[i])
                 && LineVerdict(r.demands, materials, i) == None
                 && WellCustomized(r.demands[i].item, r.demands[i].options, r.demands[i].variant)
  {
    forall i | 0 <= i < |r.demands|
      ensures FullVerdict(r.demands, materials, i) == None <==>
              OnSale(r.demands[i]) && LineVerdict(r.demands, materials, i) == None
              && WellCustomized(r.demands[i].item, r.demands[i].options, r.demands[i].variant)
    {
      FullVerdictMeaning(r.demands, materials, i);
    }
    if forall stage :: 0 <= stage < STAGES ==> Passes(r, materials, stage) {
      assert Passes(r, materials, 0) && Passes(r, materials, 1) && Passes(r, materials, 2) && Passes(r, materials, 3);
      assert Passes(r, materials, 4) && Passes(r, materials, 5) && Passes(r, materials, 6) && Passes(r, materials, 7);
    }
  }

  /** A refusal names a cause that is there, and none of the causes examined before it
      is. */
  lemma RefusalNamesItsCause(r: Request, materials: Materials, why: Refusal)
    requires AnswersEveryLine(materials) && !Passes(r, materials, StageOf(why))
    requires forall stage :: 0 <= stage < StageOf(why) ==> Passes(r, materials, stage)
    ensures why.KitchenGone? <==> r.kitchen == None
    ensures why.KitchenRefuses? <==> r.kitchen.Some? && r.kitchen.value.verdict.Some?
    ensures why.EmptyBasket? ==> r.demands == []
    ensures why.OtherKitchen? ==> r.kitchen.Some? && exists i :: 0 <= i < |r.demands| && r.demands[i].item.kitchen != r.kitchen.value.id
    ensures why.OtherCurrency? ==> r.kitchen.Some? && r.subtotal.currency != r.kitchen.value.currency
    ensures why.AddressNotServed? ==> r.delivery.addressNotServed
    ensures why.LinesBlocked? ==> exists i :: 0 <= i < |r.demands| && FullVerdict(r.demands, materials, i) != None
    ensures why.NoQuote? ==> r.delivery.quote == None
    ensures why.LinesBlocked? || why.NoQuote? ==>
              && !r.delivery.addressNotServed && r.demands != [] && r.kitchen.Some? && r.kitchen.value.verdict == None
              && r.subtotal.currency == r.kitchen.value.currency
              && forall i :: 0 <= i < |r.demands| ==> r.demands[i].item.kitchen == r.kitchen.value.id
    ensures why.NoQuote? ==> forall i :: 0 <= i < |r.demands| ==> FullVerdict(r.demands, materials, i) == None
  {
    var n := StageOf(why);
    assert n > 0 ==> Passes(r, materials, 0);
    assert n > 1 ==> Passes(r, materials, 1);
    assert n > 2 ==> Passes(r, materials, 2);
    assert n > 3 ==> Passes(r, materials, 3);
    assert n > 4 ==> Passes(r, materials, 4);
    assert n > 5 ==> Passes(r, materials, 5);
    assert n > 6 ==> Passes(r, materials, 6);
  }
}

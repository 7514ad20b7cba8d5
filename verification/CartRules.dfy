/** What the basket of apps/carts/services.py promises a client, told from the menu and
    the rows: what a line costs, what is admitted, which rows a call touches, and what
    is shown beside a line. */
module CartRules {
  import opened Wrappers
  import opened Rounding
  import opened Moneys
  import opened Catalogue
  import opened Availability
  import opened AvailabilityRules
  import opened Carts

  // ------------------------------------------------------------------------ prices

  /** A line without options costs, a portion, its size's price when it has a size and
      its dish's otherwise. */
  lemma PlainLineCosts(menu: Menu, l: Line)
    requires Knows(menu, l.item, l.options, l.variant) && l.options == []
    ensures LineTotal(menu, l) == (match l.variant
                                   case Some(v) => menu.variants[v].price.minor
                                   case None => menu.items[l.item].price.minor) * l.quantity
  {
    UnitPriceMeaning(menu, l);
  }

  lemma Portions(a: int, b: int, quantity: int)
    ensures (a + b) * quantity == a * quantity + b * quantity
  {
  }

  lemma TotalOfUnit(menu: Menu, l: Line, unit: int)
    requires Knows(menu, l.item, l.options, l.variant) && UnitPrice(menu, l) == unit
    ensures LineTotal(menu, l) == unit * l.quantity
  {
  }

  lemma UnitWithOption(menu: Menu, l: Line, option: nat)
    requires Knows(menu, l.item, l.options + [option], l.variant)
    ensures Knows(menu, l.item, l.options, l.variant) && option in menu.choices
    ensures UnitPrice(menu, l.(options := l.options + [option])) == UnitPrice(menu, l) + menu.choices[option].delta.minor
  {
    assert forall o :: o in l.options ==> o in l.options + [option];
    assert option in l.options + [option];
    DeltasConcat(menu, l.options, [option]);
    assert [option][..0] == [];
  }

  /** One more option moves the total by the quantity times what it adds. */
  lemma OptionCosts(menu: Menu, l: Line, option: nat)
    requires Knows(menu, l.item, l.options + [option], l.variant)
    ensures Knows(menu, l.item, l.options, l.variant) && option in menu.choices
    ensures LineTotal(menu, l.(options := l.options + [option])) == LineTotal(menu, l) + menu.choices[option].delta.minor * l.quantity
  {
    var unit, extra := UnitPrice(menu, l), menu.choices[option].delta.minor;
    UnitWithOption(menu, l, option);
    TotalOfUnit(menu, l, unit);
    TotalOfUnit(menu, l.(options := l.options + [option]), unit + extra);
    Portions(unit, extra, l.quantity);
  }

  /** The dish's own price moves no line that has a size, and every other line by the
      quantity. */
  lemma OwnPriceCosts(menu: Menu, l: Line, price: Money)
    requires Knows(menu, l.item, l.options, l.variant)
    ensures var repriced := menu.(items := menu.items[l.item := menu.items[l.item].(price := price)]);
            && Knows(repriced, l.item, l.options, l.variant)
            && LineTotal(repriced, l) == LineTotal(menu, l) +
               if l.variant.Some? then 0 else (price.minor - menu.items[l.item].price.minor) * l.quantity
  {
    var repriced := menu.(items := menu.items[l.item := menu.items[l.item].(price := price)]);
    UnitPriceMeaning(menu, l);
    UnitPriceMeaning(repriced, l);
    assert Extras(repriced, l.options) == Extras(menu, l.options);
    var unit, more := UnitPrice(menu, l), if l.variant.Some? then 0 else price.minor - menu.items[l.item].price.minor;
    TotalOfUnit(menu, l, unit);
    TotalOfUnit(repriced, l, unit + more);
    Portions(unit, more, l.quantity);
  }

  // --------------------------------------------------------------------- admission

  /** The places at which options of a group stand in a list of options. */
  function PlacesOf(menu: Menu, options: seq<nat>, group: nat): set<nat>
    requires forall o :: o in options ==> o in menu.choices
  {
    set k | 0 <= k < |options| && menu.choices[options[k]].group == group
  }

  /** A size if and only if the dish has an active one, and its own, active and on sale;
      options of the dish's groups only; and as many of each group as it asks for. */
  predicate WellChosen(menu: Menu, item: nat, options: seq<nat>, variant: Option<nat>)
    requires Knows(menu, item, options, variant)
  {
    var dish := menu.items[item];
    && (variant.Some? <==> exists v :: v in dish.variants && v.active)
    && (variant.Some? ==>
          var size := menu.variants[variant.value]; size.item == dish.id && size.active && size.available)
    && (forall o :: o in options ==> exists g :: g in dish.groups && g.id == menu.choices[o].group)
    && (forall g :: g in dish.groups ==> g.min <= |PlacesOf(menu, options, g.id)| <= g.max)
  }

  lemma ChoiceIsWellChosen(menu: Menu, item: nat, options: seq<nat>, variant: Option<nat>)
    requires Knows(menu, item, options, variant)
    ensures CustomizationVerdict(menu.items[item], Choices(menu, options), Size(menu, variant)) == None <==>
            WellChosen(menu, item, options, variant)
  {
    var dish, chosen := menu.items[item], Choices(menu, options);
    AcceptedChoice(dish, chosen, Size(menu, variant));
    forall g | g in dish.groups ensures Places(chosen, g.id) == PlacesOf(menu, options, g.id) {
    }
    forall o | o in options ensures menu.choices[o] in chosen {
      var k :| 0 <= k < |options| && options[k] == o;
      assert chosen[k] == menu.choices[o];
    }
  }

  /** What may be put in a basket: a dish of its kitchen and currency, on sale, with
      options on sale and a choice that its rules accept. */
  predicate Admissible(menu: Menu, b: Basket, item: nat, options: seq<nat>, variant: Option<nat>)
    requires Knows(menu, item, options, variant)
  {
    var dish := menu.items[item];
    && dish.kitchen == b.kitchen && dish.price.currency == b.currency
    && !dish.withdrawn && dish.available && dish.categoryActive
    && (forall o :: o in options ==> menu.choices[o].available)
    && WellChosen(menu, item, options, variant)
  }

  lemma {:induction false} FirstUnservedMeaning(menu: Menu, options: seq<nat>)
    requires forall o :: o in options ==> o in menu.choices
    ensures match FirstUnserved(menu, options)
            case None => forall o :: o in options ==> menu.choices[o].available
            case Some(o) => o in options && !menu.choices[o].available
  {
    if options != [] {
      FirstUnservedMeaning(menu, options[1..]);
      assert options == [options[0]] + options[1..];
    }
  }

  lemma AdmissionMeaning(menu: Menu, b: Basket, item: nat, options: seq<nat>, variant: Option<nat>)
    requires Knows(menu, item, options, variant)
    ensures Admission(menu, b, item, options, variant) == None <==> Admissible(menu, b, item, options, variant)
    ensures match Admission(menu, b, item, options, variant)
            case None => true
            case Some(why) =>
              match why
              case NotOfThisKitchen => menu.items[item].kitchen != b.kitchen
              case NotServed => menu.items[item].withdrawn || !menu.items[item].available || !menu.items[item].categoryActive
              case WrongCurrency => menu.items[item].price.currency != b.currency
              case Refused(_) => !WellChosen(menu, item, options, variant)
              case OptionNotServed(o) => o in options && !menu.choices[o].available
              case _ => false
  {
    FirstUnservedMeaning(menu, options);
    ItemVerdictMeaning(menu.items[item], [], 1);
    ChoiceIsWellChosen(menu, item, options, variant);
  }

  /** Nothing tells the line apart from what is asked for. */
  ghost predicate IsAsked(l: Line, item: nat, options: seq<nat>, notes: string, variant: Option<nat>) {
    l.item == item && l.variant == variant && l.notes == notes && forall o :: o in l.options <==> o in options
  }

  lemma IsAskedIsTheKey(l: Line, item: nat, options: seq<nat>, notes: string, variant: Option<nat>)
    ensures IsAsked(l, item, options, notes, variant) <==> KeyOf(l) == Key(item, variant, notes, Set(options))
  {
    assert (forall o :: o in l.options <==> o in options) <==> Set(l.options) == Set(options) by {
      assert forall o :: o in Set(l.options) <==> o in l.options;
      assert forall o :: o in Set(options) <==> o in options;
    }
  }

  /** `i` is the first line that nothing tells apart from what is asked for. */
  ghost predicate FirstAsked(lines: seq<Line>, i: nat, item: nat, options: seq<nat>, notes: string, variant: Option<nat>) {
    i < |lines| && IsAsked(lines[i], item, options, notes, variant)
    && forall j :: 0 <= j < i ==> !IsAsked(lines[j], item, options, notes, variant)
  }

  /** An addition that finds its line raises that one and no other; it succeeds exactly
      when the dish is admissible and the sum fits its column. */
  lemma AddToALine(menu: Menu, b: Basket, i: nat, item: nat, quantity: int, options: seq<nat>, notes: string, variant: Option<nat>)
    requires Knows(menu, item, options, variant) && FirstAsked(b.lines, i, item, options, notes, variant)
    ensures var (v, r) := AddLine(menu, b, item, quantity, options, notes, variant);
            && (r.Success? <==> Admissible(menu, b, item, options, variant) && 1 <= b.lines[i].quantity + quantity <= 32767)
            && (r.Failure? ==> v == b)
            && (r.Success? ==>
                  r.value == b.lines[i].id && v == b.(lines := b.lines[i := b.lines[i].(quantity := b.lines[i].quantity + quantity)]))
  {
    AdmissionMeaning(menu, b, item, options, variant);
    forall l ensures IsAsked(l, item, options, notes, variant) <==> KeyOf(l) == Key(item, variant, notes, Set(options)) {
      IsAskedIsTheKey(l, item, options, notes, variant);
    }
    assert Twin(b.lines, Key(item, variant, notes, Set(options)), None) == Some(i);
  }

  /** An addition that finds none appends a row with what was asked; it succeeds exactly
      when the dish is admissible, the quantity fits and no option is repeated. */
  lemma AddANewLine(menu: Menu, b: Basket, item: nat, quantity: int, options: seq<nat>, notes: string, variant: Option<nat>)
    requires Knows(menu, item, options, variant) && forall j :: 0 <= j < |b.lines| ==> !IsAsked(b.lines[j], item, options, notes, variant)
    ensures var (v, r) := AddLine(menu, b, item, quantity, options, notes, variant);
            && (r.Success? <==> Admissible(menu, b, item, options, variant) && 1 <= quantity <= 32767
                                && forall j, k :: 0 <= j < k < |options| ==> options[j] != options[k])
            && (r.Failure? ==> v == b)
            && (r.Success? ==>
                  r.value == b.next && v == b.(lines := b.lines + [Line(b.next, item, variant, notes, options, quantity)], next := b.next + 1))
  {
    AdmissionMeaning(menu, b, item, options, variant);
    forall l ensures IsAsked(l, item, options, notes, variant) <==> KeyOf(l) == Key(item, variant, notes, Set(options)) {
      IsAskedIsTheKey(l, item, options, notes, variant);
    }
    assert Twin(b.lines, Key(item, variant, notes, Set(options)), None) == None;
  }

  // -------------------------------------------------------------------- rewriting

  /** Another line that nothing tells apart from `l`, the first one. */
  ghost predicate FirstOther(lines: seq<Line>, i: nat, j: nat, l: Line) {
    j < |lines| && j != i && IsAsked(lines[j], l.item, l.options, l.notes, l.variant)
    && forall k :: 0 <= k < j && k != i ==> !IsAsked(lines[k], l.item, l.options, l.notes, l.variant)
  }

  /** What a rewriting makes of a line: options and size as given, quantity and notes
      as given or as they were. */
  predicate BecomesLine(l: Line, m: Line, options: seq<nat>, quantity: Option<int>, notes: Option<string>, variant: Option<nat>) {
    && m.id == l.id && m.item == l.item && m.options == options && m.variant == variant
    && m.quantity == (if quantity.Some? then quantity.value else l.quantity)
    && m.notes == (if notes.Some? then notes.value else l.notes)
  }

  lemma TwinsAreAsked(lines: seq<Line>, i: nat, m: Line)
    requires i < |lines| && m.id == lines[i].id && forall j, k :: 0 <= j < k < |lines| ==> lines[j].id != lines[k].id
    ensures match Twin(lines[i := m], KeyOf(m), Some(m.id))
            case Some(j) => FirstOther(lines, i, j, m)
            case None => forall j :: 0 <= j < |lines| && j != i ==> !IsAsked(lines[j], m.item, m.options, m.notes, m.variant)
  {
    var after := lines[i := m];
    forall j | 0 <= j < |lines| && j != i
      ensures after[j] == lines[j] && after[j].id != m.id
      ensures IsAsked(lines[j], m.item, m.options, m.notes, m.variant) <==> KeyOf(lines[j]) == KeyOf(m)
    {
      assert if i < j then lines[i].id != lines[j].id else lines[j].id != lines[i].id;
      IsAskedIsTheKey(lines[j], m.item, m.options, m.notes, m.variant);
    }
    assert KeyOf(after[i]) == KeyOf(m) && after[i].id == m.id;
  }

  /** A rewriting that stays alone changes its row and no other. */
  lemma RewriteAlone(menu: Menu, b: Basket, i: nat, m: Line, options: seq<nat>, quantity: Option<int>, notes: Option<string>, variant: Option<nat>)
    requires Stored(b) && i < |b.lines| && Knows(menu, b.lines[i].item, options, variant)
    requires BecomesLine(b.lines[i], m, options, quantity, notes, variant)
    requires forall j :: 0 <= j < |b.lines| && j != i ==> !IsAsked(b.lines[j], m.item, m.options, m.notes, m.variant)
    ensures var (v, r) := UpdateLine(menu, b, i, options, quantity, notes, variant);
            && (r.Success? <==> Admissible(menu, b, m.item, options, variant) && 1 <= m.quantity <= 32767
                                && forall j, k :: 0 <= j < k < |options| ==> options[j] != options[k])
            && (r.Failure? ==> v == b)
            && (r.Success? ==> r.value == m.id && v == b.(lines := b.lines[i := m]))
  {
    AdmissionMeaning(menu, b, m.item, options, variant);
    TwinsAreAsked(b.lines, i, m);
    assert Rewritten(b.lines[i], options, quantity, notes, variant) == m;
  }

  /** One that meets another line raises that line by its quantity, and its own row
      goes; all the others stay, in their order. */
  lemma RewriteMerges(menu: Menu, b: Basket, i: nat, j: nat, m: Line, options: seq<nat>, quantity: Option<int>, notes: Option<string>, variant: Option<nat>)
    requires Stored(b) && i < |b.lines| && Knows(menu, b.lines[i].item, options, variant)
    requires BecomesLine(b.lines[i], m, options, quantity, notes, variant) && FirstOther(b.lines, i, j, m)
    ensures var (v, r) := UpdateLine(menu, b, i, options, quantity, notes, variant);
            && (r.Success? <==> Admissible(menu, b, m.item, options, variant) && 1 <= m.quantity <= 32767
                                && 1 <= b.lines[j].quantity + m.quantity <= 32767
                                && forall k, l :: 0 <= k < l < |options| ==> options[k] != options[l])
            && (r.Failure? ==> v == b)
            && (r.Success? ==>
                  && r.value == b.lines[j].id && v == b.(lines := v.lines) && |v.lines| == |b.lines| - 1
                  && forall k :: 0 <= k < |v.lines| ==>
                       var was := if k < i then k else k + 1;
                       v.lines[k] == if was == j then b.lines[j].(quantity := b.lines[j].quantity + m.quantity) else b.lines[was])
  {
    AdmissionMeaning(menu, b, m.item, options, variant);
    TwinIsFirstOther(b.lines, i, j, m);
    assert Rewritten(b.lines[i], options, quantity, notes, variant) == m;
    MergedLines(b.lines, i, j, m);
  }

  lemma TwinIsFirstOther(lines: seq<Line>, i: nat, j: nat, m: Line)
    requires i < |lines| && m.id == lines[i].id && forall j, k :: 0 <= j < k < |lines| ==> lines[j].id != lines[k].id
    requires FirstOther(lines, i, j, m)
    ensures Twin(lines[i := m], KeyOf(m), Some(m.id)) == Some(j)
  {
    TwinsAreAsked(lines, i, m);
  }

  lemma MergedLines(lines: seq<Line>, i: nat, j: nat, m: Line)
    requires i < |lines| && j < |lines| && i != j
    ensures var merged := Without(Raise(lines[i := m], j, m.quantity), i);
            && |merged| == |lines| - 1
            && forall k :: 0 <= k < |merged| ==>
                 var was := if k < i then k else k + 1;
                 merged[k] == if was == j then lines[j].(quantity := lines[j].quantity + m.quantity) else lines[was]
  {
  }

  /** A PATCH without options or size writes the notes, then the quantity, of its own
      row; a quantity that does not fit leaves the notes written. */
  lemma ShortPatch(menu: Menu, b: Basket, i: nat, c: Changes)
    requires i < |b.lines| && c.options == None && c.variant == None
    requires Knows(menu, b.lines[i].item, b.lines[i].options, b.lines[i].variant)
    ensures var (v, r) := Patch(menu, b, i, c);
            && (r.Success? <==> c.quantity.Some? ==> 1 <= c.quantity.value <= 32767)
            && (r.Success? ==> r.value == b.lines[i].id)
            && |v.lines| == |b.lines| && v == b.(lines := v.lines)
            && (forall j :: 0 <= j < |b.lines| && j != i ==> v.lines[j] == b.lines[j])
            && v.lines[i] == b.lines[i].(notes := if c.notes.Some? then c.notes.value else b.lines[i].notes,
                                         quantity := if c.quantity.Some? && r.Success? then c.quantity.value else b.lines[i].quantity)
  {
  }

  /** A PATCH with options or a size is a rewriting: what it does not carry is taken
      from the row. */
  lemma LongPatch(menu: Menu, b: Basket, i: nat, c: Changes)
    requires i < |b.lines| && (c.options.Some? || c.variant.Some?)
    requires Knows(menu, b.lines[i].item, NewOptions(b.lines[i], c), NewVariant(b.lines[i], c))
    ensures Patch(menu, b, i, c) == UpdateLine(menu, b, i,
                                               if c.options.Some? then c.options.value else b.lines[i].options,
                                               c.quantity, c.notes,
                                               if c.variant.Some? then c.variant.value else b.lines[i].variant)
  {
  }

  // ------------------------------------------------------------ what is shown of a line

  /** No reason is shown beside a line exactly when its dish is on sale, in stock for all
      its portions if counted, its options on sale, its choice accepted by the rules,
      and its kitchen's materials, asked about this dish with this quantity and these
      options among the kitchen's other lines on sale, answer nothing. */
  lemma ShownBesideALine(menu: Menu, lines: seq<Line>, materials: Materials, i: nat)
    returns (ranks: seq<nat>, asked: seq<Produced>, p: nat)
    requires AnswersEveryLine(materials) && KnowsAll(menu, lines) && i < |lines|
    ensures var l := lines[i];
            var dish, demands := menu.items[l.item], AsDemands(menu, lines);
            var sold := && !dish.withdrawn && dish.available && dish.categoryActive
                        && (dish.tracksStock ==> l.quantity <= dish.stock)
                        && forall o :: o in l.options ==> menu.choices[o].available;
            && (sold ==>
                  && AsksAbout(demands, dish.kitchen, ranks, asked)
                  && p < |ranks| && ranks[p] == i && p < |materials(dish.kitchen, asked)|
                  && asked[p].item == dish.id && asked[p].quantity == l.quantity && |asked[p].options| == |l.options|
                  && forall k :: 0 <= k < |l.options| ==> asked[p].options[k] == menu.choices[l.options[k]].id)
            && (FullVerdict(demands, materials, i) == None <==>
                  && sold && materials(dish.kitchen, asked)[p] == None
                  && WellChosen(menu, l.item, l.options, l.variant))
  {
    var demands := AsDemands(menu, lines);
    var l, d := lines[i], demands[i];
    assert d == AsDemand(menu, l);
    forall k | 0 <= k < |l.options| ensures d.options[k] == menu.choices[l.options[k]] && d.options[k] in d.options {
    }
    ranks, asked, p := [], [], 0;
    FullVerdictMeaning(demands, materials, i);
    CustomizationVerdictMeaning(d.item, d.options, d.variant);
    ChoiceIsWellChosen(menu, l.item, l.options, l.variant);
    if OnSale(d) {
      ranks, asked, p := JudgedAtItsEntry(demands, materials, i);
      assert Tells(asked[p], d);
    }
  }
}

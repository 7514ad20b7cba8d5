/** Items of a kitchen's menu and the two judges of apps/catalog/availability.py. */
module Catalogue {
  import opened Wrappers
  import opened Moneys

  datatype Variant = Variant(id: nat, item: nat, price: Money, active: bool, available: bool)

  datatype Choice = Choice(id: nat, group: nat, delta: Money, available: bool)

  datatype Group = Group(id: nat, min: nat, max: nat)

  /** `variants` and `groups`: the rows that point back at the item. */
  datatype Item = Item(
    id: nat,
    kitchen: nat,
    price: Money,
    withdrawn: bool,
    available: bool,
    categoryActive: bool,
    tracksStock: bool,
    stock: nat,
    variants: seq<Variant>,
    groups: seq<Group>)

  datatype Unavailability =
    | ItemWithdrawn
    | ItemUnavailable
    | OutOfStock(remaining: nat)
    | OptionsUnavailable(options: seq<nat>)
    | ForeignVariant(variant: nat)
    | VariantNeeded
    | NoVariantsHere(variant: nat)
    | VariantUnavailable(variant: nat)
    | ForeignOption(option: nat)
    | TooFew(group: nat)
    | TooMany(group: nat)
    | Shortage(portions: nat)

  // ----------------------------------------------------------------- the item alone

  function Unserved(options: seq<Choice>): seq<nat> {
    if options == [] then []
    else (if options[0].available then [] else [options[0].id]) + Unserved(options[1..])
  }

  lemma {:induction false} UnservedMeaning(options: seq<Choice>)
    ensures Unserved(options) == [] <==> forall o :: o in options ==> o.available
  {
    if options != [] {
      UnservedMeaning(options[1..]);
      assert options == [options[0]] + options[1..];
    }
  }

  /** What stops the item from being ordered, as far as the catalogue knows. */
  function ItemVerdict(item: Item, options: seq<Choice>, quantity: int): Option<Unavailability> {
    if item.withdrawn then Some(ItemWithdrawn)
    else if !item.available || !item.categoryActive then Some(ItemUnavailable)
    else if item.tracksStock && item.stock < quantity then Some(OutOfStock(item.stock))
    else if Unserved(options) != [] then Some(OptionsUnavailable(Unserved(options)))
    else None
  }

  predicate Served(item: Item) {
    !item.withdrawn && item.available && item.categoryActive
  }

  lemma ItemVerdictMeaning(item: Item, options: seq<Choice>, quantity: int)
    ensures ItemVerdict(item, options, quantity) == None <==>
            && Served(item) && (item.tracksStock ==> quantity <= item.stock)
            && forall o :: o in options ==> o.available
    ensures Served(item) <==> ItemVerdict(item, [], 1) != Some(ItemWithdrawn) && ItemVerdict(item, [], 1) != Some(ItemUnavailable)
  {
    UnservedMeaning(options);
    UnservedMeaning([]);
  }

  // ---------------------------------------------------------- the customization

  predicate HasActiveVariant(item: Item) {
    exists v :: v in item.variants && v.active
  }

  function VariantVerdict(item: Item, variant: Option<Variant>): Option<Unavailability> {
    if variant.Some? && variant.value.item != item.id then Some(ForeignVariant(variant.value.id))
    else if variant.None? && HasActiveVariant(item) then Some(VariantNeeded)
    else if variant.Some? && !HasActiveVariant(item) then Some(NoVariantsHere(variant.value.id))
    else if variant.Some? && !(variant.value.active && variant.value.available) then Some(VariantUnavailable(variant.value.id))
    else None
  }

  predicate GroupOf(item: Item, option: Choice) {
    exists g :: g in item.groups && g.id == option.group
  }

  function FirstForeign(item: Item, options: seq<Choice>): Option<nat> {
    if options == [] then None
    else if !GroupOf(item, options[0]) then Some(options[0].id)
    else FirstForeign(item, options[1..])
  }

  function Picked(options: seq<Choice>, group: nat): nat {
    if options == [] then 0
    else Picked(options[..|options| - 1], group) + if options[|options| - 1].group == group then 1 else 0
  }

  function GroupVerdict(groups: seq<Group>, options: seq<Choice>): Option<Unavailability> {
    if groups == [] then None
    else if Picked(options, groups[0].id) < groups[0].min then Some(TooFew(groups[0].id))
    else if Picked(options, groups[0].id) > groups[0].max then Some(TooMany(groups[0].id))
    else GroupVerdict(groups[1..], options)
  }

  /** The size first, then foreign options, then each group's bounds in order. */
  function CustomizationVerdict(item: Item, options: seq<Choice>, variant: Option<Variant>): Option<Unavailability> {
    if VariantVerdict(item, variant) != None then VariantVerdict(item, variant)
    else match FirstForeign(item, options)
      case Some(o) => Some(ForeignOption(o))
      case None => GroupVerdict(item.groups, options)
  }

  /** The rule the judge stands for, without any order of examination: an item
      with active sizes wants one of its own that is on sale, any other item wants
      none; every option is of a group of the item; every group's bounds hold. */
  ghost predicate WellCustomized(item: Item, options: seq<Choice>, variant: Option<Variant>) {
    && (variant.Some? <==> HasActiveVariant(item))
    && (variant.Some? ==> variant.value.item == item.id && variant.value.active && variant.value.available)
    && (forall o :: o in options ==> GroupOf(item, o))
    && (forall g :: g in item.groups ==> g.min <= Picked(options, g.id) <= g.max)
  }

  lemma {:induction false} FirstForeignMeaning(item: Item, options: seq<Choice>)
    ensures match FirstForeign(item, options)
            case None => forall o :: o in options ==> GroupOf(item, o)
            case Some(id) => exists i :: 0 <= i < |options| && options[i].id == id && !GroupOf(item, options[i])
                                         && forall j :: 0 <= j < i ==> GroupOf(item, options[j])
  {
    if options != [] {
      FirstForeignMeaning(item, options[1..]);
      if !GroupOf(item, options[0]) {
        assert FirstForeign(item, options) == Some(options[0].id);
      } else if FirstForeign(item, options).Some? {
        var id := FirstForeign(item, options).value;
        var i :| 0 <= i < |options[1..]| && options[1..][i].id == id && !GroupOf(item, options[1..][i])
                 && forall j :: 0 <= j < i ==> GroupOf(item, options[1..][j]);
        forall j | 0 <= j < i + 1 ensures GroupOf(item, options[j]) {
          if j > 0 { assert options[j] == options[1..][j - 1]; }
        }
        assert options[i + 1].id == id;
      }
    }
  }

  lemma {:induction false} GroupVerdictMeaning(groups: seq<Group>, options: seq<Choice>)
    ensures GroupVerdict(groups, options) == None <==>
            forall g :: g in groups ==> g.min <= Picked(options, g.id) <= g.max
    ensures GroupVerdict(groups, options).Some? ==>
              exists g :: g in groups && ((GroupVerdict(groups, options).value == TooFew(g.id) && Picked(options, g.id) < g.min)
                                         || (GroupVerdict(groups, options).value == TooMany(g.id) && Picked(options, g.id) > g.max))
  {
    if groups != [] {
      GroupVerdictMeaning(groups[1..], options);
      assert groups == [groups[0]] + groups[1..];
    }
  }

  /** The judge accepts exactly the well-customized choices. */
  lemma CustomizationVerdictMeaning(item: Item, options: seq<Choice>, variant: Option<Variant>)
    ensures CustomizationVerdict(item, options, variant) == None <==> WellCustomized(item, options, variant)
  {
    FirstForeignMeaning(item, options);
    GroupVerdictMeaning(item.groups, options);
  }

  lemma {:induction false} PickedConcat(a: seq<Choice>, b: seq<Choice>, group: nat)
    ensures Picked(a + b, group) == Picked(a, group) + Picked(b, group)
  {
    if b == [] {
      assert a + b == a;
    } else {
      assert (a + b)[..|a + b| - 1] == a + b[..|b| - 1];
      PickedConcat(a, b[..|b| - 1], group);
    }
  }

  lemma PickedOne(x: Choice, group: nat)
    ensures Picked([x], group) == if x.group == group then 1 else 0
  {
    assert [x][..0] == [];
  }

  lemma PickedParts(before: seq<Choice>, x: Choice, after: seq<Choice>, group: nat)
    ensures Picked(before + after, group) + (if x.group == group then 1 else 0) == Picked(before + [x] + after, group)
  {
    PickedConcat(before, after, group);
    PickedConcat(before, [x], group);
    PickedConcat(before + [x], after, group);
    PickedOne(x, group);
  }

  lemma PickedWithout(b: seq<Choice>, i: nat, group: nat)
    requires i < |b|
    ensures Picked(b[..i] + b[i + 1..], group) + (if b[i].group == group then 1 else 0) == Picked(b, group)
  {
    PickedParts(b[..i], b[i], b[i + 1..], group);
    assert b == b[..i] + [b[i]] + b[i + 1..];
  }

  lemma ChoicesWithout(b: seq<Choice>, i: nat)
    requires i < |b|
    ensures multiset(b[..i] + b[i + 1..]) == multiset(b) - multiset{b[i]}
  {
    assert b == b[..i] + [b[i]] + b[i + 1..];
  }

  /** How many options a group has does not depend on the order of the options. */
  lemma {:induction false} PickedIgnoresOrder(a: seq<Choice>, b: seq<Choice>, group: nat)
    requires multiset(a) == multiset(b)
    ensures Picked(a, group) == Picked(b, group)
  {
    if a == [] {
      assert |multiset(b)| == 0;
    } else {
      var k := |a| - 1;
      assert a[k] in multiset(a);
      var i :| 0 <= i < |b| && b[i] == a[k];
      ChoicesWithout(a, k);
      ChoicesWithout(b, i);
      assert a[..k] + a[k + 1..] == a[..k];
      PickedIgnoresOrder(a[..k], b[..i] + b[i + 1..], group);
      PickedWithout(b, i, group);
    }
  }

  /** The acceptance of a choice does not depend on the order its options come in
      (the refusal shown may). */
  lemma VerdictIgnoresOrder(item: Item, a: seq<Choice>, b: seq<Choice>, variant: Option<Variant>)
    requires multiset(a) == multiset(b)
    ensures CustomizationVerdict(item, a, variant) == None <==> CustomizationVerdict(item, b, variant) == None
  {
    CustomizationVerdictMeaning(item, a, variant);
    CustomizationVerdictMeaning(item, b, variant);
    forall g | g in item.groups ensures Picked(a, g.id) == Picked(b, g.id) {
      PickedIgnoresOrder(a, b, g.id);
    }
    assert forall o :: o in a <==> o in multiset(a);
    assert forall o :: o in b <==> o in multiset(b);
  }

  // ------------------------------------------------------------ the rules in full

  /** The places at which options of a group stand. */
  function Places(options: seq<Choice>, group: nat): set<nat> {
    set k | 0 <= k < |options| && options[k].group == group
  }

  lemma {:induction false} PickedIsTheCount(options: seq<Choice>, group: nat)
    ensures Picked(options, group) == |Places(options, group)|
  {
    if options != [] {
      var n := |options| - 1;
      PickedIsTheCount(options[..n], group);
      assert Places(options, group) == Places(options[..n], group) + if options[n].group == group then {n} else {};
    }
  }

  /** A choice is accepted exactly when: a size is given if and only if the item has one
      on its list that is active, and it is the item's own, active and available; every
      option belongs to one of the item's groups; and each group has at least its least
      and at most its most number of the options. */
  lemma AcceptedChoice(item: Item, options: seq<Choice>, variant: Option<Variant>)
    ensures CustomizationVerdict(item, options, variant) == None <==>
            && (variant.Some? <==> exists v :: v in item.variants && v.active)
            && (variant.Some? ==> variant.value.item == item.id && variant.value.active && variant.value.available)
            && (forall o :: o in options ==> exists g :: g in item.groups && g.id == o.group)
            && (forall g :: g in item.groups ==> g.min <= |Places(options, g.id)| <= g.max)
  {
    CustomizationVerdictMeaning(item, options, variant);
    forall g | g in item.groups ensures Picked(options, g.id) == |Places(options, g.id)| {
      PickedIsTheCount(options, g.id);
    }
  }

  /** A refusal of the choice says something true. */
  lemma ChoiceRefusalIsTrue(item: Item, options: seq<Choice>, variant: Option<Variant>)
    requires CustomizationVerdict(item, options, variant).Some?
    ensures match CustomizationVerdict(item, options, variant).value
            case ForeignVariant(v) => variant.Some? && variant.value.id == v && variant.value.item != item.id
            case VariantNeeded => variant == None && exists v :: v in item.variants && v.active
            case NoVariantsHere(v) => variant.Some? && variant.value.id == v && forall w :: w in item.variants ==> !w.active
            case VariantUnavailable(v) => variant.Some? && variant.value.id == v && !(variant.value.active && variant.value.available)
            case ForeignOption(o) => exists c :: c in options && c.id == o && forall g :: g in item.groups ==> g.id != c.group
            case TooFew(id) => exists g :: g in item.groups && g.id == id && |Places(options, id)| < g.min
            case TooMany(id) => exists g :: g in item.groups && g.id == id && |Places(options, id)| > g.max
            case _ => false
  {
    FirstForeignMeaning(item, options);
    GroupVerdictMeaning(item.groups, options);
    forall g | g in item.groups ensures Picked(options, g.id) == |Places(options, g.id)| {
      PickedIsTheCount(options, g.id);
    }
  }

  /** And so does a refusal of the item, in this order. */
  lemma ItemRefusalIsTrue(item: Item, options: seq<Choice>, quantity: int)
    ensures match ItemVerdict(item, options, quantity)
            case None => true
            case Some(why) =>
              match why
              case ItemWithdrawn => item.withdrawn
              case ItemUnavailable => !item.withdrawn && (!item.available || !item.categoryActive)
              case OutOfStock(left) => Served(item) && item.tracksStock && left == item.stock && left < quantity
              case OptionsUnavailable(ids) => Served(item) && ids != [] && forall id :: id in ids <==> exists o :: o in options && !o.available && o.id == id
              case _ => false
  {
    UnservedIds(options);
  }

  lemma {:induction false} UnservedIds(options: seq<Choice>)
    ensures forall id :: id in Unserved(options) <==> exists o :: o in options && !o.available && o.id == id
  {
    if options != [] {
      UnservedIds(options[1..]);
      assert options == [options[0]] + options[1..];
    }
  }
}

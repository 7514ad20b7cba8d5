/** Copying one restaurant's menu to another (apps/catalog/duplication.py): five
    stages of new rows, each re-pointed with the correspondence of the stage above. */
module Duplication {

  /** What is on a row's card and is copied as it is: names, prices, flags, order. */
  datatype Card = Card(name: string, slug: string, price: int, sortOrder: nat, shown: bool, details: seq<string>)

  /** What customers and stocks have made of an item; never copied. */
  datatype Life = Life(stock: nat, popular: bool, ratingSum: nat, ratingCount: nat, deleted: bool)

  const NEWBORN := Life(0, false, 0, 0, false)

  datatype Category = Category(restaurant: nat, card: Card)

  datatype Item = Item(restaurant: nat, category: nat, card: Card, life: Life)

  datatype Group = Group(item: nat, card: Card, min: nat, max: nat)

  datatype Choice = Choice(group: nat, card: Card, byDefault: bool)

  datatype Variant = Variant(item: nat, card: Card, active: bool)

  datatype Template = Template(restaurant: nat, card: Card, groupName: string)

  datatype Tables = Tables(
    categories: map<nat, Category>,
    items: map<nat, Item>,
    groups: map<nat, Group>,
    choices: map<nat, Choice>,
    variants: map<nat, Variant>,
    templates: map<nat, Template>,
    next: nat)

  /** Source row to its copy, table by table. */
  datatype Correspondence = Correspondence(
    categories: map<nat, nat>,
    items: map<nat, nat>,
    groups: map<nat, nat>,
    choices: map<nat, nat>,
    variants: map<nat, nat>,
    templates: map<nat, nat>)

  ghost predicate Numbered(t: Tables) {
    && (forall k :: k in t.categories ==> k < t.next)
    && (forall k :: k in t.items ==> k < t.next)
    && (forall k :: k in t.groups ==> k < t.next)
    && (forall k :: k in t.choices ==> k < t.next)
    && (forall k :: k in t.variants ==> k < t.next)
    && (forall k :: k in t.templates ==> k < t.next)
  }

  ghost predicate Injective(m: map<nat, nat>) {
    forall a, b :: a in m && b in m && m[a] == m[b] ==> a == b
  }

  /** `m` sends exactly the rows `ids` to new rows, one each; nothing old moved and
      nothing else is new. */
  ghost predicate NewRows<R>(before: map<nat, R>, after: map<nat, R>, ids: set<nat>, m: map<nat, nat>, lo: nat, hi: nat) {
    && m.Keys == ids && ids <= before.Keys
    && Injective(m)
    && (forall k :: k in m ==> lo <= m[k] < hi && m[k] in after)
    && (forall k :: k in before ==> k in after && after[k] == before[k])
    && (forall k :: k in after ==> k in before || exists s :: s in m && m[s] == k)
  }

  lemma OneMoreRow<R>(before: map<nat, R>, after: map<nat, R>, ids: set<nat>, m: map<nat, nat>, lo: nat, hi: nat, k: nat, row: R)
    requires NewRows(before, after, ids, m, lo, hi) && lo <= hi && k in before && k !in ids
    requires forall r :: r in after ==> r < hi
    ensures NewRows(before, after[hi := row], ids + {k}, m[k := hi], lo, hi + 1)
  {
    var after', m' := after[hi := row], m[k := hi];
    forall r | r in after' && r !in before ensures exists s :: s in m' && m'[s] == r {
      if r == hi {
        assert k in m' && m'[k] == r;
      } else {
        var s :| s in m && m[s] == r;
        assert s in m' && m'[s] == r;
      }
    }
  }

  /** One pass over a query, creating one row for each row read. */
  method CreateFrom<R>(before: map<nat, R>, ids: set<nat>, copy: R --> R, lo: nat)
    returns (after: map<nat, R>, m: map<nat, nat>, hi: nat)
    requires ids <= before.Keys && (forall k :: k in before ==> k < lo)
    requires forall k :: k in ids ==> copy.requires(before[k])
    ensures lo <= hi && NewRows(before, after, ids, m, lo, hi)
    ensures forall k :: k in ids ==> after[m[k]] == copy(before[k])
  {
    var todo;
    after, m, hi, todo := before, map[], lo, ids;
    while todo != {}
      invariant todo <= ids && lo <= hi
      invariant NewRows(before, after, ids - todo, m, lo, hi)
      invariant forall k :: k in after ==> k < hi
      invariant forall k :: k in m ==> after[m[k]] == copy(before[k])
      decreases todo
    {
      var k :| k in todo;
      OneMoreRow(before, after, ids - todo, m, lo, hi, k, copy(before[k]));
      assert ids - (todo - {k}) == ids - todo + {k};
      after, m, hi := after[hi := copy(before[k])], m[k := hi], hi + 1;
      todo := todo - {k};
    }
    assert ids - {} == ids;
  }

  // ------------------------------------------------------------- what is selected

  function CategoriesOf(t: Tables, restaurant: nat): set<nat> {
    set k | k in t.categories && t.categories[k].restaurant == restaurant
  }

  function AliveItemsOf(t: Tables, restaurant: nat): set<nat> {
    set k | k in t.items && t.items[k].restaurant == restaurant && !t.items[k].life.deleted
  }

  /** An alive item filed under another restaurant's category is passed over. */
  function CopiedItems(t: Tables, restaurant: nat): set<nat> {
    set k | k in AliveItemsOf(t, restaurant) && t.items[k].category in CategoriesOf(t, restaurant)
  }

  function GroupsOf(t: Tables, items: set<nat>): set<nat> {
    set k | k in t.groups && t.groups[k].item in items
  }

  function ChoicesOf(t: Tables, groups: set<nat>): set<nat> {
    set k | k in t.choices && t.choices[k].group in groups
  }

  function VariantsOf(t: Tables, items: set<nat>): set<nat> {
    set k | k in t.variants && t.variants[k].item in items
  }

  function TemplatesOf(t: Tables, restaurant: nat): set<nat> {
    set k | k in t.templates && t.templates[k].restaurant == restaurant
  }

  // ---------------------------------------------------------------- what is copied

  /** The copy is an isomorphism onto new rows: every selected row has one copy,
      links of the copies are copies of the links, and the rest of the tables is
      what it was. */
  ghost predicate Isomorphic(t: Tables, u: Tables, source: nat, target: nat, c: Correspondence) {
    && Isomorphic1(t, u, source, target, c)
    && Isomorphic2(t, u, source, target, c)
  }

  ghost predicate Isomorphic1(t: Tables, u: Tables, source: nat, target: nat, c: Correspondence) {
    && NewRows(t.categories, u.categories, CategoriesOf(t, source), c.categories, t.next, u.next)
    && NewRows(t.items, u.items, CopiedItems(t, source), c.items, t.next, u.next)
    && (forall k :: k in c.categories ==> u.categories[c.categories[k]] == Category(target, t.categories[k].card))
    && (forall k :: k in c.items ==>
          && t.items[k].category in c.categories
          && u.items[c.items[k]] == Item(target, c.categories[t.items[k].category], t.items[k].card, NEWBORN))
  }

  ghost predicate Isomorphic2(t: Tables, u: Tables, source: nat, target: nat, c: Correspondence) {
    && NewRows(t.groups, u.groups, GroupsOf(t, c.items.Keys), c.groups, t.next, u.next)
    && NewRows(t.choices, u.choices, ChoicesOf(t, c.groups.Keys), c.choices, t.next, u.next)
    && NewRows(t.variants, u.variants, VariantsOf(t, c.items.Keys), c.variants, t.next, u.next)
    && NewRows(t.templates, u.templates, TemplatesOf(t, source), c.templates, t.next, u.next)
    && (forall k :: k in c.groups ==>
          t.groups[k].item in c.items && u.groups[c.groups[k]] == t.groups[k].(item := c.items[t.groups[k].item]))
    && (forall k :: k in c.choices ==>
          t.choices[k].group in c.groups && u.choices[c.choices[k]] == t.choices[k].(group := c.groups[t.choices[k].group]))
    && (forall k :: k in c.variants ==>
          t.variants[k].item in c.items && u.variants[c.variants[k]] == t.variants[k].(item := c.items[t.variants[k].item]))
    && (forall k :: k in c.templates ==> u.templates[c.templates[k]] == t.templates[k].(restaurant := target))
  }

  lemma WidenRows<R>(before: map<nat, R>, after: map<nat, R>, ids: set<nat>, m: map<nat, nat>, lo: nat, hi: nat, low: nat, high: nat)
    requires NewRows(before, after, ids, m, lo, hi) && low <= lo && hi <= high
    ensures NewRows(before, after, ids, m, low, high)
  {
  }

  class Catalogue {
    var categories: map<nat, Category>
    var items: map<nat, Item>
    var groups: map<nat, Group>
    var choices: map<nat, Choice>
    var variants: map<nat, Variant>
    var templates: map<nat, Template>
    var next: nat

    function State(): Tables
      reads this
    {
      Tables(categories, items, groups, choices, variants, templates, next)
    }

    constructor ()
      ensures Numbered(State()) && State() == Tables(map[], map[], map[], map[], map[], map[], 0)
    {
      categories, items, groups, choices, variants, templates, next := map[], map[], map[], map[], map[], map[], 0;
    }

    method CopyCategories(source: nat, target: nat) returns (m: map<nat, nat>)
      requires Numbered(State())
      modifies this
      ensures Numbered(State()) && old(next) <= next
      ensures State() == old(State()).(categories := categories, next := next)
      ensures NewRows(old(categories), categories, CategoriesOf(old(State()), source), m, old(next), next)
      ensures forall k :: k in m ==> categories[m[k]] == Category(target, old(categories)[k].card)
    {
      categories, m, next := CreateFrom(categories, CategoriesOf(State(), source), (r: Category) => Category(target, r.card), next);
    }

    method CopyItems(source: nat, target: nat, filed: map<nat, nat>, ghost t: Tables) returns (m: map<nat, nat>)
      requires Numbered(State()) && items == t.items && filed.Keys == CategoriesOf(t, source)
      modifies this
      ensures Numbered(State()) && old(next) <= next
      ensures State() == old(State()).(items := items, next := next)
      ensures NewRows(old(items), items, CopiedItems(t, source), m, old(next), next)
      ensures forall k :: k in m ==>
                && old(items)[k].category in filed
                && items[m[k]] == Item(target, filed[old(items)[k].category], old(items)[k].card, NEWBORN)
    {
      var ids := set k | k in items && items[k].restaurant == source && !items[k].life.deleted && items[k].category in filed;
      assert ids == CopiedItems(t, source);
      items, m, next := CreateFrom(items, ids, (r: Item) requires r.category in filed => Item(target, filed[r.category], r.card, NEWBORN), next);
    }

    method CopyGroups(placed: map<nat, nat>) returns (m: map<nat, nat>)
      requires Numbered(State())
      modifies this
      ensures Numbered(State()) && old(next) <= next
      ensures State() == old(State()).(groups := groups, next := next)
      ensures NewRows(old(groups), groups, GroupsOf(old(State()), placed.Keys), m, old(next), next)
      ensures forall k :: k in m ==>
                old(groups)[k].item in placed && groups[m[k]] == old(groups)[k].(item := placed[old(groups)[k].item])
    {
      groups, m, next := CreateFrom(groups, GroupsOf(State(), placed.Keys),
                                    (r: Group) requires r.item in placed => r.(item := placed[r.item]), next);
    }

    method CopyChoices(grouped: map<nat, nat>) returns (m: map<nat, nat>)
      requires Numbered(State())
      modifies this
      ensures Numbered(State()) && old(next) <= next
      ensures State() == old(State()).(choices := choices, next := next)
      ensures NewRows(old(choices), choices, ChoicesOf(old(State()), grouped.Keys), m, old(next), next)
      ensures forall k :: k in m ==>
                old(choices)[k].group in grouped && choices[m[k]] == old(choices)[k].(group := grouped[old(choices)[k].group])
    {
      choices, m, next := CreateFrom(choices, ChoicesOf(State(), grouped.Keys),
                                     (r: Choice) requires r.group in grouped => r.(group := grouped[r.group]), next);
    }

    method CopyVariants(placed: map<nat, nat>) returns (m: map<nat, nat>)
      requires Numbered(State())
      modifies this
      ensures Numbered(State()) && old(next) <= next
      ensures State() == old(State()).(variants := variants, next := next)
      ensures NewRows(old(variants), variants, VariantsOf(old(State()), placed.Keys), m, old(next), next)
      ensures forall k :: k in m ==>
                old(variants)[k].item in placed && variants[m[k]] == old(variants)[k].(item := placed[old(variants)[k].item])
    {
      variants, m, next := CreateFrom(variants, VariantsOf(State(), placed.Keys),
                                      (r: Variant) requires r.item in placed => r.(item := placed[r.item]), next);
    }

    method CopyTemplates(source: nat, target: nat) returns (m: map<nat, nat>)
      requires Numbered(State())
      modifies this
      ensures Numbered(State()) && old(next) <= next
      ensures State() == old(State()).(templates := templates, next := next)
      ensures NewRows(old(templates), templates, TemplatesOf(old(State()), source), m, old(next), next)
      ensures forall k :: k in m ==> templates[m[k]] == old(templates)[k].(restaurant := target)
    {
      templates, m, next := CreateFrom(templates, TemplatesOf(State(), source), (r: Template) => r.(restaurant := target), next);
    }

    /** The number returned is that of the items copied. */
    method CopyCatalogue(source: nat, target: nat) returns (count: nat, ghost c: Correspondence)
      requires Numbered(State()) && source != target
      modifies this
      ensures Numbered(State())
      ensures Isomorphic(old(State()), State(), source, target, c)
      ensures count == |CopiedItems(old(State()), source)|
    {
      ghost var t, lo := State(), next;
      var filed := CopyCategories(source, target);
      ghost var n1 := next;
      var placed := CopyItems(source, target, filed, t);
      ghost var n2 := next;
      var grouped := CopyGroups(placed);
      ghost var n3 := next;
      var chosen := CopyChoices(grouped);
      ghost var n4 := next;
      var sized := CopyVariants(placed);
      ghost var n5 := next;
      var modelled := CopyTemplates(source, target);
      c := Correspondence(filed, placed, grouped, chosen, sized, modelled);
      WidenRows(t.categories, categories, CategoriesOf(t, source), filed, lo, n1, lo, next);
      WidenRows(t.items, items, CopiedItems(t, source), placed, n1, n2, lo, next);
      assert Isomorphic1(t, State(), source, target, c);
      WidenRows(t.groups, groups, GroupsOf(t, placed.Keys), grouped, n2, n3, lo, next);
      WidenRows(t.choices, choices, ChoicesOf(t, grouped.Keys), chosen, n3, n4, lo, next);
      WidenRows(t.variants, variants, VariantsOf(t, placed.Keys), sized, n4, n5, lo, next);
      WidenRows(t.templates, templates, TemplatesOf(t, source), modelled, n5, next, lo, next);
      assert Isomorphic2(t, State(), source, target, c);
      count := |placed.Keys|;
    }
  }

  // ------------------------------------------------------------------ consequences

  /** The part of the tables that a copy is about, told row by row. */
  predicate OnTheMenu(t: Tables, source: nat, item: nat) {
    && item in t.items && t.items[item].restaurant == source && !t.items[item].life.deleted
    && t.items[item].category in t.categories && t.categories[t.items[item].category].restaurant == source
  }

  /** Everything of the menu has its copy and nothing else has: categories, dishes that
      are not deleted and filed under them, their groups, options and sizes, and the
      templates. Each copy is its row with the links and the restaurant replaced, and a
      dish starts its life anew. */
  lemma WholeMenuIsCopied(t: Tables, u: Tables, source: nat, target: nat, c: Correspondence)
    requires Isomorphic(t, u, source, target, c)
    ensures forall k :: k in c.categories <==> k in t.categories && t.categories[k].restaurant == source
    ensures forall k :: k in c.items <==> OnTheMenu(t, source, k)
    ensures forall k :: k in c.groups <==> k in t.groups && OnTheMenu(t, source, t.groups[k].item)
    ensures forall k :: k in c.choices <==> k in t.choices && t.choices[k].group in t.groups && OnTheMenu(t, source, t.groups[t.choices[k].group].item)
    ensures forall k :: k in c.variants <==> k in t.variants && OnTheMenu(t, source, t.variants[k].item)
    ensures forall k :: k in c.templates <==> k in t.templates && t.templates[k].restaurant == source
  {
    DishesAreCopied(t, u, source, target, c);
    PartsAreCopied(t, source, c);
    assert c.templates.Keys == TemplatesOf(t, source);
    assert forall k :: k in c.templates <==> k in TemplatesOf(t, source);
  }

  lemma PartsAreCopied(t: Tables, source: nat, c: Correspondence)
    requires forall k :: k in c.items <==> OnTheMenu(t, source, k)
    requires c.groups.Keys == GroupsOf(t, c.items.Keys) && c.choices.Keys == ChoicesOf(t, c.groups.Keys)
    requires c.variants.Keys == VariantsOf(t, c.items.Keys)
    ensures forall k :: k in c.groups <==> k in t.groups && OnTheMenu(t, source, t.groups[k].item)
    ensures forall k :: k in c.choices <==> k in t.choices && t.choices[k].group in t.groups && OnTheMenu(t, source, t.groups[t.choices[k].group].item)
    ensures forall k :: k in c.variants <==> k in t.variants && OnTheMenu(t, source, t.variants[k].item)
  {
    forall k ensures k in c.groups <==> k in t.groups && t.groups[k].item in c.items {
      assert k in c.groups <==> k in GroupsOf(t, c.items.Keys);
    }
    forall k ensures k in c.choices <==> k in t.choices && t.choices[k].group in c.groups {
      assert k in c.choices <==> k in ChoicesOf(t, c.groups.Keys);
    }
    forall k ensures k in c.variants <==> k in t.variants && t.variants[k].item in c.items {
      assert k in c.variants <==> k in VariantsOf(t, c.items.Keys);
    }
  }

  lemma DishesAreCopied(t: Tables, u: Tables, source: nat, target: nat, c: Correspondence)
    requires Isomorphic1(t, u, source, target, c)
    ensures forall k :: k in c.categories <==> k in t.categories && t.categories[k].restaurant == source
    ensures forall k :: k in c.items <==> OnTheMenu(t, source, k)
  {
    forall k ensures k in c.categories <==> k in t.categories && t.categories[k].restaurant == source {
      assert k in c.categories <==> k in CategoriesOf(t, source);
    }
    forall k ensures k in c.items <==> OnTheMenu(t, source, k) {
      assert k in c.items <==> k in CopiedItems(t, source);
    }
  }

  /** A copied dish is not sold out, popular or rated because its original was. */
  lemma CopiesAreNewborn(t: Tables, u: Tables, source: nat, target: nat, c: Correspondence, k: nat)
    requires Isomorphic(t, u, source, target, c) && k in c.items
    ensures k in t.items && c.items[k] in u.items
    ensures var copy := u.items[c.items[k]];
            && copy.restaurant == target && copy.card == t.items[k].card
            && copy.life == Life(0, false, 0, 0, false)
  {
  }

  /** No copy points into the source: every link of a new row leads to a new row. */
  lemma CopiesPointToCopies(t: Tables, u: Tables, source: nat, target: nat, c: Correspondence)
    requires Numbered(t) && Isomorphic(t, u, source, target, c)
    ensures forall k :: k in u.items && k !in t.items ==> t.next <= u.items[k].category && u.items[k].category in u.categories
    ensures forall k :: k in u.groups && k !in t.groups ==> t.next <= u.groups[k].item && u.groups[k].item in u.items
    ensures forall k :: k in u.choices && k !in t.choices ==> t.next <= u.choices[k].group && u.choices[k].group in u.groups
    ensures forall k :: k in u.variants && k !in t.variants ==> t.next <= u.variants[k].item && u.variants[k].item in u.items
  {
    ItemsPointToCopies(t, u, source, target, c);
    GroupsPointToCopies(t, u, source, target, c);
    ChoicesPointToCopies(t, u, source, target, c);
    VariantsPointToCopies(t, u, source, target, c);
  }

  lemma GroupsPointToCopies(t: Tables, u: Tables, source: nat, target: nat, c: Correspondence)
    requires Isomorphic(t, u, source, target, c)
    ensures forall k :: k in u.groups && k !in t.groups ==> t.next <= u.groups[k].item && u.groups[k].item in u.items
  {
    forall k | k in u.groups && k !in t.groups ensures t.next <= u.groups[k].item && u.groups[k].item in u.items {
      var s :| s in c.groups && c.groups[s] == k;
    }
  }

  lemma ChoicesPointToCopies(t: Tables, u: Tables, source: nat, target: nat, c: Correspondence)
    requires Isomorphic2(t, u, source, target, c)
    ensures forall k :: k in u.choices && k !in t.choices ==> t.next <= u.choices[k].group && u.choices[k].group in u.groups
  {
    forall k | k in u.choices && k !in t.choices ensures t.next <= u.choices[k].group && u.choices[k].group in u.groups {
      var s :| s in c.choices && c.choices[s] == k;
    }
  }

  lemma VariantsPointToCopies(t: Tables, u: Tables, source: nat, target: nat, c: Correspondence)
    requires Isomorphic(t, u, source, target, c)
    ensures forall k :: k in u.variants && k !in t.variants ==> t.next <= u.variants[k].item && u.variants[k].item in u.items
  {
    forall k | k in u.variants && k !in t.variants ensures t.next <= u.variants[k].item && u.variants[k].item in u.items {
      var s :| s in c.variants && c.variants[s] == k;
    }
  }

  lemma ItemsPointToCopies(t: Tables, u: Tables, source: nat, target: nat, c: Correspondence)
    requires Isomorphic1(t, u, source, target, c)
    ensures forall k :: k in u.items && k !in t.items ==> t.next <= u.items[k].category && u.items[k].category in u.categories
  {
    forall k | k in u.items && k !in t.items ensures t.next <= u.items[k].category && u.items[k].category in u.categories {
      var s :| s in c.items && c.items[s] == k;
    }
  }

  lemma NewRowsAreTheTargets(t: Tables, u: Tables, source: nat, target: nat, c: Correspondence)
    requires Isomorphic(t, u, source, target, c)
    ensures forall k :: k in u.categories && k !in t.categories ==> u.categories[k].restaurant == target
    ensures forall k :: k in u.items && k !in t.items ==> u.items[k].restaurant == target && !u.items[k].life.deleted
    ensures forall k :: k in u.templates && k !in t.templates ==> u.templates[k].restaurant == target
  {
  }

  /** The source is untouched: what any restaurant other than the target shows is
      what it showed, links included. */
  lemma SourceIsUntouched(t: Tables, u: Tables, source: nat, target: nat, c: Correspondence, other: nat)
    requires Isomorphic(t, u, source, target, c) && other != target
    ensures CategoriesOf(u, other) == CategoriesOf(t, other) && AliveItemsOf(u, other) == AliveItemsOf(t, other)
    ensures TemplatesOf(u, other) == TemplatesOf(t, other)
    ensures forall k :: k in AliveItemsOf(t, other) ==> k in u.items && u.items[k] == t.items[k]
  {
    NewRowsAreTheTargets(t, u, source, target, c);
    assert CategoriesOf(u, other) == CategoriesOf(t, other);
    assert AliveItemsOf(u, other) == AliveItemsOf(t, other);
    assert TemplatesOf(u, other) == TemplatesOf(t, other);
  }

  lemma TargetCategoriesAreCopies(t: Tables, u: Tables, source: nat, target: nat, c: Correspondence)
    requires Numbered(t) && Isomorphic1(t, u, source, target, c) && CategoriesOf(t, target) == {}
    ensures CategoriesOf(u, target) == c.categories.Values
  {
    forall k ensures k in CategoriesOf(u, target) <==> k in c.categories.Values {
      assert k in t.categories && t.categories[k].restaurant == target <==> k in CategoriesOf(t, target);
    }
  }

  lemma TargetItemsAreCopies(t: Tables, u: Tables, source: nat, target: nat, c: Correspondence)
    requires Numbered(t) && Isomorphic1(t, u, source, target, c) && AliveItemsOf(t, target) == {}
    ensures AliveItemsOf(u, target) == c.items.Values
  {
    forall k ensures k in AliveItemsOf(u, target) <==> k in c.items.Values {
      assert k in t.items && t.items[k].restaurant == target && !t.items[k].life.deleted <==> k in AliveItemsOf(t, target);
    }
  }

  /** A target that had nothing ends with exactly the copies, and each of them is
      on its menu: the copy could itself be copied whole. */
  lemma TargetMenuIsTheCopy(t: Tables, u: Tables, source: nat, target: nat, c: Correspondence)
    requires Numbered(t) && Isomorphic(t, u, source, target, c)
    requires CategoriesOf(t, target) == {} && AliveItemsOf(t, target) == {}
    ensures CategoriesOf(u, target) == c.categories.Values
    ensures AliveItemsOf(u, target) == c.items.Values && CopiedItems(u, target) == c.items.Values
  {
    TargetCategoriesAreCopies(t, u, source, target, c);
    TargetItemsAreCopies(t, u, source, target, c);
    CopiesAreFiled(t, u, source, target, c);
    assert CopiedItems(u, target) == AliveItemsOf(u, target);
  }

  lemma CopiesAreFiled(t: Tables, u: Tables, source: nat, target: nat, c: Correspondence)
    requires Isomorphic1(t, u, source, target, c)
    ensures forall k :: k in c.items.Values ==> k in u.items && u.items[k].category in c.categories.Values
  {
    forall k | k in c.items.Values ensures k in u.items && u.items[k].category in c.categories.Values {
      var s :| s in c.items && c.items[s] == k;
    }
  }

  /** The number returned is that of the alive items exactly when each of them is
      filed under a category of its own restaurant. */
  lemma CountIsAliveIff(t: Tables, source: nat)
    ensures |CopiedItems(t, source)| == |AliveItemsOf(t, source)| <==>
            forall k :: k in AliveItemsOf(t, source) ==> t.items[k].category in CategoriesOf(t, source)
  {
    var copied, alive := CopiedItems(t, source), AliveItemsOf(t, source);
    assert copied <= alive;
    var passed := alive - copied;
    assert alive == copied + passed && |alive| == |copied| + |passed|;
    if passed != {} {
      var k :| k in passed;
      assert t.items[k].category !in CategoriesOf(t, source);
    } else {
      assert copied == alive;
    }
  }
}

/** The basket of one client in one kitchen (apps/carts/services.py, views.py):
    lines merged on what distinguishes them, and prices read from the menu. */
module Carts {
  import opened Wrappers
  import opened Rounding
  import opened Moneys
  import opened Catalogue
  import opened Availability

  /** Largest value of the quantity column. */
  const MAX_QUANTITY: int := 32767

  datatype Menu = Menu(items: map<nat, Item>, choices: map<nat, Choice>, variants: map<nat, Variant>)

  /** No amount is stored on a line. */
  datatype Line = Line(id: nat, item: nat, variant: Option<nat>, notes: string, options: seq<nat>, quantity: int)

  /** What tells two lines apart. */
  datatype Key = Key(item: nat, variant: Option<nat>, notes: string, options: set<nat>)

  datatype Basket = Basket(kitchen: nat, currency: string, lines: seq<Line>, next: nat)

  datatype CartError =
    | NoSuchLine
    | NotOfThisKitchen
    | NotServed
    | WrongCurrency
    | Refused(why: Unavailability)
    | OptionNotServed(option: nat)
    | IntegrityError

  type Reply = Result<nat, CartError>

  function Set(s: seq<nat>): set<nat> {
    set o | o in s
  }

  function KeyOf(l: Line): Key {
    Key(l.item, l.variant, l.notes, Set(l.options))
  }

  predicate NoDuplicates(s: seq<nat>) {
    forall i, j :: 0 <= i < j < |s| ==> s[i] != s[j]
  }

  predicate InRange(quantity: int) {
    1 <= quantity <= MAX_QUANTITY
  }

  /** What the tables guarantee: positive quantities, one row per line and option. */
  ghost predicate Stored(b: Basket) {
    && (forall i :: 0 <= i < |b.lines| ==> b.lines[i].id < b.next && InRange(b.lines[i].quantity) && NoDuplicates(b.lines[i].options))
    && (forall i, j :: 0 <= i < j < |b.lines| ==> b.lines[i].id != b.lines[j].id)
  }

  /** No two lines that nothing tells apart. */
  ghost predicate Canonical(lines: seq<Line>) {
    forall i, j :: 0 <= i < j < |lines| ==> KeyOf(lines[i]) != KeyOf(lines[j])
  }

  ghost predicate Knows(menu: Menu, item: nat, options: seq<nat>, variant: Option<nat>) {
    item in menu.items && (forall o :: o in options ==> o in menu.choices) && (variant.Some? ==> variant.value in menu.variants)
  }

  function Choices(menu: Menu, options: seq<nat>): (r: seq<Choice>)
    requires forall o :: o in options ==> o in menu.choices
    ensures |r| == |options| && forall i :: 0 <= i < |r| ==> r[i] == menu.choices[options[i]]
  {
    seq(|options|, i requires 0 <= i < |options| => menu.choices[options[i]])
  }

  function Size(menu: Menu, variant: Option<nat>): Option<Variant>
    requires variant.Some? ==> variant.value in menu.variants
  {
    if variant.Some? then Some(menu.variants[variant.value]) else None
  }

  // ------------------------------------------------------------------ admission

  function FirstUnserved(menu: Menu, options: seq<nat>): Option<nat>
    requires forall o :: o in options ==> o in menu.choices
  {
    if options == [] then None
    else if !menu.choices[options[0]].available then Some(options[0])
    else FirstUnserved(menu, options[1..])
  }

  /** What `add_line` and `update_line` both refuse, in their order. */
  function Admission(menu: Menu, b: Basket, item: nat, options: seq<nat>, variant: Option<nat>): Option<CartError>
    requires Knows(menu, item, options, variant)
  {
    var it := menu.items[item];
    var custom := CustomizationVerdict(it, Choices(menu, options), Size(menu, variant));
    var verdict := ItemVerdict(it, [], 1);
    if it.kitchen != b.kitchen then Some(NotOfThisKitchen)
    else if verdict == Some(ItemWithdrawn) || verdict == Some(ItemUnavailable) then Some(NotServed)
    else if it.price.currency != b.currency then Some(WrongCurrency)
    else if custom.Some? then Some(Refused(custom.value))
    else match FirstUnserved(menu, options)
      case Some(o) => Some(OptionNotServed(o))
      case None => None
  }

  // -------------------------------------------------------------------- the calls

  /** `_identical_line`: the oldest other line with this key. */
  function Twin(lines: seq<Line>, key: Key, exclude: Option<nat>): (r: Option<nat>)
    ensures match r
            case Some(i) => i < |lines| && KeyOf(lines[i]) == key && Some(lines[i].id) != exclude
                            && forall j :: 0 <= j < i ==> KeyOf(lines[j]) != key || Some(lines[j].id) == exclude
            case None => forall j :: 0 <= j < |lines| ==> KeyOf(lines[j]) != key || Some(lines[j].id) == exclude
    decreases |lines|
  {
    if lines == [] then None
    else
      var n := |lines| - 1;
      match Twin(lines[..n], key, exclude)
      case Some(i) => Some(i)
      case None => if KeyOf(lines[n]) == key && Some(lines[n].id) != exclude then Some(n) else None
  }

  function Find(lines: seq<Line>, id: nat): (r: Option<nat>)
    ensures match r
            case Some(i) => i < |lines| && lines[i].id == id
            case None => forall j :: 0 <= j < |lines| ==> lines[j].id != id
    decreases |lines|
  {
    if lines == [] then None
    else if lines[|lines| - 1].id == id then Some(|lines| - 1)
    else Find(lines[..|lines| - 1], id)
  }

  function Raise(lines: seq<Line>, i: nat, extra: int): seq<Line>
    requires i < |lines|
  {
    lines[i := lines[i].(quantity := lines[i].quantity + extra)]
  }

  function Without(lines: seq<Line>, i: nat): seq<Line>
    requires i < |lines|
  {
    lines[..i] + lines[i + 1..]
  }

  function AddLine(menu: Menu, b: Basket, item: nat, quantity: int, options: seq<nat>, notes: string, variant: Option<nat>): (Basket, Reply)
    requires Knows(menu, item, options, variant)
  {
    match Admission(menu, b, item, options, variant)
    case Some(why) => (b, Failure(why))
    case None =>
      match Twin(b.lines, Key(item, variant, notes, Set(options)), None)
      case Some(i) =>
        if InRange(b.lines[i].quantity + quantity) then (b.(lines := Raise(b.lines, i, quantity)), Success(b.lines[i].id))
        else (b, Failure(IntegrityError))
      case None =>
        if InRange(quantity) && NoDuplicates(options)
        then (b.(lines := b.lines + [Line(b.next, item, variant, notes, options, quantity)], next := b.next + 1), Success(b.next))
        else (b, Failure(IntegrityError))
  }

  function Rewritten(l: Line, options: seq<nat>, quantity: Option<int>, notes: Option<string>, variant: Option<nat>): Line {
    l.(options := options, variant := variant,
       quantity := if quantity.Some? then quantity.value else l.quantity,
       notes := if notes.Some? then notes.value else l.notes)
  }

  function UpdateLine(menu: Menu, b: Basket, i: nat, options: seq<nat>, quantity: Option<int>, notes: Option<string>, variant: Option<nat>)
    : (Basket, Reply)
    requires i < |b.lines| && Knows(menu, b.lines[i].item, options, variant)
  {
    var l := Rewritten(b.lines[i], options, quantity, notes, variant);
    match Admission(menu, b, l.item, options, variant)
    case Some(why) => (b, Failure(why))
    case None =>
      if !InRange(l.quantity) || !NoDuplicates(options) then (b, Failure(IntegrityError))
      else match Twin(b.lines[i := l], KeyOf(l), Some(l.id))
        case None => (b.(lines := b.lines[i := l]), Success(l.id))
        case Some(j) =>
          if !InRange(b.lines[i := l][j].quantity + l.quantity) then (b, Failure(IntegrityError))
          else (b.(lines := Without(Raise(b.lines[i := l], j, l.quantity), i)), Success(b.lines[i := l][j].id))
  }

  function SetQuantity(b: Basket, i: nat, quantity: int): (Basket, Reply)
    requires i < |b.lines|
  {
    if InRange(quantity) then (b.(lines := b.lines[i := b.lines[i].(quantity := quantity)]), Success(b.lines[i].id))
    else (b, Failure(IntegrityError))
  }

  function SetNotes(b: Basket, i: nat, notes: string): Basket
    requires i < |b.lines|
  {
    b.(lines := b.lines[i := b.lines[i].(notes := notes)])
  }

  /** What a PATCH carries: absent fields stay as they are. */
  datatype Changes = Changes(options: Option<seq<nat>>, variant: Option<Option<nat>>, quantity: Option<int>, notes: Option<string>)

  predicate Recomposes(c: Changes) {
    c.options.Some? || c.variant.Some?
  }

  function NewOptions(l: Line, c: Changes): seq<nat> {
    if c.options.Some? then c.options.value else l.options
  }

  function NewVariant(l: Line, c: Changes): Option<nat> {
    if c.variant.Some? then c.variant.value else l.variant
  }

  /** The view's short path writes notes and quantity one after the other, with
      no service call for the notes. */
  function Patch(menu: Menu, b: Basket, i: nat, c: Changes): (Basket, Reply)
    requires i < |b.lines| && Knows(menu, b.lines[i].item, NewOptions(b.lines[i], c), NewVariant(b.lines[i], c))
  {
    var l := b.lines[i];
    if Recomposes(c) then UpdateLine(menu, b, i, NewOptions(l, c), c.quantity, c.notes, NewVariant(l, c))
    else
      var noted := if c.notes.Some? then SetNotes(b, i, c.notes.value) else b;
      if c.quantity.Some? then SetQuantity(noted, i, c.quantity.value) else (noted, Success(l.id))
  }

  // ---------------------------------------------------------------- canonical form

  lemma AppendKeepsForm(b: Basket, l: Line)
    requires Stored(b) && l.id == b.next && InRange(l.quantity) && NoDuplicates(l.options)
    requires forall j :: 0 <= j < |b.lines| ==> KeyOf(b.lines[j]) != KeyOf(l)
    ensures Stored(b.(lines := b.lines + [l], next := b.next + 1))
    ensures Canonical(b.lines) ==> Canonical(b.lines + [l])
  {
  }

  lemma RaiseKeepsForm(b: Basket, i: nat, extra: int)
    requires Stored(b) && i < |b.lines| && InRange(b.lines[i].quantity + extra)
    ensures Stored(b.(lines := Raise(b.lines, i, extra)))
    ensures Canonical(b.lines) ==> Canonical(Raise(b.lines, i, extra))
  {
    var lines := Raise(b.lines, i, extra);
    assert forall j :: 0 <= j < |lines| ==> KeyOf(lines[j]) == KeyOf(b.lines[j]);
  }

  lemma AddKeepsForm(menu: Menu, b: Basket, item: nat, quantity: int, options: seq<nat>, notes: string, variant: Option<nat>)
    requires Stored(b) && Knows(menu, item, options, variant)
    ensures var v := AddLine(menu, b, item, quantity, options, notes, variant).0;
            Stored(v) && (Canonical(b.lines) ==> Canonical(v.lines))
  {
    if AddLine(menu, b, item, quantity, options, notes, variant).1.Success? {
      match Twin(b.lines, Key(item, variant, notes, Set(options)), None)
      case Some(i) => RaiseKeepsForm(b, i, quantity);
      case None => AppendKeepsForm(b, Line(b.next, item, variant, notes, options, quantity));
    }
  }

  lemma RewriteKeepsStored(b: Basket, i: nat, l: Line)
    requires Stored(b) && i < |b.lines| && l.id == b.lines[i].id && InRange(l.quantity) && NoDuplicates(l.options)
    ensures Stored(b.(lines := b.lines[i := l]))
  {
  }

  lemma RemovalKeepsForm(b: Basket, i: nat)
    requires Stored(b) && i < |b.lines|
    ensures Stored(b.(lines := Without(b.lines, i)))
    ensures Canonical(b.lines) ==> Canonical(Without(b.lines, i))
  {
    var lines := Without(b.lines, i);
    assert forall k :: 0 <= k < |lines| ==> lines[k] == b.lines[if k < i then k else k + 1];
  }

  lemma UpdateKeepsStored(menu: Menu, b: Basket, i: nat, options: seq<nat>, quantity: Option<int>, notes: Option<string>, variant: Option<nat>)
    requires Stored(b) && i < |b.lines| && Knows(menu, b.lines[i].item, options, variant)
    ensures Stored(UpdateLine(menu, b, i, options, quantity, notes, variant).0)
  {
    if UpdateLine(menu, b, i, options, quantity, notes, variant).1.Success? {
      var l := Rewritten(b.lines[i], options, quantity, notes, variant);
      var rewritten := b.(lines := b.lines[i := l]);
      RewriteKeepsStored(b, i, l);
      match Twin(rewritten.lines, KeyOf(l), Some(l.id))
      case None =>
      case Some(j) =>
        RaiseKeepsForm(rewritten, j, l.quantity);
        RemovalKeepsForm(rewritten.(lines := Raise(rewritten.lines, j, l.quantity)), i);
    }
  }

  lemma AloneKeepsCanonical(lines: seq<Line>, i: nat, l: Line)
    requires Canonical(lines) && i < |lines| && l.id == lines[i].id
    requires forall j, k :: 0 <= j < k < |lines| ==> lines[j].id != lines[k].id
    requires Twin(lines[i := l], KeyOf(l), Some(l.id)) == None
    ensures Canonical(lines[i := l])
  {
    var after := lines[i := l];
    forall j | 0 <= j < |lines| && j != i ensures KeyOf(after[j]) != KeyOf(l) {
      assert lines[j].id != l.id;
    }
  }

  /** The raised twin keeps its key, and the rewritten line goes. */
  lemma MergedKeepsCanonical(lines: seq<Line>, i: nat, l: Line, j: nat, extra: int, merged: seq<Line>)
    requires Canonical(lines) && i < |lines| && j < |lines| && i != j
    requires merged == Without(Raise(lines[i := l], j, extra), i)
    ensures Canonical(merged)
  {
    forall k | 0 <= k < |merged| ensures KeyOf(merged[k]) == KeyOf(lines[if k < i then k else k + 1]) {
    }
  }

  /** Merging with the oldest twin is enough, and the rewritten line itself never
      counts as its own twin. */
  lemma UpdateKeepsCanonical(menu: Menu, b: Basket, i: nat, options: seq<nat>, quantity: Option<int>, notes: Option<string>, variant: Option<nat>)
    requires Stored(b) && Canonical(b.lines) && i < |b.lines| && Knows(menu, b.lines[i].item, options, variant)
    ensures Canonical(UpdateLine(menu, b, i, options, quantity, notes, variant).0.lines)
  {
    var (v, r) := UpdateLine(menu, b, i, options, quantity, notes, variant);
    if r.Success? {
      var l := Rewritten(b.lines[i], options, quantity, notes, variant);
      match Twin(b.lines[i := l], KeyOf(l), Some(l.id))
      case None => AloneKeepsCanonical(b.lines, i, l);
      case Some(j) => MergedKeepsCanonical(b.lines, i, l, j, l.quantity, v.lines);
    }
  }

  /** The short path of the view breaks the canonical form exactly when another
      line already has the new key. */
  lemma NotesPatchKeepsFormIff(b: Basket, i: nat, notes: string)
    requires Stored(b) && Canonical(b.lines) && i < |b.lines|
    ensures Stored(SetNotes(b, i, notes))
    ensures Canonical(SetNotes(b, i, notes).lines) <==>
            forall j :: 0 <= j < |b.lines| && j != i ==> KeyOf(b.lines[j]) != KeyOf(b.lines[i].(notes := notes))
  {
    var lines := SetNotes(b, i, notes).lines;
    assert KeyOf(lines[i]) == KeyOf(b.lines[i].(notes := notes));
    if Canonical(lines) {
      forall j | 0 <= j < |b.lines| && j != i ensures KeyOf(b.lines[j]) != KeyOf(lines[i]) {
        assert lines[j] == b.lines[j];
        assert if i < j then KeyOf(lines[i]) != KeyOf(lines[j]) else KeyOf(lines[j]) != KeyOf(lines[i]);
      }
    }
  }

  // ------------------------------------------------------------------------- runs

  datatype Op =
    | Add(item: nat, quantity: int, options: seq<nat>, notes: string, variant: Option<nat>)
    | Change(line: nat, changes: Changes)
    | SetTo(line: nat, quantity: int)
    | Remove(line: nat)
    | Clear

  /** The basket after one call; a menu that does not know what is asked stands
      for the 404 or 400 the caller gets. */
  function Step(menu: Menu, b: Basket, op: Op): Basket {
    match op
    case Add(item, quantity, options, notes, variant) =>
      if item in menu.items && (forall o :: o in options ==> o in menu.choices) && (variant.Some? ==> variant.value in menu.variants)
      then AddLine(menu, b, item, quantity, options, notes, variant).0 else b
    case Change(line, c) =>
      (match Find(b.lines, line)
       case None => b
       case Some(i) =>
         var l := b.lines[i];
         if l.item in menu.items && (forall o :: o in NewOptions(l, c) ==> o in menu.choices)
            && (NewVariant(l, c).Some? ==> NewVariant(l, c).value in menu.variants)
         then Patch(menu, b, i, c).0 else b)
    case SetTo(line, quantity) =>
      (match Find(b.lines, line)
       case None => b
       case Some(i) => SetQuantity(b, i, quantity).0)
    case Remove(line) =>
      (match Find(b.lines, line)
       case None => b
       case Some(i) => b.(lines := Without(b.lines, i)))
    case Clear => b.(lines := [])
  }

  predicate NotesOnly(op: Op) {
    op.Change? && !Recomposes(op.changes) && op.changes.notes.Some?
  }

  lemma PatchKeepsForm(menu: Menu, b: Basket, i: nat, c: Changes)
    requires Stored(b) && i < |b.lines| && Knows(menu, b.lines[i].item, NewOptions(b.lines[i], c), NewVariant(b.lines[i], c))
    ensures Stored(Patch(menu, b, i, c).0)
    ensures Canonical(b.lines) && (Recomposes(c) || c.notes == None) ==> Canonical(Patch(menu, b, i, c).0.lines)
  {
    if Recomposes(c) {
      UpdateKeepsStored(menu, b, i, NewOptions(b.lines[i], c), c.quantity, c.notes, NewVariant(b.lines[i], c));
      if Canonical(b.lines) {
        UpdateKeepsCanonical(menu, b, i, NewOptions(b.lines[i], c), c.quantity, c.notes, NewVariant(b.lines[i], c));
      }
    }
  }

  lemma SettingKeepsForm(b: Basket, i: nat, quantity: int)
    requires Stored(b) && i < |b.lines|
    ensures Stored(SetQuantity(b, i, quantity).0)
    ensures Canonical(b.lines) ==> Canonical(SetQuantity(b, i, quantity).0.lines)
  {
  }

  lemma StepKeepsForm(menu: Menu, b: Basket, op: Op)
    requires Stored(b)
    ensures Stored(Step(menu, b, op))
    ensures Canonical(b.lines) && !NotesOnly(op) ==> Canonical(Step(menu, b, op).lines)
  {
    if Step(menu, b, op) != b {
      match op
      case Add(item, quantity, options, notes, variant) => AddKeepsForm(menu, b, item, quantity, options, notes, variant);
      case Change(line, c) => PatchKeepsForm(menu, b, Find(b.lines, line).value, c);
      case SetTo(line, quantity) => SettingKeepsForm(b, Find(b.lines, line).value, quantity);
      case Remove(line) => RemovalKeepsForm(b, Find(b.lines, line).value);
      case Clear =>
    }
  }

  // ----------------------------------------------------------------------- pricing

  /** Every price that a line reads is in one currency. */
  predicate InCurrency(menu: Menu, l: Line, currency: string)
    requires Knows(menu, l.item, l.options, l.variant)
  {
    && (if l.variant.Some? then menu.variants[l.variant.value].price else menu.items[l.item].price).currency == currency
    && forall o :: o in l.options ==> menu.choices[o].delta.currency == currency
  }

  /** The size replaces the base price; the options add to it. */
  function Base(menu: Menu, l: Line): Money
    requires l.item in menu.items && (l.variant.Some? ==> l.variant.value in menu.variants)
  {
    if l.variant.Some? then menu.variants[l.variant.value].price else menu.items[l.item].price
  }

  function Deltas(menu: Menu, options: seq<nat>): int
    requires forall o :: o in options ==> o in menu.choices
  {
    if options == [] then 0
    else Deltas(menu, options[..|options| - 1]) + menu.choices[options[|options| - 1]].delta.minor
  }

  /** What each option adds. */
  function Extras(menu: Menu, options: seq<nat>): (r: seq<int>)
    requires forall o :: o in options ==> o in menu.choices
    ensures |r| == |options| && forall k :: 0 <= k < |r| ==> r[k] == menu.choices[options[k]].delta.minor
  {
    seq(|options|, k requires 0 <= k < |options| => menu.choices[options[k]].delta.minor)
  }

  lemma {:induction false} DeltasAreTheExtras(menu: Menu, options: seq<nat>)
    requires forall o :: o in options ==> o in menu.choices
    ensures Deltas(menu, options) == Sum(Extras(menu, options))
  {
    if options != [] {
      var n := |options| - 1;
      DeltasAreTheExtras(menu, options[..n]);
      assert Extras(menu, options)[..n] == Extras(menu, options[..n]);
    }
  }

  /** The unit price of a line: its size's price if it has one, else its dish's, and
      every option on top. */
  ghost predicate CostsUnit(menu: Menu, l: Line, unit: int)
    requires Knows(menu, l.item, l.options, l.variant)
  {
    unit == (match l.variant
             case Some(v) => menu.variants[v].price.minor
             case None => menu.items[l.item].price.minor) + Sum(Extras(menu, l.options))
  }

  lemma UnitPriceMeaning(menu: Menu, l: Line)
    requires Knows(menu, l.item, l.options, l.variant)
    ensures CostsUnit(menu, l, UnitPrice(menu, l)) && LineTotal(menu, l) == UnitPrice(menu, l) * l.quantity
  {
    DeltasAreTheExtras(menu, l.options);
  }

  function UnitPrice(menu: Menu, l: Line): int
    requires Knows(menu, l.item, l.options, l.variant)
  {
    Base(menu, l).minor + Deltas(menu, l.options)
  }

  function LineTotal(menu: Menu, l: Line): int
    requires Knows(menu, l.item, l.options, l.variant)
  {
    UnitPrice(menu, l) * l.quantity
  }

  ghost predicate KnowsAll(menu: Menu, lines: seq<Line>) {
    forall i :: 0 <= i < |lines| ==> Knows(menu, lines[i].item, lines[i].options, lines[i].variant)
  }

  function Totals(menu: Menu, lines: seq<Line>): (r: seq<int>)
    requires KnowsAll(menu, lines)
    ensures |r| == |lines|
  {
    seq(|lines|, i requires 0 <= i < |lines| => LineTotal(menu, lines[i]))
  }

  function Subtotal(menu: Menu, lines: seq<Line>): int
    requires KnowsAll(menu, lines)
  {
    Sum(Totals(menu, lines))
  }

  function Quantities(lines: seq<Line>): (r: seq<int>)
    ensures |r| == |lines| && forall i :: 0 <= i < |r| ==> r[i] == lines[i].quantity
  {
    seq(|lines|, i requires 0 <= i < |lines| => lines[i].quantity)
  }

  function Quantity(lines: seq<Line>): int {
    Sum(Quantities(lines))
  }

  lemma {:induction false} DeltasConcat(menu: Menu, a: seq<nat>, b: seq<nat>)
    requires forall o :: o in a + b ==> o in menu.choices
    ensures (forall o :: o in a ==> o in menu.choices) && forall o :: o in b ==> o in menu.choices
    ensures Deltas(menu, a + b) == Deltas(menu, a) + Deltas(menu, b)
  {
    assert forall o :: o in a || o in b ==> o in a + b;
    if b == [] {
      assert a + b == a;
    } else {
      assert (a + b)[..|a + b| - 1] == a + b[..|b| - 1];
      DeltasConcat(menu, a, b[..|b| - 1]);
    }
  }

  lemma WithoutOneOption(options: seq<nat>, i: nat)
    requires i < |options| && NoDuplicates(options)
    ensures var rest := options[..i] + options[i + 1..];
            && NoDuplicates(rest) && Set(rest) == Set(options) - {options[i]}
            && forall o :: o in rest ==> o in options
  {
    var rest := options[..i] + options[i + 1..];
    forall o | o in options && o != options[i] ensures o in rest {
      var k :| 0 <= k < |options| && options[k] == o;
      assert o == if k < i then rest[k] else rest[k - 1];
    }
    assert forall k :: 0 <= k < |rest| ==> rest[k] == options[if k < i then k else k + 1];
  }

  lemma DeltasWithout(menu: Menu, options: seq<nat>, i: nat)
    requires i < |options| && forall o :: o in options ==> o in menu.choices
    ensures forall o :: o in options[..i] + options[i + 1..] ==> o in menu.choices
    ensures Deltas(menu, options[..i] + options[i + 1..]) == Deltas(menu, options) - menu.choices[options[i]].delta.minor
  {
    var before, after := options[..i], options[i + 1..];
    assert options == before + [options[i]] + after;
    DeltasConcat(menu, before + [options[i]], after);
    DeltasConcat(menu, before, [options[i]]);
    DeltasConcat(menu, before, after);
    assert Deltas(menu, [options[i]]) == menu.choices[options[i]].delta.minor by {
      assert [options[i]][..0] == [];
    }
  }

  /** Two option lists without duplicates and with the same set cost the same. */
  lemma {:induction false} SameSetSameDeltas(menu: Menu, a: seq<nat>, b: seq<nat>)
    requires NoDuplicates(a) && NoDuplicates(b) && Set(a) == Set(b)
    requires (forall o :: o in a ==> o in menu.choices) && forall o :: o in b ==> o in menu.choices
    ensures Deltas(menu, a) == Deltas(menu, b)
    decreases |a|
  {
    assert forall o :: o in b <==> o in Set(b);
    assert forall o :: o in a <==> o in Set(a);
    assert forall k :: 0 <= k < |b| ==> b[k] in Set(b);
    if a != [] {
      assert a[0] in b;
      var i :| 0 <= i < |b| && b[i] == a[0];
      WithoutOneOption(a, 0);
      WithoutOneOption(b, i);
      DeltasWithout(menu, a, 0);
      DeltasWithout(menu, b, i);
      SameSetSameDeltas(menu, a[..0] + a[1..], b[..i] + b[i + 1..]);
    }
  }

  lemma SameKeySamePrice(menu: Menu, a: Line, b: Line)
    requires KeyOf(a) == KeyOf(b) && NoDuplicates(a.options) && NoDuplicates(b.options)
    requires Knows(menu, a.item, a.options, a.variant) && Knows(menu, b.item, b.options, b.variant)
    ensures UnitPrice(menu, a) == UnitPrice(menu, b)
  {
    SameSetSameDeltas(menu, a.options, b.options);
  }

  /** Totals of a basket where one line was rewritten. */
  lemma RewriteMovesTotals(menu: Menu, lines: seq<Line>, i: nat, l: Line)
    requires KnowsAll(menu, lines) && i < |lines| && Knows(menu, l.item, l.options, l.variant)
    ensures KnowsAll(menu, lines[i := l])
    ensures Subtotal(menu, lines[i := l]) == Subtotal(menu, lines) - LineTotal(menu, lines[i]) + LineTotal(menu, l)
    ensures Quantity(lines[i := l]) == Quantity(lines) - lines[i].quantity + l.quantity
  {
    assert Totals(menu, lines[i := l]) == Totals(menu, lines)[i := LineTotal(menu, l)];
    SumUpdate(Totals(menu, lines), i, LineTotal(menu, l));
    assert Quantities(lines[i := l]) == Quantities(lines)[i := l.quantity];
    SumUpdate(Quantities(lines), i, l.quantity);
  }

  lemma AppendMovesTotals(menu: Menu, lines: seq<Line>, l: Line)
    requires KnowsAll(menu, lines) && Knows(menu, l.item, l.options, l.variant)
    ensures KnowsAll(menu, lines + [l])
    ensures Subtotal(menu, lines + [l]) == Subtotal(menu, lines) + LineTotal(menu, l)
    ensures Quantity(lines + [l]) == Quantity(lines) + l.quantity
  {
    assert Totals(menu, lines + [l]) == Totals(menu, lines) + [LineTotal(menu, l)];
    SumAppend(Totals(menu, lines), LineTotal(menu, l));
    assert Quantities(lines + [l]) == Quantities(lines) + [l.quantity];
    SumAppend(Quantities(lines), l.quantity);
  }

  lemma SumParts(before: seq<int>, x: int, after: seq<int>)
    ensures Sum(before + after) == Sum(before + [x] + after) - x
  {
    SumConcat(before, after);
    SumConcat(before + [x], after);
    SumAppend(before, x);
  }

  lemma Reassembled(s: seq<int>, i: nat)
    requires i < |s|
    ensures s[..i] + [s[i]] + s[i + 1..] == s
  {
  }

  lemma SumWithout(s: seq<int>, i: nat)
    requires i < |s|
    ensures Sum(s[..i] + s[i + 1..]) == Sum(s) - s[i]
  {
    Reassembled(s, i);
    SumParts(s[..i], s[i], s[i + 1..]);
  }

  lemma RemovalMovesSubtotal(menu: Menu, lines: seq<Line>, i: nat)
    requires KnowsAll(menu, lines) && i < |lines|
    ensures KnowsAll(menu, Without(lines, i))
    ensures Subtotal(menu, Without(lines, i)) == Subtotal(menu, lines) - LineTotal(menu, lines[i])
  {
    var totals, after := Totals(menu, lines), Without(lines, i);
    assert Totals(menu, after) == totals[..i] + totals[i + 1..];
    SumWithout(totals, i);
  }

  lemma RemovalMovesQuantity(lines: seq<Line>, i: nat)
    requires i < |lines|
    ensures Quantity(Without(lines, i)) == Quantity(lines) - lines[i].quantity
  {
    assert Quantities(Without(lines, i)) == Quantities(lines)[..i] + Quantities(lines)[i + 1..];
    SumWithout(Quantities(lines), i);
  }

  lemma Distribute(unit: int, a: int, b: int)
    ensures unit * (a + b) == unit * a + unit * b
  {
  }

  /** Moving a quantity into a line with the same key moves its amount with it. */
  lemma RaiseConserves(menu: Menu, lines: seq<Line>, i: nat, l: Line)
    requires KnowsAll(menu, lines) && i < |lines| && KeyOf(lines[i]) == KeyOf(l)
    requires NoDuplicates(l.options) && NoDuplicates(lines[i].options) && Knows(menu, l.item, l.options, l.variant)
    ensures KnowsAll(menu, Raise(lines, i, l.quantity))
    ensures Quantity(Raise(lines, i, l.quantity)) == Quantity(lines) + l.quantity
    ensures Subtotal(menu, Raise(lines, i, l.quantity)) == Subtotal(menu, lines) + LineTotal(menu, l)
  {
    SameKeySamePrice(menu, lines[i], l);
    RewriteMovesTotals(menu, lines, i, lines[i].(quantity := lines[i].quantity + l.quantity));
    Distribute(UnitPrice(menu, l), lines[i].quantity, l.quantity);
  }

  /** What an addition comes to: some line with the key asked for has q more. */
  ghost predicate Grown(menu: Menu, before: seq<Line>, after: seq<Line>, i: nat, key: Key, quantity: int) {
    && KnowsAll(menu, before) && KnowsAll(menu, after) && i < |after| && KeyOf(after[i]) == key
    && Quantity(after) == Quantity(before) + quantity
    && Subtotal(menu, after) == Subtotal(menu, before) + UnitPrice(menu, after[i]) * quantity
  }

  lemma RaisedIsGrown(menu: Menu, lines: seq<Line>, i: nat, quantity: int)
    requires KnowsAll(menu, lines) && i < |lines| && NoDuplicates(lines[i].options)
    ensures Grown(menu, lines, Raise(lines, i, quantity), i, KeyOf(lines[i]), quantity)
  {
    RaiseConserves(menu, lines, i, lines[i].(quantity := quantity));
  }

  lemma AppendedIsGrown(menu: Menu, lines: seq<Line>, l: Line)
    requires KnowsAll(menu, lines) && Knows(menu, l.item, l.options, l.variant)
    ensures Grown(menu, lines, lines + [l], |lines|, KeyOf(l), l.quantity)
  {
    AppendMovesTotals(menu, lines, l);
  }

  /** `add_line` raises the quantity by q and the subtotal by q unit prices of the
      line it answers with, merged or not, also when an option was sent twice; a
      refusal changes nothing. */
  lemma AddConserves(menu: Menu, b: Basket, item: nat, quantity: int, options: seq<nat>, notes: string, variant: Option<nat>)
    requires Stored(b) && KnowsAll(menu, b.lines) && Knows(menu, item, options, variant)
    ensures var (v, r) := AddLine(menu, b, item, quantity, options, notes, variant);
            && (r.Failure? ==> v == b)
            && (r.Success? ==>
                  && Find(v.lines, r.value).Some?
                  && Grown(menu, b.lines, v.lines, Find(v.lines, r.value).value, Key(item, variant, notes, Set(options)), quantity))
  {
    var (v, r) := AddLine(menu, b, item, quantity, options, notes, variant);
    if r.Success? {
      AddKeepsForm(menu, b, item, quantity, options, notes, variant);
      match Twin(b.lines, Key(item, variant, notes, Set(options)), None)
      case None =>
        AppendedIsGrown(menu, b.lines, Line(b.next, item, variant, notes, options, quantity));
        FindIsThere(v.lines, |b.lines|);
      case Some(i) =>
        RaisedIsGrown(menu, b.lines, i, quantity);
        FindIsThere(v.lines, i);
    }
  }

  /** ... and that unit price is the one asked for. */
  lemma AddCostsWhatWasAsked(menu: Menu, b: Basket, item: nat, quantity: int, options: seq<nat>, notes: string, variant: Option<nat>)
    requires Stored(b) && KnowsAll(menu, b.lines) && Knows(menu, item, options, variant) && NoDuplicates(options)
    ensures var (v, r) := AddLine(menu, b, item, quantity, options, notes, variant);
            && KnowsAll(menu, v.lines)
            && (r.Success? ==>
                  Subtotal(menu, v.lines) == Subtotal(menu, b.lines) + LineTotal(menu, Line(b.next, item, variant, notes, options, quantity)))
  {
    var (v, r) := AddLine(menu, b, item, quantity, options, notes, variant);
    if r.Success? {
      AddConserves(menu, b, item, quantity, options, notes, variant);
      AddKeepsForm(menu, b, item, quantity, options, notes, variant);
      SameKeySamePrice(menu, v.lines[Find(v.lines, r.value).value], Line(b.next, item, variant, notes, options, quantity));
    }
  }

  lemma FindIsThere(lines: seq<Line>, i: nat)
    requires i < |lines| && forall j, k :: 0 <= j < k < |lines| ==> lines[j].id != lines[k].id
    ensures Find(lines, lines[i].id) == Some(i)
  {
    var found := Find(lines, lines[i].id);
    assert found.Some? && lines[found.value].id == lines[i].id;
  }

  /** `update_line` replaces the quantity and the amount of one line by those of
      its new form; merging twins loses no quantity and changes no price. */
  lemma UpdateConserves(menu: Menu, b: Basket, i: nat, options: seq<nat>, quantity: Option<int>, notes: Option<string>, variant: Option<nat>)
    requires Stored(b) && KnowsAll(menu, b.lines) && i < |b.lines| && Knows(menu, b.lines[i].item, options, variant)
    ensures var (v, r) := UpdateLine(menu, b, i, options, quantity, notes, variant);
            var l := Rewritten(b.lines[i], options, quantity, notes, variant);
            && KnowsAll(menu, v.lines)
            && (r.Failure? ==> v == b)
            && (r.Success? ==>
                  && Quantity(v.lines) == Quantity(b.lines) - b.lines[i].quantity + l.quantity
                  && Subtotal(menu, v.lines) == Subtotal(menu, b.lines) - LineTotal(menu, b.lines[i]) + LineTotal(menu, l))
  {
    var (v, r) := UpdateLine(menu, b, i, options, quantity, notes, variant);
    if r.Success? {
      var l := Rewritten(b.lines[i], options, quantity, notes, variant);
      RewriteMovesTotals(menu, b.lines, i, l);
      MergeConserves(menu, b.lines[i := l], i, Twin(b.lines[i := l], KeyOf(l), Some(l.id)));
    }
  }

  lemma MergeConserves(menu: Menu, lines: seq<Line>, i: nat, twin: Option<nat>)
    requires KnowsAll(menu, lines) && i < |lines| && NoDuplicates(lines[i].options)
    requires twin.Some? ==>
               && twin.value < |lines| && twin.value != i && KeyOf(lines[twin.value]) == KeyOf(lines[i])
               && NoDuplicates(lines[twin.value].options)
    ensures var merged := if twin.Some? then Without(Raise(lines, twin.value, lines[i].quantity), i) else lines;
            KnowsAll(menu, merged) && Quantity(merged) == Quantity(lines) && Subtotal(menu, merged) == Subtotal(menu, lines)
  {
    if twin.Some? {
      RaiseConserves(menu, lines, twin.value, lines[i]);
      RemovalMovesSubtotal(menu, Raise(lines, twin.value, lines[i].quantity), i);
      RemovalMovesQuantity(Raise(lines, twin.value, lines[i].quantity), i);
    }
  }

  lemma PullOut(lines: seq<Line>, i: nat)
    requires i < |lines|
    ensures multiset(Without(lines, i)) == multiset(lines) - multiset{lines[i]}
  {
    assert lines == lines[..i] + [lines[i]] + lines[i + 1..];
  }

  /** The subtotal is the same however the lines are ordered. */
  lemma {:induction false} SubtotalIgnoresOrder(menu: Menu, a: seq<Line>, b: seq<Line>)
    requires KnowsAll(menu, a) && KnowsAll(menu, b) && multiset(a) == multiset(b)
    ensures Subtotal(menu, a) == Subtotal(menu, b)
    decreases |a|
  {
    if a == [] {
      assert |multiset(b)| == 0;
      assert b == [];
    } else {
      assert a[0] in multiset(a);
      var i :| 0 <= i < |b| && b[i] == a[0];
      PullOut(a, 0);
      PullOut(b, i);
      RemovalMovesSubtotal(menu, a, 0);
      RemovalMovesSubtotal(menu, b, i);
      SubtotalIgnoresOrder(menu, Without(a, 0), Without(b, i));
    }
  }

  // ------------------------------------------------------------- the priced basket

  datatype PricedLine = PricedLine(line: Line, unit: int, total: int, verdict: Option<Unavailability>)

  datatype PricedSelection = PricedSelection(lines: seq<PricedLine>, subtotal: Money, kitchen: Option<nat>) {
    predicate IsOrderable() {
      kitchen == None && lines != [] && forall i :: 0 <= i < |lines| ==> lines[i].verdict == None
    }
  }

  function LineAmounts(lines: seq<PricedLine>): (r: seq<int>)
    ensures |r| == |lines| && forall i :: 0 <= i < |r| ==> r[i] == lines[i].total
  {
    seq(|lines|, i requires 0 <= i < |lines| => lines[i].total)
  }

  function AsDemand(menu: Menu, l: Line): Demand
    requires Knows(menu, l.item, l.options, l.variant)
  {
    Demand(menu.items[l.item], l.quantity, Choices(menu, l.options), Size(menu, l.variant))
  }

  function AsDemands(menu: Menu, lines: seq<Line>): (r: seq<Demand>)
    requires KnowsAll(menu, lines)
    ensures |r| == |lines| && forall i :: 0 <= i < |r| ==> r[i] == AsDemand(menu, lines[i])
  {
    seq(|lines|, i requires 0 <= i < |lines| => AsDemand(menu, lines[i]))
  }

  /** `unit += option.price_delta`, which raises on another currency. */
  method PriceUnit(menu: Menu, l: Line) returns (r: Result<Money, MoneyError>)
    requires Knows(menu, l.item, l.options, l.variant)
    ensures r.Success? <==> InCurrency(menu, l, Base(menu, l).currency)
    ensures r.Success? ==> r.value == Money(UnitPrice(menu, l), Base(menu, l).currency)
  {
    var unit := Base(menu, l);
    for k := 0 to |l.options|
      invariant unit == Money(Base(menu, l).minor + Deltas(menu, l.options[..k]), Base(menu, l).currency)
      invariant forall i :: 0 <= i < k ==> menu.choices[l.options[i]].delta.currency == unit.currency
    {
      assert l.options[..k + 1][..k] == l.options[..k];
      r := Moneys.Add(unit, menu.choices[l.options[k]].delta);
      if r.Failure? {
        assert l.options[k] in l.options;
        return;
      }
      unit := r.value;
    }
    assert l.options[..|l.options|] == l.options;
    r := Success(unit);
  }

  /** The first loop: unit prices and the running subtotal. */
  method PriceLines(menu: Menu, lines: seq<Line>, currency: string) returns (r: Result<Money, MoneyError>, units: seq<int>)
    requires KnowsAll(menu, lines)
    ensures r.Success? <==> forall i :: 0 <= i < |lines| ==> InCurrency(menu, lines[i], currency)
    ensures r.Success? ==>
              && r.value == Money(Subtotal(menu, lines), currency)
              && |units| == |lines| && forall i :: 0 <= i < |lines| ==> units[i] == UnitPrice(menu, lines[i])
  {
    var subtotal := Money(0, currency);
    units := [];
    for k := 0 to |lines|
      invariant KnowsAll(menu, lines[..k]) && subtotal == Money(Subtotal(menu, lines[..k]), currency)
      invariant |units| == k && forall i :: 0 <= i < k ==> units[i] == UnitPrice(menu, lines[i]) && InCurrency(menu, lines[i], currency)
    {
      var unit := PriceUnit(menu, lines[k]);
      if unit.Failure? {
        return Failure(unit.error), [];
      }
      r := Moneys.Add(subtotal, Money(unit.value.minor * lines[k].quantity, unit.value.currency));
      if r.Failure? {
        return;
      }
      AppendMovesTotals(menu, lines[..k], lines[k]);
      assert lines[..k + 1] == lines[..k] + [lines[k]];
      subtotal, units := r.value, units + [unit.value.minor];
    }
    assert lines[..|lines|] == lines;
    r := Success(subtotal);
  }

  method Assemble(lines: seq<Line>, units: seq<int>, verdicts: seq<Option<Unavailability>>) returns (priced: seq<PricedLine>)
    requires |units| == |lines| && |verdicts| == |lines|
    ensures |priced| == |lines|
    ensures forall i :: 0 <= i < |lines| ==> priced[i] == PricedLine(lines[i], units[i], units[i] * lines[i].quantity, verdicts[i])
  {
    priced := [];
    for k := 0 to |lines|
      invariant |priced| == k
      invariant forall i :: 0 <= i < k ==> priced[i] == PricedLine(lines[i], units[i], units[i] * lines[i].quantity, verdicts[i])
    {
      priced := priced + [PricedLine(lines[k], units[k], units[k] * lines[k].quantity, verdicts[k])];
    }
  }

  /** Prices a selection from the menu: it succeeds exactly when every price met is
      in the basket's currency, and its verdicts are those of the one judge. */
  method PriceSelection(menu: Menu, lines: seq<Line>, currency: string, kitchen: Option<nat>, materials: Materials)
    returns (r: Result<PricedSelection, MoneyError>)
    requires KnowsAll(menu, lines) && AnswersEveryLine(materials)
    ensures r.Success? <==> forall i :: 0 <= i < |lines| ==> InCurrency(menu, lines[i], currency)
    ensures r.Success? ==>
              && r.value.subtotal == Money(Subtotal(menu, lines), currency) && r.value.kitchen == kitchen
              && |r.value.lines| == |lines|
              && forall i :: 0 <= i < |lines| ==>
                   r.value.lines[i] == PricedLine(lines[i], UnitPrice(menu, lines[i]), LineTotal(menu, lines[i]),
                                                  FullVerdict(AsDemands(menu, lines), materials, i))
    ensures r.Success? ==>
              && (forall i :: 0 <= i < |lines| ==>
                    CostsUnit(menu, lines[i], r.value.lines[i].unit)
                    && r.value.lines[i].total == r.value.lines[i].unit * lines[i].quantity)
              && r.value.subtotal.minor == Sum(LineAmounts(r.value.lines))
  {
    var subtotal, units := PriceLines(menu, lines, currency);
    if subtotal.Failure? {
      return Failure(subtotal.error);
    }
    var verdicts := JudgeFully(AsDemands(menu, lines), materials);
    var priced := Assemble(lines, units, verdicts);
    forall i | 0 <= i < |lines| ensures CostsUnit(menu, lines[i], units[i]) {
      UnitPriceMeaning(menu, lines[i]);
    }
    assert Totals(menu, lines) == LineAmounts(priced);
    r := Success(PricedSelection(priced, subtotal.value, kitchen));
  }

  /** Basket and order agree on one snapshot: when the address is served, the quote
      exists and the basket is of this kitchen and currency, the order is accepted
      exactly when the basket was shown as orderable. */
  lemma BasketAgreesWithOrder(menu: Menu, lines: seq<Line>, s: PricedSelection, r: Request, materials: Materials)
    requires KnowsAll(menu, lines) && |s.lines| == |lines| && r.demands == AsDemands(menu, lines)
    requires forall i :: 0 <= i < |lines| ==> s.lines[i].verdict == FullVerdict(r.demands, materials, i)
    requires r.kitchen.Some? && s.kitchen == r.kitchen.value.verdict
    requires Passes(r, materials, 3) && Passes(r, materials, 4) && Passes(r, materials, 5) && Passes(r, materials, 7)
    ensures s.IsOrderable() <==> forall stage :: 0 <= stage < STAGES ==> Passes(r, materials, stage)
  {
    assert s.IsOrderable() <==> Passes(r, materials, 1) && Passes(r, materials, 2) && Passes(r, materials, 6);
  }
}

/** Baskets over time: calls by the client, deletions in the menu that reach into
    stored lines, and additions whose reading and writing are apart
    (apps/carts/services.py, models.py; apps/catalog/backoffice.py). */
module CartHistories {
  import opened Wrappers
  import opened Rounding
  import opened Catalogue
  import opened Carts

  // ------------------------------------------------------- deletions in the menu

  function Kept(options: seq<nat>, gone: set<nat>): seq<nat> {
    if options == [] then []
    else Kept(options[..|options| - 1], gone) + if options[|options| - 1] in gone then [] else [options[|options| - 1]]
  }

  function SizeLeft(variant: Option<nat>, gone: set<nat>): Option<nat> {
    if variant.Some? && variant.value in gone then None else variant
  }

  /** A line after some options and sizes were deleted: its rows for the options
      go with them, its size becomes none. */
  function Trimmed(l: Line, options: set<nat>, variants: set<nat>): Line {
    l.(options := Kept(l.options, options), variant := SizeLeft(l.variant, variants))
  }

  function Delete(b: Basket, options: set<nat>, variants: set<nat>): Basket {
    b.(lines := seq(|b.lines|, i requires 0 <= i < |b.lines| => Trimmed(b.lines[i], options, variants)))
  }

  lemma SetAppend(s: seq<nat>, x: nat)
    ensures Set(s + [x]) == Set(s) + {x}
    ensures NoDuplicates(s + [x]) <==> NoDuplicates(s) && x !in Set(s)
  {
    var t := s + [x];
    assert forall i :: 0 <= i < |s| ==> t[i] == s[i];
    assert t[|s|] == x;
    if NoDuplicates(t) {
      assert forall i :: 0 <= i < |s| ==> t[i] != t[|s|];
    }
    if x !in Set(s) {
      assert forall i :: 0 <= i < |s| ==> s[i] in Set(s);
    }
  }

  lemma {:induction false} WithoutMeaning(options: seq<nat>, gone: set<nat>)
    ensures Set(Kept(options, gone)) == Set(options) - gone
    ensures NoDuplicates(options) ==> NoDuplicates(Kept(options, gone))
  {
    if options != [] {
      var n := |options| - 1;
      WithoutMeaning(options[..n], gone);
      assert options == options[..n] + [options[n]];
      SetAppend(options[..n], options[n]);
      var kept, last := Kept(options[..n], gone), options[n];
      SetAppend(kept, last);
      assert Set(options) == Set(options[..n]) + {last};
      if last in gone {
        assert Kept(options, gone) == kept + [] == kept;
      } else {
        assert Kept(options, gone) == kept + [last];
      }
    }
  }

  /** The two lines differ in nothing but what is deleted. */
  predicate ApartOnlyBy(a: Line, b: Line, options: set<nat>, variants: set<nat>) {
    && a.item == b.item && a.notes == b.notes
    && Set(a.options) - options == Set(b.options) - options
    && SizeLeft(a.variant, variants) == SizeLeft(b.variant, variants)
  }

  ghost predicate SomePairApartOnlyBy(lines: seq<Line>, options: set<nat>, variants: set<nat>) {
    exists i, j :: 0 <= i < j < |lines| && ApartOnlyBy(lines[i], lines[j], options, variants)
  }

  lemma TrimmedKeys(a: Line, b: Line, options: set<nat>, variants: set<nat>)
    ensures KeyOf(Trimmed(a, options, variants)) == KeyOf(Trimmed(b, options, variants)) <==> ApartOnlyBy(a, b, options, variants)
  {
    WithoutMeaning(a.options, options);
    WithoutMeaning(b.options, options);
  }

  /** A deletion keeps the canonical form exactly when no two lines differ in
      nothing but what is deleted; it never merges the twins it makes, and loses no
      quantity. */
  lemma DeletionKeepsFormIff(b: Basket, options: set<nat>, variants: set<nat>)
    requires Stored(b)
    ensures Stored(Delete(b, options, variants))
    ensures Quantity(Delete(b, options, variants).lines) == Quantity(b.lines)
    ensures Canonical(Delete(b, options, variants).lines) <==> !SomePairApartOnlyBy(b.lines, options, variants)
  {
    var after := Delete(b, options, variants).lines;
    forall i | 0 <= i < |b.lines| ensures NoDuplicates(after[i].options) {
      WithoutMeaning(b.lines[i].options, options);
    }
    forall i, j | 0 <= i < |b.lines| && 0 <= j < |b.lines|
      ensures KeyOf(after[i]) == KeyOf(after[j]) <==> ApartOnlyBy(b.lines[i], b.lines[j], options, variants)
    {
      TrimmedKeys(b.lines[i], b.lines[j], options, variants);
    }
    assert Quantities(after) == Quantities(b.lines);
  }

  /** One option deleted: the pairs to fear are a line and the same line with it. */
  lemma OptionDeletionKeepsFormIff(b: Basket, option: nat)
    requires Stored(b) && Canonical(b.lines)
    ensures Canonical(Delete(b, {option}, {}).lines) <==>
            forall i, j | 0 <= i < |b.lines| && 0 <= j < |b.lines| && option !in Set(b.lines[i].options) ::
              KeyOf(b.lines[j]) != KeyOf(b.lines[i]).(options := Set(b.lines[i].options) + {option})
  {
    DeletionKeepsFormIff(b, {option}, {});
    forall i, j | 0 <= i < j < |b.lines|
      ensures ApartOnlyBy(b.lines[i], b.lines[j], {option}, {}) <==>
              ExactlyWith(b.lines[i], b.lines[j], option) || ExactlyWith(b.lines[j], b.lines[i], option)
    {
      OptionsApart(b.lines[i], b.lines[j], option);
    }
    forall i, j | 0 <= i < |b.lines| && 0 <= j < |b.lines| && ExactlyWith(b.lines[i], b.lines[j], option)
      ensures i != j && SomePairApartOnlyBy(b.lines, {option}, {})
    {
      assert if i < j then ApartOnlyBy(b.lines[i], b.lines[j], {option}, {}) else ApartOnlyBy(b.lines[j], b.lines[i], {option}, {});
    }
  }

  /** The second line is the first with one more option. */
  predicate ExactlyWith(a: Line, b: Line, option: nat) {
    option !in Set(a.options) && KeyOf(b) == KeyOf(a).(options := Set(a.options) + {option})
  }

  lemma OptionsApart(a: Line, b: Line, option: nat)
    requires KeyOf(a) != KeyOf(b)
    ensures ApartOnlyBy(a, b, {option}, {}) <==> ExactlyWith(a, b, option) || ExactlyWith(b, a, option)
  {
    var s, t := Set(a.options), Set(b.options);
    if s - {option} == t - {option} {
      forall x | x != option ensures x in s <==> x in t {
        assert x in s <==> x in s - {option};
        assert x in t <==> x in t - {option};
      }
    }
    assert option !in s && t == s + {option} ==> t - {option} == s - {option};
    assert option !in t && s == t + {option} ==> t - {option} == s - {option};
    assert (option in s <==> option in t) && s - {option} == t - {option} ==> s == t;
    assert option !in s && option in t && s - {option} == t - {option} ==> t == s + {option};
    assert option in s && option !in t && s - {option} == t - {option} ==> s == t + {option};
  }

  /** One size deleted: the pairs to fear are a line in that size and the same line
      without a size. */
  lemma SizeDeletionKeepsFormIff(b: Basket, variant: nat)
    requires Stored(b) && Canonical(b.lines)
    ensures Canonical(Delete(b, {}, {variant}).lines) <==>
            forall i, j | 0 <= i < |b.lines| && 0 <= j < |b.lines| && b.lines[i].variant == Some(variant) ::
              KeyOf(b.lines[j]) != KeyOf(b.lines[i]).(variant := None)
  {
    DeletionKeepsFormIff(b, {}, {variant});
    forall i, j | 0 <= i < j < |b.lines|
      ensures ApartOnlyBy(b.lines[i], b.lines[j], {}, {variant}) <==>
              Unsized(b.lines[i], b.lines[j], variant) || Unsized(b.lines[j], b.lines[i], variant)
    {
      SizesApart(b.lines[i], b.lines[j], variant);
    }
    forall i, j | 0 <= i < |b.lines| && 0 <= j < |b.lines| && Unsized(b.lines[i], b.lines[j], variant)
      ensures i != j && SomePairApartOnlyBy(b.lines, {}, {variant})
    {
      assert if i < j then ApartOnlyBy(b.lines[i], b.lines[j], {}, {variant}) else ApartOnlyBy(b.lines[j], b.lines[i], {}, {variant});
    }
  }

  predicate Unsized(a: Line, b: Line, variant: nat) {
    a.variant == Some(variant) && KeyOf(b) == KeyOf(a).(variant := None)
  }

  lemma SizesApart(a: Line, b: Line, variant: nat)
    requires KeyOf(a) != KeyOf(b)
    ensures ApartOnlyBy(a, b, {}, {variant}) <==> Unsized(a, b, variant) || Unsized(b, a, variant)
  {
    assert Set(a.options) - {} == Set(a.options) && Set(b.options) - {} == Set(b.options);
  }

  const PLAIN := Line(0, 7, None, "", [], 1)
  const CHEESE: nat := 3

  function Pair(first: Line, second: Line): Basket {
    Basket(0, "XOF", [first, second], 2)
  }

  /** A burger and a cheeseburger become twins when the cheese is deleted. */
  lemma OptionDeletionMakesTwins()
    ensures var b := Pair(PLAIN, PLAIN.(id := 1, options := [CHEESE]));
            Stored(b) && Canonical(b.lines) && !Canonical(Delete(b, {CHEESE}, {}).lines)
  {
    var b := Pair(PLAIN, PLAIN.(id := 1, options := [CHEESE]));
    assert CHEESE in Set(b.lines[1].options) && CHEESE !in Set(b.lines[0].options);
    assert Set(b.lines[0].options) - {CHEESE} == Set(b.lines[1].options) - {CHEESE};
    TrimmedKeys(b.lines[0], b.lines[1], {CHEESE}, {});
    var after := Delete(b, {CHEESE}, {}).lines;
    assert KeyOf(after[0]) == KeyOf(after[1]);
  }

  /** A small and a large one when both sizes are, and not before. */
  lemma SizeDeletionsMakeTwins(small: nat, large: nat)
    requires small != large
    ensures var b := Pair(PLAIN.(variant := Some(small)), PLAIN.(id := 1, variant := Some(large)));
            && Stored(b) && Canonical(b.lines) && Canonical(Delete(b, {}, {small}).lines)
            && !Canonical(Delete(Delete(b, {}, {small}), {}, {large}).lines)
  {
    var b := Pair(PLAIN.(variant := Some(small)), PLAIN.(id := 1, variant := Some(large)));
    TrimmedKeys(b.lines[0], b.lines[1], {}, {small});
    var d := Delete(b, {}, {small});
    TrimmedKeys(d.lines[0], d.lines[1], {}, {large});
    var after := Delete(d, {}, {large}).lines;
    assert Set(d.lines[0].options) - {} == Set(d.lines[1].options) - {};
    assert KeyOf(after[0]) == KeyOf(after[1]);
  }

  /** Two lines told apart by their notes alone, and a PATCH that empties them. */
  lemma NotesPatchMakesTwins()
    ensures var b := Pair(PLAIN, PLAIN.(id := 1, notes := "sans sel"));
            Stored(b) && Canonical(b.lines) && !Canonical(SetNotes(b, 1, "").lines)
  {
    var b := Pair(PLAIN, PLAIN.(id := 1, notes := "sans sel"));
    assert KeyOf(SetNotes(b, 1, "").lines[0]) == KeyOf(SetNotes(b, 1, "").lines[1]);
  }

  // ------------------------------------------------ an addition read, then written

  datatype Request = Request(item: nat, quantity: int, options: seq<nat>, notes: string, variant: Option<nat>)

  /** What `add_line` found: no identical line, or one and its quantity then. */
  datatype Reading = Absent | Found(line: nat, quantity: int)

  function Asked(r: Request): Key {
    Key(r.item, r.variant, r.notes, Set(r.options))
  }

  function Look(b: Basket, r: Request): Reading {
    match Twin(b.lines, Asked(r), None)
    case None => Absent
    case Some(i) => Found(b.lines[i].id, b.lines[i].quantity)
  }

  /** The options and sizes that no longer exist. */
  datatype Gone = Gone(options: set<nat>, variants: set<nat>)

  predicate StillThere(options: seq<nat>, variant: Option<nat>, gone: Gone) {
    Set(options) !! gone.options && (variant.Some? ==> variant.value !in gone.variants)
  }

  /** What it then writes, on the lines as they have become: a new row, whose foreign
      keys must still lead somewhere, or the quantity it read plus its own on a row
      that must still exist. */
  function WriteAdd(b: Basket, gone: Gone, r: Request, seen: Reading): (Basket, Reply) {
    match seen
    case Absent =>
      if InRange(r.quantity) && NoDuplicates(r.options) && StillThere(r.options, r.variant, gone)
      then (b.(lines := b.lines + [Line(b.next, r.item, r.variant, r.notes, r.options, r.quantity)], next := b.next + 1), Success(b.next))
      else (b, Failure(IntegrityError))
    case Found(id, quantity) =>
      match Find(b.lines, id)
      case None => (b, Failure(NoSuchLine))
      case Some(i) =>
        if InRange(quantity + r.quantity)
        then (b.(lines := b.lines[i := b.lines[i].(quantity := quantity + r.quantity)]), Success(id))
        else (b, Failure(IntegrityError))
  }

  /** Written at once, it is `add_line`. */
  lemma PromptAddIsAdd(menu: Menu, b: Basket, gone: Gone, r: Request)
    requires Stored(b) && Knows(menu, r.item, r.options, r.variant) && Admission(menu, b, r.item, r.options, r.variant) == None
    requires StillThere(r.options, r.variant, gone)
    ensures WriteAdd(b, gone, r, Look(b, r)) == AddLine(menu, b, r.item, r.quantity, r.options, r.notes, r.variant)
  {
    match Twin(b.lines, Asked(r), None)
    case None =>
    case Some(i) => FindIsThere(b.lines, i);
  }

  predicate HasKey(lines: seq<Line>, key: Key) {
    exists i :: 0 <= i < |lines| && KeyOf(lines[i]) == key
  }

  /** A late addition keeps the form exactly when it raises a line, or none with its
      key has come in between; and it adds its quantity exactly when the line it
      raises still has the quantity it read. */
  lemma LateAddMeaning(b: Basket, gone: Gone, r: Request, seen: Reading)
    requires Stored(b) && Canonical(b.lines) && WriteAdd(b, gone, r, seen).1.Success?
    ensures var v := WriteAdd(b, gone, r, seen).0;
            && Stored(v)
            && (Canonical(v.lines) <==> seen.Found? || !HasKey(b.lines, Asked(r)))
            && (Quantity(v.lines) == Quantity(b.lines) + r.quantity <==>
                seen.Absent? || (Find(b.lines, seen.line).Some? && b.lines[Find(b.lines, seen.line).value].quantity == seen.quantity))
  {
    var v := WriteAdd(b, gone, r, seen).0;
    match seen
    case Absent =>
      var l := Line(b.next, r.item, r.variant, r.notes, r.options, r.quantity);
      LateRow(b, l);
    case Found(id, quantity) =>
      var i := Find(b.lines, id).value;
      RaiseKeepsForm(b, i, quantity + r.quantity - b.lines[i].quantity);
      RewriteMovesQuantity(b.lines, i, b.lines[i].(quantity := quantity + r.quantity));
  }

  lemma LateRow(b: Basket, l: Line)
    requires Stored(b) && Canonical(b.lines) && l.id == b.next && InRange(l.quantity) && NoDuplicates(l.options)
    ensures Stored(b.(lines := b.lines + [l], next := b.next + 1))
    ensures Canonical(b.lines + [l]) <==> !HasKey(b.lines, KeyOf(l))
    ensures Quantity(b.lines + [l]) == Quantity(b.lines) + l.quantity
  {
    TwinAppended(b.lines, l);
    AppendMovesQuantity(b.lines, l);
  }

  lemma TwinAppended(lines: seq<Line>, l: Line)
    requires Canonical(lines)
    ensures Canonical(lines + [l]) <==> !HasKey(lines, KeyOf(l))
  {
    var after := lines + [l];
    if HasKey(lines, KeyOf(l)) {
      var i :| 0 <= i < |lines| && KeyOf(lines[i]) == KeyOf(l);
      assert KeyOf(after[i]) == KeyOf(after[|lines|]);
    }
  }

  lemma AppendMovesQuantity(lines: seq<Line>, l: Line)
    ensures Quantity(lines + [l]) == Quantity(lines) + l.quantity
  {
    assert Quantities(lines + [l]) == Quantities(lines) + [l.quantity];
    SumAppend(Quantities(lines), l.quantity);
  }

  lemma RewriteMovesQuantity(lines: seq<Line>, i: nat, l: Line)
    requires i < |lines|
    ensures Quantity(lines[i := l]) == Quantity(lines) - lines[i].quantity + l.quantity
  {
    assert Quantities(lines[i := l]) == Quantities(lines)[i := l.quantity];
    SumUpdate(Quantities(lines), i, l.quantity);
  }

  // ---------------------------------------------- a rewriting read, then written

  /** A recomposition in course: the instance the view loaded, what it becomes, and
      the twin found after its own row was rewritten. */
  datatype Rewriting = Rewriting(line: Line, seen: Reading)

  /** The twin of a rewritten line, among the other lines of the basket. */
  function LookForTwin(b: Basket, l: Line): Reading {
    match Twin(b.lines, KeyOf(l), Some(l.id))
    case None => Absent
    case Some(i) => Found(b.lines[i].id, b.lines[i].quantity)
  }

  function FindOther(lines: seq<Line>, id: nat, own: nat): Option<nat> {
    if id == own then None else Find(lines, id)
  }

  /** What `update_line` commits: its own row, which must still exist, with all that
      its instance holds; or, when it saw a twin, the twin with the quantity read
      then plus its own, and no own row. */
  function WriteLine(b: Basket, gone: Gone, w: Rewriting): (Basket, Reply) {
    match Find(b.lines, w.line.id)
    case None => (b, Failure(NoSuchLine))
    case Some(i) =>
      if !InRange(w.line.quantity) || !NoDuplicates(w.line.options) || !StillThere(w.line.options, w.line.variant, gone)
      then (b, Failure(IntegrityError))
      else
        match w.seen
        case Absent => (b.(lines := b.lines[i := w.line]), Success(w.line.id))
        case Found(id, quantity) =>
          match FindOther(b.lines, id, w.line.id)
          case None => (b, Failure(NoSuchLine))
          case Some(j) =>
            if !InRange(quantity + w.line.quantity) then (b, Failure(IntegrityError))
            else (b.(lines := Without(b.lines[j := b.lines[j].(quantity := quantity + w.line.quantity)], i)), Success(id))
  }

  lemma TwinInRewritten(b: Basket, i: nat, l: Line)
    requires Stored(b) && i < |b.lines| && l.id == b.lines[i].id
    ensures Twin(b.lines[i := l], KeyOf(l), Some(l.id)) == Twin(b.lines, KeyOf(l), Some(l.id))
  {
    var here, there := Twin(b.lines, KeyOf(l), Some(l.id)), Twin(b.lines[i := l], KeyOf(l), Some(l.id));
    assert forall j :: 0 <= j < |b.lines| && j != i ==> b.lines[i := l][j] == b.lines[j] && b.lines[j].id != l.id;
  }

  lemma SameWithout(lines: seq<Line>, i: nat, l: Line, j: nat, other: Line)
    requires i < |lines| && j < |lines| && i != j
    ensures Without(lines[i := l][j := other], i) == Without(lines[j := other], i)
  {
  }

  /** On a line that is there and may be written, with no other line of its key ... */
  lemma WriteAlone(b: Basket, gone: Gone, i: nat, l: Line)
    requires Stored(b) && i < |b.lines| && l.id == b.lines[i].id && NoDuplicates(l.options) && StillThere(l.options, l.variant, gone)
    ensures WriteLine(b, gone, Rewriting(l, Absent)) ==
            if InRange(l.quantity) then (b.(lines := b.lines[i := l]), Success(l.id)) else (b, Failure(IntegrityError))
  {
    FindIsThere(b.lines, i);
  }

  /** ... and with one. */
  lemma WriteOver(b: Basket, gone: Gone, i: nat, l: Line, j: nat)
    requires Stored(b) && i < |b.lines| && j < |b.lines| && i != j
    requires l.id == b.lines[i].id && NoDuplicates(l.options) && StillThere(l.options, l.variant, gone)
    ensures WriteLine(b, gone, Rewriting(l, Found(b.lines[j].id, b.lines[j].quantity))) ==
            if InRange(l.quantity) && InRange(b.lines[j].quantity + l.quantity)
            then (b.(lines := Without(Raise(b.lines[i := l], j, l.quantity), i)), Success(b.lines[j].id))
            else (b, Failure(IntegrityError))
  {
    FindIsThere(b.lines, i);
    FindIsThere(b.lines, j);
    SameWithout(b.lines, i, l, j, b.lines[j].(quantity := b.lines[j].quantity + l.quantity));
  }

  /** Loaded, read and written at once, it is `update_line`. */
  lemma PromptRewriteIsUpdate(menu: Menu, b: Basket, gone: Gone, i: nat, options: seq<nat>, quantity: Option<int>, notes: Option<string>, variant: Option<nat>)
    requires Stored(b) && i < |b.lines| && Knows(menu, b.lines[i].item, options, variant)
    requires Admission(menu, b, b.lines[i].item, options, variant) == None && StillThere(options, variant, gone)
    ensures var l := Rewritten(b.lines[i], options, quantity, notes, variant);
            WriteLine(b, gone, Rewriting(l, LookForTwin(b, l))) == UpdateLine(menu, b, i, options, quantity, notes, variant)
  {
    var l := Rewritten(b.lines[i], options, quantity, notes, variant);
    if NoDuplicates(options) {
      TwinInRewritten(b, i, l);
      match Twin(b.lines, KeyOf(l), Some(l.id))
      case None => WriteAlone(b, gone, i, l);
      case Some(j) => WriteOver(b, gone, i, l, j);
    }
  }

  predicate OtherHasKey(lines: seq<Line>, key: Key, own: nat) {
    exists i :: 0 <= i < |lines| && KeyOf(lines[i]) == key && lines[i].id != own
  }

  /** A late rewriting keeps the form exactly when it merged, or no other line has the
      new key by then. */
  lemma LateRewriteMeaning(b: Basket, gone: Gone, w: Rewriting)
    requires Stored(b) && Canonical(b.lines) && WriteLine(b, gone, w).1.Success?
    ensures var v := WriteLine(b, gone, w).0;
            && Stored(v)
            && (Canonical(v.lines) <==> w.seen.Found? || !OtherHasKey(b.lines, KeyOf(w.line), w.line.id))
  {
    if w.seen.Found? {
      LateMergeKeepsForm(b, gone, w);
    } else {
      RewrittenRow(b, Find(b.lines, w.line.id).value, w.line);
    }
  }

  lemma LateMergeKeepsForm(b: Basket, gone: Gone, w: Rewriting)
    requires Stored(b) && Canonical(b.lines) && WriteLine(b, gone, w).1.Success? && w.seen.Found?
    ensures Stored(WriteLine(b, gone, w).0) && Canonical(WriteLine(b, gone, w).0.lines)
  {
    MergeShape(b, gone, w);
    var i, j := Find(b.lines, w.line.id).value, Find(b.lines, w.seen.line).value;
    MergedRows(b, i, j, w.seen.quantity + w.line.quantity, WriteLine(b, gone, w).0);
  }

  /** A merge that succeeds: the twin raised to the sum, the own row gone. */
  lemma MergeShape(b: Basket, gone: Gone, w: Rewriting)
    requires WriteLine(b, gone, w).1.Success? && w.seen.Found?
    ensures Find(b.lines, w.line.id).Some? && Find(b.lines, w.seen.line).Some?
    ensures var i, j, q := Find(b.lines, w.line.id).value, Find(b.lines, w.seen.line).value, w.seen.quantity + w.line.quantity;
            && i != j && InRange(q)
            && WriteLine(b, gone, w).0 == b.(lines := Without(b.lines[j := b.lines[j].(quantity := q)], i))
  {
  }

  lemma MergedRows(b: Basket, i: nat, j: nat, quantity: int, v: Basket)
    requires Stored(b) && Canonical(b.lines) && i < |b.lines| && j < |b.lines| && InRange(quantity)
    requires v == b.(lines := Without(b.lines[j := b.lines[j].(quantity := quantity)], i))
    ensures Stored(v) && Canonical(v.lines)
  {
    var raised := b.(lines := b.lines[j := b.lines[j].(quantity := quantity)]);
    assert Stored(raised) && Canonical(raised.lines) by {
      RaiseKeepsForm(b, j, quantity - b.lines[j].quantity);
    }
    RemovalKeepsForm(raised, i);
  }

  lemma RewrittenRow(b: Basket, i: nat, l: Line)
    requires Stored(b) && Canonical(b.lines) && i < |b.lines| && l.id == b.lines[i].id && InRange(l.quantity) && NoDuplicates(l.options)
    ensures Stored(b.(lines := b.lines[i := l]))
    ensures Canonical(b.lines[i := l]) <==> !OtherHasKey(b.lines, KeyOf(l), l.id)
  {
    RewriteKeepsStored(b, i, l);
    var after := b.lines[i := l];
    if OtherHasKey(b.lines, KeyOf(l), l.id) {
      var j :| 0 <= j < |b.lines| && KeyOf(b.lines[j]) == KeyOf(l) && b.lines[j].id != l.id;
      assert after[j] == b.lines[j] && KeyOf(after[i]) == KeyOf(after[j]);
    } else {
      assert forall j :: 0 <= j < |b.lines| && j != i ==> KeyOf(b.lines[j]) != KeyOf(l);
    }
  }

  /** ... and it conserves the quantity exactly when the twin it raises still has the
      quantity it read. */
  lemma LateRewriteConservesIff(b: Basket, gone: Gone, w: Rewriting)
    requires Stored(b) && WriteLine(b, gone, w).1.Success?
    ensures var i := Find(b.lines, w.line.id).value;
            Quantity(WriteLine(b, gone, w).0.lines) == Quantity(b.lines) - b.lines[i].quantity + w.line.quantity <==>
            w.seen.Absent? || (Find(b.lines, w.seen.line).Some? && b.lines[Find(b.lines, w.seen.line).value].quantity == w.seen.quantity)
  {
    var i := Find(b.lines, w.line.id).value;
    if w.seen.Absent? {
      RewriteMovesQuantity(b.lines, i, w.line);
    } else {
      LateMergeMovesQuantity(b, gone, w);
    }
  }

  lemma LateMergeMovesQuantity(b: Basket, gone: Gone, w: Rewriting)
    requires WriteLine(b, gone, w).1.Success? && w.seen.Found?
    ensures Find(b.lines, w.line.id).Some? && Find(b.lines, w.seen.line).Some?
    ensures Quantity(WriteLine(b, gone, w).0.lines) == Quantity(b.lines) - b.lines[Find(b.lines, w.line.id).value].quantity + w.line.quantity
              + w.seen.quantity - b.lines[Find(b.lines, w.seen.line).value].quantity
  {
    MergeShape(b, gone, w);
    var i, j := Find(b.lines, w.line.id).value, Find(b.lines, w.seen.line).value;
    MergingMovesQuantity(b.lines, i, j, w.seen.quantity + w.line.quantity, WriteLine(b, gone, w).0.lines);
  }

  lemma MergingMovesQuantity(lines: seq<Line>, i: nat, j: nat, quantity: int, merged: seq<Line>)
    requires i < |lines| && j < |lines| && i != j && merged == Without(lines[j := lines[j].(quantity := quantity)], i)
    ensures Quantity(merged) == Quantity(lines) - lines[j].quantity + quantity - lines[i].quantity
  {
    var raised := lines[j].(quantity := quantity);
    RewriteMovesQuantity(lines, j, raised);
    RemovalMovesQuantity(lines[j := raised], i);
  }

  // ------------------------------------------------------------------------- runs

  /** `adding`: additions that have read and not yet written. `loaded`: instances
      that views hold. `rewriting`: recompositions that have read their twin. */
  datatype Sys = Sys(basket: Basket, gone: Gone, adding: map<nat, (Request, Reading)>, loaded: map<nat, Line>, rewriting: map<nat, Rewriting>)

  datatype Event =
    | Call(menu: Menu, op: Op)
    | DeleteRows(options: set<nat>, variants: set<nat>)
    | ReadAddition(tx: nat, menu: Menu, request: Request)
    | WriteAddition(tx: nat)
    | Load(tx: nat, line: nat)
    | ReadTwin(tx: nat, menu: Menu, changes: Changes)
    | WriteRewriting(tx: nat)

  /** A menu read now has nothing that was deleted. */
  predicate UpToDate(menu: Menu, gone: Gone) {
    menu.choices.Keys !! gone.options && menu.variants.Keys !! gone.variants
  }

  predicate CanKnow(menu: Menu, item: nat, options: seq<nat>, variant: Option<nat>) {
    item in menu.items && (forall o :: o in options ==> o in menu.choices) && (variant.Some? ==> variant.value in menu.variants)
  }

  predicate Admits(s: Sys, menu: Menu, item: nat, options: seq<nat>, variant: Option<nat>) {
    UpToDate(menu, s.gone) && CanKnow(menu, item, options, variant) && Admission(menu, s.basket, item, options, variant).None?
  }

  function Fire(s: Sys, e: Event): Sys {
    match e
    case Call(menu, op) => if UpToDate(menu, s.gone) then s.(basket := Step(menu, s.basket, op)) else s
    case DeleteRows(options, variants) =>
      s.(basket := Delete(s.basket, options, variants), gone := Gone(s.gone.options + options, s.gone.variants + variants))
    case ReadAddition(t, menu, r) =>
      if t in s.adding || !Admits(s, menu, r.item, r.options, r.variant) then s
      else s.(adding := s.adding[t := (r, Look(s.basket, r))])
    case WriteAddition(t) =>
      if t !in s.adding then s
      else s.(basket := WriteAdd(s.basket, s.gone, s.adding[t].0, s.adding[t].1).0, adding := s.adding - {t})
    case Load(t, line) =>
      (match Find(s.basket.lines, line)
       case None => s
       case Some(i) => s.(loaded := s.loaded[t := s.basket.lines[i]]))
    case ReadTwin(t, menu, c) =>
      if t !in s.loaded || !Recomposes(c) then s
      else
        var handed := s.loaded[t];
        if !Admits(s, menu, handed.item, NewOptions(handed, c), NewVariant(handed, c)) then s
        else
          var l := Rewritten(handed, NewOptions(handed, c), c.quantity, c.notes, NewVariant(handed, c));
          s.(loaded := s.loaded - {t}, rewriting := s.rewriting[t := Rewriting(l, LookForTwin(s.basket, l))])
    case WriteRewriting(t) =>
      if t !in s.rewriting then s
      else s.(basket := WriteLine(s.basket, s.gone, s.rewriting[t]).0, rewriting := s.rewriting - {t})
  }

  function Start(b: Basket): Sys {
    Sys(b, Gone({}, {}), map[], map[], map[])
  }

  /** The state after the first `n` events. */
  function After(b: Basket, events: seq<Event>, n: nat): Sys
    requires n <= |events|
  {
    if n == 0 then Start(b) else Fire(After(b, events, n - 1), events[n - 1])
  }

  /** The line that a PATCH of notes without options or size would rewrite. */
  ghost predicate NotesLandApart(menu: Menu, b: Basket, op: Op) {
    NotesOnly(op) && Find(b.lines, op.line).Some? ==>
      var i := Find(b.lines, op.line).value;
      CanKnow(menu, b.lines[i].item, b.lines[i].options, b.lines[i].variant) ==>
        forall j :: 0 <= j < |b.lines| && j != i ==>
                      KeyOf(b.lines[j]) != KeyOf(b.lines[i].(notes := op.changes.notes.value))
  }

  /** The guard of each event that can make twins. */
  ghost predicate Harmless(s: Sys, e: Event) {
    match e
    case Call(menu, op) => UpToDate(menu, s.gone) ==> NotesLandApart(menu, s.basket, op)
    case DeleteRows(options, variants) => !SomePairApartOnlyBy(s.basket.lines, options, variants)
    case WriteAddition(t) =>
      t in s.adding && s.adding[t].1.Absent? && WriteAdd(s.basket, s.gone, s.adding[t].0, s.adding[t].1).1.Success? ==>
        !HasKey(s.basket.lines, Asked(s.adding[t].0))
    case WriteRewriting(t) =>
      t in s.rewriting && s.rewriting[t].seen.Absent? && WriteLine(s.basket, s.gone, s.rewriting[t]).1.Success? ==>
        !OtherHasKey(s.basket.lines, KeyOf(s.rewriting[t].line), s.rewriting[t].line.id)
    case _ => true
  }

  lemma ShortPathKeepsFormIff(menu: Menu, b: Basket, i: nat, c: Changes)
    requires Stored(b) && Canonical(b.lines) && i < |b.lines| && !Recomposes(c) && c.notes.Some?
    requires Knows(menu, b.lines[i].item, NewOptions(b.lines[i], c), NewVariant(b.lines[i], c))
    ensures Canonical(Patch(menu, b, i, c).0.lines) <==>
            forall j :: 0 <= j < |b.lines| && j != i ==> KeyOf(b.lines[j]) != KeyOf(b.lines[i].(notes := c.notes.value))
  {
    var noted := SetNotes(b, i, c.notes.value);
    NotesPatchKeepsFormIff(b, i, c.notes.value);
    SameKeysSameForm(noted.lines, Patch(menu, b, i, c).0.lines);
  }

  lemma SameKeysSameForm(a: seq<Line>, b: seq<Line>)
    requires |a| == |b| && forall k :: 0 <= k < |a| ==> KeyOf(a[k]) == KeyOf(b[k])
    ensures Canonical(a) <==> Canonical(b)
  {
  }

  lemma CallKeepsFormIff(menu: Menu, b: Basket, op: Op)
    requires Stored(b) && Canonical(b.lines)
    ensures Stored(Step(menu, b, op))
    ensures Canonical(Step(menu, b, op).lines) <==> NotesLandApart(menu, b, op)
  {
    StepKeepsForm(menu, b, op);
    if NotesOnly(op) && Find(b.lines, op.line).Some? {
      var i := Find(b.lines, op.line).value;
      if CanKnow(menu, b.lines[i].item, b.lines[i].options, b.lines[i].variant) {
        ShortPathKeepsFormIff(menu, b, i, op.changes);
      }
    }
  }

  lemma LateAddKeepsFormIff(b: Basket, gone: Gone, r: Request, seen: Reading)
    requires Stored(b) && Canonical(b.lines)
    ensures var (v, reply) := WriteAdd(b, gone, r, seen);
            && Stored(v)
            && (Canonical(v.lines) <==> (seen.Absent? && reply.Success? ==> !HasKey(b.lines, Asked(r))))
  {
    if WriteAdd(b, gone, r, seen).1.Success? { LateAddMeaning(b, gone, r, seen); }
  }

  lemma LateRewriteKeepsFormIff(b: Basket, gone: Gone, w: Rewriting)
    requires Stored(b) && Canonical(b.lines)
    ensures var (v, reply) := WriteLine(b, gone, w);
            && Stored(v)
            && (Canonical(v.lines) <==> (w.seen.Absent? && reply.Success? ==> !OtherHasKey(b.lines, KeyOf(w.line), w.line.id)))
  {
    if WriteLine(b, gone, w).1.Success? { LateRewriteMeaning(b, gone, w); }
  }

  lemma FireKeepsFormIff(s: Sys, e: Event)
    requires Stored(s.basket) && Canonical(s.basket.lines)
    ensures Stored(Fire(s, e).basket)
    ensures Canonical(Fire(s, e).basket.lines) <==> Harmless(s, e)
  {
    match e
    case Call(menu, op) => CallKeepsFormIff(menu, s.basket, op);
    case DeleteRows(options, variants) => DeletionKeepsFormIff(s.basket, options, variants);
    case WriteAddition(t) => if t in s.adding { LateAddKeepsFormIff(s.basket, s.gone, s.adding[t].0, s.adding[t].1); }
    case WriteRewriting(t) => if t in s.rewriting { LateRewriteKeepsFormIff(s.basket, s.gone, s.rewriting[t]); }
    case _ => assert Fire(s, e).basket == s.basket;
  }

  /** The form holds before and after each of the first `n` events. */
  ghost predicate AlwaysCanonical(b: Basket, events: seq<Event>, n: nat)
    requires n <= |events|
  {
    Canonical(After(b, events, n).basket.lines) && (n > 0 ==> AlwaysCanonical(b, events, n - 1))
  }

  /** Each of the first `n` events was harmless when it came. */
  ghost predicate AlwaysHarmless(b: Basket, events: seq<Event>, n: nat)
    requires n <= |events|
  {
    n > 0 ==> AlwaysHarmless(b, events, n - 1) && Harmless(After(b, events, n - 1), events[n - 1])
  }

  lemma NextFormIff(b: Basket, events: seq<Event>, n: nat)
    requires 0 < n <= |events| && Canonical(After(b, events, n - 1).basket.lines) && Stored(After(b, events, n - 1).basket)
    ensures Stored(After(b, events, n).basket)
    ensures Canonical(After(b, events, n).basket.lines) <==> Harmless(After(b, events, n - 1), events[n - 1])
  {
    FireKeepsFormIff(After(b, events, n - 1), events[n - 1]);
  }

  /** Over any events, the lines are pairwise distinct on item, size, notes and
      options after each of them exactly when each was harmless when it came: no
      PATCH of notes onto another line's key, no deletion of all that tells two
      lines apart, no addition and no rewriting written after an identical line that
      it did not see. */
  lemma {:induction false} RunKeepsForm(b: Basket, events: seq<Event>, n: nat)
    requires Stored(b) && Canonical(b.lines) && n <= |events|
    ensures AlwaysCanonical(b, events, n) <==> AlwaysHarmless(b, events, n)
    ensures AlwaysHarmless(b, events, n) ==> Stored(After(b, events, n).basket)
    decreases n
  {
    if n > 0 {
      RunKeepsForm(b, events, n - 1);
      if AlwaysHarmless(b, events, n - 1) {
        NextFormIff(b, events, n);
      }
    }
  }

  const ONE_MORE := Request(7, 1, [], "", None)
  const NOTHING_YET := Basket(0, "XOF", [], 0)

  /** Two additions of the same burger, each read before the other wrote. */
  lemma TwoAddsMakeTwins(menu: Menu)
    requires CanKnow(menu, 7, [], None) && Admission(menu, NOTHING_YET, 7, [], None) == None
    ensures var events := [ReadAddition(0, menu, ONE_MORE), ReadAddition(1, menu, ONE_MORE), WriteAddition(0), WriteAddition(1)];
            var end := After(NOTHING_YET, events, 4);
            Stored(NOTHING_YET) && Canonical(NOTHING_YET.lines) && |end.basket.lines| == 2 && !Canonical(end.basket.lines)
  {
    var events := [ReadAddition(0, menu, ONE_MORE), ReadAddition(1, menu, ONE_MORE), WriteAddition(0), WriteAddition(1)];
    var s := Start(NOTHING_YET);
    assert Look(NOTHING_YET, ONE_MORE) == Absent && UpToDate(menu, s.gone);
    assert After(NOTHING_YET, events, 0) == s;
    assert After(NOTHING_YET, events, 1) == s.(adding := map[0 := (ONE_MORE, Absent)]);
    assert After(NOTHING_YET, events, 2) == s.(adding := map[0 := (ONE_MORE, Absent), 1 := (ONE_MORE, Absent)]);
    BothWrite(After(NOTHING_YET, events, 2));
    assert After(NOTHING_YET, events, 3) == Fire(After(NOTHING_YET, events, 2), events[2]);
  }

  lemma BothWrite(s: Sys)
    requires s == Start(NOTHING_YET).(adding := map[0 := (ONE_MORE, Absent), 1 := (ONE_MORE, Absent)])
    ensures var end := Fire(Fire(s, WriteAddition(0)), WriteAddition(1));
            |end.basket.lines| == 2 && !Canonical(end.basket.lines)
  {
    var s1 := Fire(s, WriteAddition(0));
    assert s1.basket.lines == [Line(0, 7, None, "", [], 1)] && s1.adding == map[1 := (ONE_MORE, Absent)];
    var end := Fire(s1, WriteAddition(1));
    assert end.basket.lines == [Line(0, 7, None, "", [], 1), Line(1, 7, None, "", [], 1)];
    assert KeyOf(end.basket.lines[0]) == KeyOf(end.basket.lines[1]);
  }

  /** A pending addition of a size deleted meanwhile is refused. */
  lemma DeadSizeIsRefused(s: Sys, t: nat, size: nat)
    requires t in s.adding && s.adding[t].1.Absent? && s.adding[t].0.variant == Some(size)
    ensures var v := Fire(s, DeleteRows({}, {size})); Fire(v, WriteAddition(t)).basket == v.basket
  {
    var v := Fire(s, DeleteRows({}, {size}));
    assert size in v.gone.variants;
  }

  /** A pending addition that names an option deleted meanwhile is refused. */
  lemma DeadOptionIsRefused(s: Sys, t: nat, option: nat)
    requires t in s.adding && s.adding[t].1.Absent? && option in Set(s.adding[t].0.options)
    ensures var v := Fire(s, DeleteRows({option}, {})); Fire(v, WriteAddition(t)).basket == v.basket
  {
    var v := Fire(s, DeleteRows({option}, {}));
    assert option in v.gone.options;
  }

  // ------------------------------------------------------------ events nobody crosses

  /** What was deleted stays deleted, and a deletion deletes what it says. */
  lemma DeletedForGood(s: Sys, e: Event)
    ensures s.gone.options <= Fire(s, e).gone.options && s.gone.variants <= Fire(s, e).gone.variants
    ensures e.DeleteRows? ==> Fire(s, e).gone == Gone(s.gone.options + e.options, s.gone.variants + e.variants)
    ensures !e.DeleteRows? ==> Fire(s, e).gone == s.gone
  {
  }

  /** Nothing deleted is ever found in a menu read later: neither an option nor a size
      of it is called for, read or written. */
  lemma DeletedIsNotOnTheMenu(s: Sys, menu: Menu, op: Op)
    requires (exists o :: o in menu.choices && o in s.gone.options) || (exists v :: v in menu.variants && v in s.gone.variants)
    ensures Fire(s, Call(menu, op)) == s
    ensures forall t, r :: Fire(s, ReadAddition(t, menu, r)) == s
    ensures forall t, c :: Fire(s, ReadTwin(t, menu, c)) == s
  {
  }

  /** An addition that nobody crosses is the call, and is then over. */
  lemma AloneIsTheAddition(s: Sys, t: nat, menu: Menu, r: Request)
    requires Stored(s.basket) && t !in s.adding && UpToDate(menu, s.gone)
    ensures var end := Fire(Fire(s, ReadAddition(t, menu, r)), WriteAddition(t));
            && end.basket == Step(menu, s.basket, Add(r.item, r.quantity, r.options, r.notes, r.variant))
            && end == s.(basket := end.basket)
  {
    if Admits(s, menu, r.item, r.options, r.variant) {
      assert StillThere(r.options, r.variant, s.gone) by {
        assert forall o :: o in Set(r.options) ==> o in menu.choices;
      }
      PromptAddIsAdd(menu, s.basket, s.gone, r);
      assert s.adding[t := (r, Look(s.basket, r))] - {t} == s.adding;
    }
  }

  /** A rewriting that nobody crosses is the call, and is then over. */
  lemma AloneIsTheRewriting(s: Sys, t: nat, menu: Menu, line: nat, c: Changes)
    requires Stored(s.basket) && t !in s.loaded && t !in s.rewriting && UpToDate(menu, s.gone) && Recomposes(c)
    requires Find(s.basket.lines, line).Some?
    ensures var end := Fire(Fire(Fire(s, Load(t, line)), ReadTwin(t, menu, c)), WriteRewriting(t));
            && end.basket == Step(menu, s.basket, Change(line, c))
            && end.rewriting == s.rewriting
            && (end.basket != s.basket ==> end.loaded == s.loaded)
  {
    var i := Find(s.basket.lines, line).value;
    var l := s.basket.lines[i];
    if Admits(s, menu, l.item, NewOptions(l, c), NewVariant(l, c)) {
      assert StillThere(NewOptions(l, c), NewVariant(l, c), s.gone) by {
        assert forall o :: o in Set(NewOptions(l, c)) ==> o in menu.choices;
      }
      PromptRewriteIsUpdate(menu, s.basket, s.gone, i, NewOptions(l, c), c.quantity, c.notes, NewVariant(l, c));
      TwoReadings(s, t, menu, line, c);
    }
  }

  /** What a rewriting that nobody crosses has read. */
  lemma TwoReadings(s: Sys, t: nat, menu: Menu, line: nat, c: Changes)
    requires t !in s.loaded && t !in s.rewriting && Recomposes(c) && Find(s.basket.lines, line).Some?
    requires var l := s.basket.lines[Find(s.basket.lines, line).value]; Admits(s, menu, l.item, NewOptions(l, c), NewVariant(l, c))
    ensures var l := s.basket.lines[Find(s.basket.lines, line).value];
            var m := Rewritten(l, NewOptions(l, c), c.quantity, c.notes, NewVariant(l, c));
            && Fire(Fire(s, Load(t, line)), ReadTwin(t, menu, c)) == s.(rewriting := s.rewriting[t := Rewriting(m, LookForTwin(s.basket, m))])
            && s.rewriting[t := Rewriting(m, LookForTwin(s.basket, m))] - {t} == s.rewriting
  {
    var l := s.basket.lines[Find(s.basket.lines, line).value];
    assert s.loaded[t := l] - {t} == s.loaded;
  }
}

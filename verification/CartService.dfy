/** The basket's calls as the program makes them: rows rewritten in place and
    rolled back on a failure (apps/carts/services.py, views.py). */
module CartServices {
  import opened Wrappers
  import opened Catalogue
  import opened Carts

  /** The rows of one basket, rewritten in place. */
  class CartService {
    const kitchen: nat
    const currency: string
    var lines: seq<Line>
    var next: nat

    function State(): Basket
      reads this
    {
      Basket(kitchen, currency, lines, next)
    }

    ghost predicate Valid()
      reads this
    {
      Stored(State())
    }

    constructor (kitchen: nat, currency: string)
      ensures Valid() && State() == Basket(kitchen, currency, [], 0)
    {
      this.kitchen, this.currency, this.lines, this.next := kitchen, currency, [], 0;
    }

    method IdenticalLine(key: Key, exclude: Option<nat>) returns (r: Option<nat>)
      ensures r == Twin(lines, key, exclude)
    {
      r := None;
      for i := 0 to |lines|
        invariant forall j :: 0 <= j < i ==> KeyOf(lines[j]) != key || Some(lines[j].id) == exclude
      {
        if KeyOf(lines[i]) == key && Some(lines[i].id) != exclude {
          return Some(i);
        }
      }
    }

    method AddLine(menu: Menu, item: nat, quantity: int, options: seq<nat>, notes: string, variant: Option<nat>) returns (r: Reply)
      requires Valid() && Knows(menu, item, options, variant)
      modifies this
      ensures Valid() && (State(), r) == Carts.AddLine(menu, old(State()), item, quantity, options, notes, variant)
      ensures Canonical(old(lines)) ==> Canonical(lines)
    {
      AddKeepsForm(menu, State(), item, quantity, options, notes, variant);
      r := Admit(menu, item, quantity, options, notes, variant);
    }

    method Admit(menu: Menu, item: nat, quantity: int, options: seq<nat>, notes: string, variant: Option<nat>) returns (r: Reply)
      requires Knows(menu, item, options, variant)
      modifies this
      ensures (State(), r) == Carts.AddLine(menu, old(State()), item, quantity, options, notes, variant)
    {
      var refusal := Admission(menu, State(), item, options, variant);
      if refusal.Some? {
        r := Failure(refusal.value);
      } else {
        r := Place(item, quantity, options, notes, variant);
      }
    }

    /** Raises the identical line, or creates one. */
    method Place(item: nat, quantity: int, options: seq<nat>, notes: string, variant: Option<nat>) returns (r: Reply)
      modifies this
      ensures match Twin(old(lines), Key(item, variant, notes, Set(options)), None)
              case Some(i) =>
                next == old(next)
                && if InRange(old(lines)[i].quantity + quantity)
                   then lines == Raise(old(lines), i, quantity) && r == Success(old(lines)[i].id)
                   else lines == old(lines) && r == Failure(IntegrityError)
              case None =>
                if InRange(quantity) && NoDuplicates(options)
                then lines == old(lines) + [Line(old(next), item, variant, notes, options, quantity)]
                     && next == old(next) + 1 && r == Success(old(next))
                else lines == old(lines) && next == old(next) && r == Failure(IntegrityError)
    {
      var existing := IdenticalLine(Key(item, variant, notes, Set(options)), None);
      if existing.Some? {
        var l := lines[existing.value];
        if !InRange(l.quantity + quantity) {
          return Failure(IntegrityError);
        }
        lines := lines[existing.value := l.(quantity := l.quantity + quantity)];
        return Success(l.id);
      }
      if !InRange(quantity) || !NoDuplicates(options) {
        return Failure(IntegrityError);
      }
      r := Success(next);
      lines, next := lines + [Line(next, item, variant, notes, options, quantity)], next + 1;
    }

    method UpdateLine(menu: Menu, i: nat, options: seq<nat>, quantity: Option<int>, notes: Option<string>, variant: Option<nat>)
      returns (r: Reply)
      requires Valid() && i < |lines| && Knows(menu, lines[i].item, options, variant)
      modifies this
      ensures Valid() && (State(), r) == Carts.UpdateLine(menu, old(State()), i, options, quantity, notes, variant)
      ensures Canonical(old(lines)) ==> Canonical(lines)
    {
      ghost var before := State();
      UpdateKeepsStored(menu, before, i, options, quantity, notes, variant);
      if Canonical(lines) {
        UpdateKeepsCanonical(menu, before, i, options, quantity, notes, variant);
      }
      var refusal := Admission(menu, State(), lines[i].item, options, variant);
      var l := Rewritten(lines[i], options, quantity, notes, variant);
      if refusal.Some? {
        r := Failure(refusal.value);
      } else if !InRange(l.quantity) || !NoDuplicates(options) {
        r := Failure(IntegrityError);
      } else {
        r := Rewrite(i, l);
      }
    }

    /** Writes the line, then merges it with its twin if it has one. A failure
        after the first write is a rolled-back transaction. */
    method Rewrite(i: nat, l: Line) returns (r: Reply)
      requires i < |lines|
      modifies this
      ensures next == old(next)
      ensures match Twin(old(lines)[i := l], KeyOf(l), Some(l.id))
              case None => lines == old(lines)[i := l] && r == Success(l.id)
              case Some(j) =>
                var other := old(lines)[i := l][j];
                if InRange(other.quantity + l.quantity)
                then lines == Without(Raise(old(lines)[i := l], j, l.quantity), i) && r == Success(other.id)
                else lines == old(lines) && r == Failure(IntegrityError)
    {
      var saved := lines;
      lines := lines[i := l];
      var twin := IdenticalLine(KeyOf(l), Some(l.id));
      if twin.None? {
        return Success(l.id);
      }
      var other := lines[twin.value];
      if !InRange(other.quantity + l.quantity) {
        lines := saved;
        return Failure(IntegrityError);
      }
      lines := lines[twin.value := other.(quantity := other.quantity + l.quantity)];
      lines := lines[..i] + lines[i + 1..];
      r := Success(other.id);
    }

    method SetQuantity(i: nat, quantity: int) returns (r: Reply)
      requires Valid() && i < |lines|
      modifies this
      ensures Valid() && (State(), r) == Carts.SetQuantity(old(State()), i, quantity)
    {
      if !InRange(quantity) {
        return Failure(IntegrityError);
      }
      lines := lines[i := lines[i].(quantity := quantity)];
      r := Success(lines[i].id);
    }

    method Patch(menu: Menu, i: nat, c: Changes) returns (r: Reply)
      requires Valid() && i < |lines| && Knows(menu, lines[i].item, NewOptions(lines[i], c), NewVariant(lines[i], c))
      modifies this
      ensures Valid() && (State(), r) == Carts.Patch(menu, old(State()), i, c)
    {
      if Recomposes(c) {
        r := UpdateLine(menu, i, NewOptions(lines[i], c), c.quantity, c.notes, NewVariant(lines[i], c));
      } else {
        r := Success(lines[i].id);
        if c.notes.Some? {
          lines := lines[i := lines[i].(notes := c.notes.value)];
        }
        if c.quantity.Some? {
          r := SetQuantity(i, c.quantity.value);
        }
      }
    }

    method Clear()
      modifies this
      ensures Valid() && lines == [] && next == old(next)
    {
      lines := [];
    }
  }
}

/** Finished-dish stock (StockService in apps/catalog/services.py), one update
    statement at a time, under the row locks of the transactions that call it. */
module Stock {
  import opened Wrappers
  import opened Rounding

  datatype Row = Row(tracks: bool, stock: int)

  datatype Line = Line(item: nat, quantity: nat)

  type Rows = map<nat, Row>

  /** Quantities come as a dictionary: each item once. */
  predicate Once(lines: seq<Line>) {
    forall i, j :: 0 <= i < j < |lines| ==> lines[i].item != lines[j].item
  }

  function Quantity(lines: seq<Line>, item: nat): nat {
    if lines == [] then 0
    else Quantity(lines[..|lines| - 1], item) + if lines[|lines| - 1].item == item then lines[|lines| - 1].quantity else 0
  }

  function Moved(rows: Rows, item: nat, amount: int): Rows
    requires item in rows
  {
    rows[item := rows[item].(stock := rows[item].stock + amount)]
  }

  // -------------------------------------------------------------- one statement

  /** `update(F - n)` where tracked and enough; None when there is not enough. */
  function Take(rows: Rows, l: Line): Option<Rows> {
    if l.item !in rows || !rows[l.item].tracks then Some(rows)
    else if l.quantity <= rows[l.item].stock then Some(Moved(rows, l.item, -(l.quantity as int)))
    else None
  }

  function GiveBack(rows: Rows, l: Line): Rows {
    if l.item in rows && rows[l.item].tracks then Moved(rows, l.item, l.quantity) else rows
  }

  // --------------------------------------------------------------- a whole call

  /** What is left once every line is served; None when one of them cannot be. */
  function Consumed(rows: Rows, lines: seq<Line>): Option<Rows> {
    if lines == [] then Some(rows)
    else match Consumed(rows, lines[..|lines| - 1])
      case None => None
      case Some(before) => Take(before, lines[|lines| - 1])
  }

  function Restored(rows: Rows, lines: seq<Line>): Rows {
    if lines == [] then rows else GiveBack(Restored(rows, lines[..|lines| - 1]), lines[|lines| - 1])
  }

  /** Same rows, same flags, stock moved by `sign` times the quantities where tracked. */
  ghost predicate Shifted(rows: Rows, after: Rows, lines: seq<Line>, sign: int) {
    && after.Keys == rows.Keys
    && forall x :: x in rows ==>
         after[x] == rows[x].(stock := rows[x].stock + if rows[x].tracks then sign * Quantity(lines, x) else 0)
  }

  predicate Enough(rows: Rows, lines: seq<Line>) {
    forall i :: 0 <= i < |lines| && lines[i].item in rows && rows[lines[i].item].tracks ==>
                  lines[i].quantity <= rows[lines[i].item].stock
  }

  lemma {:induction false} AbsentQuantity(lines: seq<Line>, item: nat)
    requires forall i :: 0 <= i < |lines| ==> lines[i].item != item
    ensures Quantity(lines, item) == 0
  {
    if lines != [] {
      AbsentQuantity(lines[..|lines| - 1], item);
    }
  }

  lemma {:induction false} QuantityAt(lines: seq<Line>, i: nat)
    requires Once(lines) && i < |lines|
    ensures Quantity(lines, lines[i].item) == lines[i].quantity
  {
    var n := |lines| - 1;
    if i == n {
      AbsentQuantity(lines[..n], lines[n].item);
    } else {
      QuantityAt(lines[..n], i);
    }
  }

  /** A consumption succeeds exactly when every tracked item has enough, and then
      takes from each tracked item its quantity and touches nothing else. */
  lemma {:induction false} ConsumedMeaning(rows: Rows, lines: seq<Line>)
    requires Once(lines)
    ensures Consumed(rows, lines).Some? <==> Enough(rows, lines)
    ensures Consumed(rows, lines).Some? ==> Shifted(rows, Consumed(rows, lines).value, lines, -1)
  {
    if lines != [] {
      var n := |lines| - 1;
      ConsumedMeaning(rows, lines[..n]);
      AbsentQuantity(lines[..n], lines[n].item);
      assert Enough(rows, lines) ==> Enough(rows, lines[..n]);
    }
  }

  lemma {:induction false} RestoredMeaning(rows: Rows, lines: seq<Line>)
    ensures Shifted(rows, Restored(rows, lines), lines, 1)
  {
    if lines != [] {
      RestoredMeaning(rows, lines[..|lines| - 1]);
    }
  }

  /** Tracking flags may be switched between an order and its cancellation. */
  function Reflagged(rows: Rows, flags: map<nat, bool>): Rows {
    map x | x in rows :: if x in flags then rows[x].(tracks := flags[x]) else rows[x]
  }

  /** `restore` undoes `consume` exactly when no item of the order had its tracking
      switched meanwhile: an item tracked since the order is credited units that
      were never counted, an item no longer tracked loses its own. */
  lemma RestoreUndoesConsumeIff(rows: Rows, lines: seq<Line>, flags: map<nat, bool>)
    requires Once(lines) && Consumed(rows, lines).Some?
    ensures var later := Reflagged(Consumed(rows, lines).value, flags);
            (forall x :: x in rows ==> x in Restored(later, lines) && Restored(later, lines)[x].stock == rows[x].stock) <==>
            (forall i :: 0 <= i < |lines| && lines[i].item in rows && lines[i].quantity > 0 ==>
                           lines[i].item in later && later[lines[i].item].tracks == rows[lines[i].item].tracks)
  {
    ConsumedMeaning(rows, lines);
    var later := Reflagged(Consumed(rows, lines).value, flags);
    RestoredMeaning(later, lines);
    forall i | 0 <= i < |lines| ensures Quantity(lines, lines[i].item) == lines[i].quantity {
      QuantityAt(lines, i);
    }
    forall x | x in rows && Quantity(lines, x) != 0 ensures exists i :: 0 <= i < |lines| && lines[i].item == x {
      if forall i :: 0 <= i < |lines| ==> lines[i].item != x {
        AbsentQuantity(lines, x);
      }
    }
    if forall x :: x in rows ==> Restored(later, lines)[x].stock == rows[x].stock {
      forall i | 0 <= i < |lines| && lines[i].item in rows && lines[i].quantity > 0
        ensures lines[i].item in later && later[lines[i].item].tracks == rows[lines[i].item].tracks
      {
        var x := lines[i].item;
        assert Restored(later, lines)[x].stock == rows[x].stock;
      }
    }
  }

  /** Two portions ordered while nothing is counted; counting is switched on; the
      cancellation gives the stock two units that never left it. */
  lemma RestoreInventsUnits()
    ensures var rows, lines := map[0 := Row(false, 5)], [Line(0, 2)];
            && Consumed(rows, lines) == Some(rows)
            && Restored(Reflagged(rows, map[0 := true]), lines) == map[0 := Row(true, 7)]
  {
    var rows, lines := map[0 := Row(false, 5)], [Line(0, 2)];
    assert lines[..0] == [];
    var later := Reflagged(rows, map[0 := true]);
    assert later == map[0 := Row(true, 5)];
    assert Restored(later, lines[..0]) == later;
    assert Restored(later, lines) == GiveBack(later, lines[0]) == map[0 := Row(true, 7)];
  }

  /** The table, and the calls of an order's transaction. */
  class StockTable {
    var rows: Rows

    constructor (rows: Rows)
      ensures this.rows == rows
    {
      this.rows := rows;
    }

    /** The raise in the middle of the loop rolls the whole transaction back. */
    method Consume(lines: seq<Line>) returns (shortOf: Option<nat>)
      requires Once(lines)
      modifies this
      ensures shortOf == None <==> Enough(old(rows), lines)
      ensures shortOf == None ==> Shifted(old(rows), rows, lines, -1)
      ensures shortOf.Some? ==>
                && rows == old(rows)
                && exists i :: 0 <= i < |lines| && lines[i].item == shortOf.value && !Enough(rows, [lines[i]])
    {
      ghost var before := rows;
      var saved := rows;
      for i := 0 to |lines|
        invariant Consumed(before, lines[..i]) == Some(rows)
      {
        assert lines[..i + 1][..i] == lines[..i];
        ConsumedMeaning(before, lines[..i]);
        AbsentQuantity(lines[..i], lines[i].item);
        var l := lines[i];
        if l.item in rows && rows[l.item].tracks {
          if l.quantity > rows[l.item].stock {
            rows := saved;
            assert !Enough(rows, [lines[i]]) by {
              assert [lines[i]][0].item in rows;
            }
            return Some(l.item);
          }
          rows := Moved(rows, l.item, -(l.quantity as int));
        }
      }
      assert lines[..|lines|] == lines;
      ConsumedMeaning(before, lines);
      shortOf := None;
    }

    method Restore(lines: seq<Line>)
      modifies this
      ensures Shifted(old(rows), rows, lines, 1)
    {
      for i := 0 to |lines|
        invariant rows == Restored(old(rows), lines[..i])
      {
        assert lines[..i + 1][..i] == lines[..i];
        rows := GiveBack(rows, lines[i]);
      }
      assert lines[..|lines|] == lines;
      RestoredMeaning(old(rows), lines);
    }
  }

  // ------------------------------------------------------ transactions interleaved

  datatype Stage = Placing | Held | Cancelling | Cancelled | RolledBack

  /** `done` statements have run; `undo` keeps the stock each changed row had
      before this transaction, and is also the set of rows it locks. */
  datatype Order = Order(lines: seq<Line>, stage: Stage, done: nat, undo: map<nat, int>)

  datatype Sys = Sys(rows: Rows, orders: seq<Order>)

  datatype Action =
    | Begin(lines: seq<Line>)
    | Cancel(order: nat)
    | Statement(order: nat)
    | Commit(order: nat)
    | Rollback(order: nat)

  predicate Running(o: Order) {
    o.stage == Placing || o.stage == Cancelling
  }

  predicate Locked(orders: seq<Order>, item: nat, except: nat) {
    exists j :: 0 <= j < |orders| && j != except && Running(orders[j]) && item in orders[j].undo
  }

  /** Rolling back writes the old versions of the rows. */
  function Undone(rows: Rows, undo: map<nat, int>): Rows {
    map x | x in rows :: if x in undo then rows[x].(stock := undo[x]) else rows[x]
  }

  function RolledBackTo(s: Sys, i: nat): Sys
    requires i < |s.orders|
  {
    var o := s.orders[i];
    Sys(Undone(s.rows, o.undo),
        s.orders[i := Order(o.lines, if o.stage == Placing then RolledBack else Held, 0, map[])])
  }

  /** One update statement of order `i`. */
  function Executed(s: Sys, i: nat): Sys
    requires i < |s.orders| && Running(s.orders[i]) && s.orders[i].done < |s.orders[i].lines|
  {
    var o := s.orders[i];
    var l := o.lines[o.done];
    if l.item !in s.rows || !s.rows[l.item].tracks then s.(orders := s.orders[i := o.(done := o.done + 1)])
    else
      var next := o.(done := o.done + 1, undo := o.undo[l.item := s.rows[l.item].stock]);
      if o.stage == Cancelling then Sys(Moved(s.rows, l.item, l.quantity), s.orders[i := next])
      else if l.quantity <= s.rows[l.item].stock then Sys(Moved(s.rows, l.item, -(l.quantity as int)), s.orders[i := next])
      else RolledBackTo(s, i)
  }

  /** A statement on a row locked by another transaction waits. */
  function Fire(s: Sys, a: Action): Sys {
    match a
    case Begin(lines) => if Once(lines) then s.(orders := s.orders + [Order(lines, Placing, 0, map[])]) else s
    case Cancel(i) =>
      if i < |s.orders| && s.orders[i].stage == Held
      then s.(orders := s.orders[i := s.orders[i].(stage := Cancelling, done := 0, undo := map[])]) else s
    case Statement(i) =>
      if i >= |s.orders| || !Running(s.orders[i]) || s.orders[i].done >= |s.orders[i].lines|
         || Locked(s.orders, s.orders[i].lines[s.orders[i].done].item, i) then s
      else Executed(s, i)
    case Commit(i) =>
      if i >= |s.orders| || !Running(s.orders[i]) || s.orders[i].done < |s.orders[i].lines| then s
      else s.(orders := s.orders[i := Order(s.orders[i].lines, if s.orders[i].stage == Placing then Held else Cancelled, 0, map[])])
    case Rollback(i) => if i < |s.orders| && Running(s.orders[i]) then RolledBackTo(s, i) else s
  }

  function FireAll(s: Sys, actions: seq<Action>): Sys {
    if actions == [] then s else Fire(FireAll(s, actions[..|actions| - 1]), actions[|actions| - 1])
  }

  /** What an order keeps out of the stock of an item at this moment. */
  function Kept(o: Order, item: nat): nat {
    match o.stage
    case Held => Quantity(o.lines, item)
    case Placing => if o.done <= |o.lines| then Quantity(o.lines[..o.done], item) else 0
    case Cancelling => if o.done <= |o.lines| then Quantity(o.lines[o.done..], item) else 0
    case _ => 0
  }

  function AllKept(orders: seq<Order>, item: nat): seq<int> {
    seq(|orders|, i requires 0 <= i < |orders| => Kept(orders[i], item))
  }

  /** Which way a running transaction moved the rows it changed. */
  function Signed(o: Order, quantity: nat): int {
    if o.stage == Cancelling then quantity else -(quantity as int)
  }

  predicate WentThrough(o: Order, item: nat) {
    exists k :: 0 <= k < o.done && k < |o.lines| && o.lines[k].item == item
  }

  /** The old version of a row, and what this transaction did to it since. */
  predicate Reverts(rows: Rows, o: Order, item: nat)
    requires item in o.undo && o.done <= |o.lines|
  {
    && item in rows && rows[item].tracks && 0 <= o.undo[item]
    && rows[item].stock == o.undo[item] + Signed(o, Quantity(o.lines[..o.done], item))
    && WentThrough(o, item)
  }

  /** A running transaction can undo what it did: it has the old version of exactly
      the tracked rows it went through. */
  ghost predicate CanUndo(rows: Rows, o: Order) {
    Running(o) ==>
      && o.done <= |o.lines|
      && (forall k :: 0 <= k < o.done && o.lines[k].item in rows && rows[o.lines[k].item].tracks ==> o.lines[k].item in o.undo)
      && (forall x :: x in o.undo ==> Reverts(rows, o, x))
  }

  ghost predicate LocksExclude(orders: seq<Order>) {
    forall i, j, x :: 0 <= i < |orders| && 0 <= j < |orders| && i != j && Running(orders[i]) && Running(orders[j]) && x in orders[i].undo ==>
                        x !in orders[j].undo
  }

  ghost predicate Sane(s: Sys) {
    && (forall i :: 0 <= i < |s.orders| ==> Once(s.orders[i].lines) && CanUndo(s.rows, s.orders[i]))
    && LocksExclude(s.orders)
  }

  /** Conservation: remaining stock plus what orders keep is the initial stock. */
  ghost predicate Conserved(s: Sys, initial: Rows) {
    && s.rows.Keys == initial.Keys
    && forall x :: x in initial ==>
         && s.rows[x].tracks == initial[x].tracks
         && 0 <= s.rows[x].stock
         && if initial[x].tracks then s.rows[x].stock + Sum(AllKept(s.orders, x)) == initial[x].stock
            else s.rows[x].stock == initial[x].stock
  }

  lemma {:induction false} QuantityConcat(a: seq<Line>, b: seq<Line>, item: nat)
    ensures Quantity(a + b, item) == Quantity(a, item) + Quantity(b, item)
  {
    if b == [] {
      assert a + b == a;
    } else {
      assert (a + b)[..|a + b| - 1] == a + b[..|b| - 1];
      QuantityConcat(a, b[..|b| - 1], item);
    }
  }

  lemma QuantitySplit(lines: seq<Line>, n: nat, item: nat)
    requires n <= |lines|
    ensures Quantity(lines, item) == Quantity(lines[..n], item) + Quantity(lines[n..], item)
  {
    assert lines == lines[..n] + lines[n..];
    QuantityConcat(lines[..n], lines[n..], item);
  }

  lemma QuantityStep(lines: seq<Line>, n: nat, item: nat)
    requires n < |lines|
    ensures Quantity(lines[..n + 1], item) == Quantity(lines[..n], item) + if lines[n].item == item then lines[n].quantity else 0
    ensures Quantity(lines[n + 1..], item) == Quantity(lines[n..], item) - if lines[n].item == item then lines[n].quantity else 0
  {
    assert lines[..n + 1][..n] == lines[..n];
    QuantitySplit(lines, n, item);
    QuantitySplit(lines, n + 1, item);
  }

  /** Conservation only depends on the one order that moved and the rows it moved. */
  lemma OneOrderMoves(s: Sys, t: Sys, i: nat, o: Order, initial: Rows)
    requires Conserved(s, initial) && i < |s.orders| && t.orders == s.orders[i := o] && t.rows.Keys == s.rows.Keys
    requires forall x :: x in s.rows ==> t.rows[x].tracks == s.rows[x].tracks && 0 <= t.rows[x].stock
    requires forall x :: x in s.rows ==>
               if s.rows[x].tracks then t.rows[x].stock + Kept(o, x) == s.rows[x].stock + Kept(s.orders[i], x)
               else t.rows[x].stock == s.rows[x].stock
    ensures Conserved(t, initial)
  {
    forall x | x in initial && initial[x].tracks ensures t.rows[x].stock + Sum(AllKept(t.orders, x)) == initial[x].stock {
      assert AllKept(t.orders, x) == AllKept(s.orders, x)[i := Kept(o, x)];
      SumUpdate(AllKept(s.orders, x), i, Kept(o, x));
    }
  }

  lemma BeginConserves(s: Sys, o: Order, initial: Rows)
    requires Conserved(s, initial) && o.stage == Placing && o.done == 0
    ensures Conserved(s.(orders := s.orders + [o]), initial)
  {
    var orders := s.orders + [o];
    forall x | x in initial && initial[x].tracks ensures s.rows[x].stock + Sum(AllKept(orders, x)) == initial[x].stock {
      assert AllKept(orders, x) == AllKept(s.orders, x) + [Kept(o, x)];
      SumAppend(AllKept(s.orders, x), Kept(o, x));
    }
  }

  lemma BeginKeeps(s: Sys, lines: seq<Line>, initial: Rows)
    requires Sane(s) && Conserved(s, initial)
    ensures Sane(Fire(s, Begin(lines))) && Conserved(Fire(s, Begin(lines)), initial)
  {
    if Once(lines) {
      BeginConserves(s, Order(lines, Placing, 0, map[]), initial);
    }
  }

  /** Orders other than `i` keep what they need as long as their rows stand still. */
  lemma OthersStaySane(s: Sys, t: Sys, i: nat, o: Order)
    requires Sane(s) && i < |s.orders| && t.orders == s.orders[i := o] && t.rows.Keys == s.rows.Keys
    requires forall x :: x in s.rows ==> t.rows[x].tracks == s.rows[x].tracks
    requires forall x :: x in s.rows && Locked(s.orders, x, i) ==> t.rows[x] == s.rows[x]
    requires Once(o.lines) && CanUndo(t.rows, o)
    requires Running(o) ==> forall x :: x in o.undo ==> !Locked(s.orders, x, i)
    ensures Sane(t)
  {
    forall j | 0 <= j < |t.orders| ensures Once(t.orders[j].lines) && CanUndo(t.rows, t.orders[j]) {
      if j != i && Running(s.orders[j]) {
        assert CanUndo(s.rows, s.orders[j]);
        forall x | x in s.orders[j].undo ensures t.rows[x] == s.rows[x] {
          assert Locked(s.orders, x, i);
        }
      }
    }
    forall a, b, x | 0 <= a < |t.orders| && 0 <= b < |t.orders| && a != b && Running(t.orders[a]) && Running(t.orders[b]) && x in t.orders[a].undo
      ensures x !in t.orders[b].undo
    {
      if a == i {
        assert x in t.orders[b].undo ==> Locked(s.orders, x, i);
      } else if b == i {
        assert Locked(s.orders, x, i);
      }
    }
  }

  lemma NotLockedByOthers(s: Sys, i: nat)
    requires Sane(s) && i < |s.orders| && Running(s.orders[i])
    ensures forall x :: x in s.orders[i].undo ==> !Locked(s.orders, x, i)
  {
  }

  lemma CancelKeeps(s: Sys, i: nat, initial: Rows)
    requires Sane(s) && Conserved(s, initial)
    ensures Sane(Fire(s, Cancel(i))) && Conserved(Fire(s, Cancel(i)), initial)
  {
    if i < |s.orders| && s.orders[i].stage == Held {
      var t, o := Fire(s, Cancel(i)), s.orders[i].(stage := Cancelling, done := 0, undo := map[]);
      assert o.lines[0..] == o.lines;
      OthersStaySane(s, t, i, o);
      OneOrderMoves(s, t, i, o, initial);
    }
  }

  lemma CommitKeeps(s: Sys, i: nat, initial: Rows)
    requires Sane(s) && Conserved(s, initial)
    ensures Sane(Fire(s, Commit(i))) && Conserved(Fire(s, Commit(i)), initial)
  {
    var t := Fire(s, Commit(i));
    if t != s {
      var o := t.orders[i];
      assert CanUndo(s.rows, s.orders[i]);
      assert s.orders[i].lines[..s.orders[i].done] == s.orders[i].lines;
      assert s.orders[i].lines[s.orders[i].done..] == [];
      OthersStaySane(s, t, i, o);
      OneOrderMoves(s, t, i, o, initial);
    }
  }

  /** Writing back the old versions gives back exactly what the transaction moved. */
  lemma UndoneMeaning(rows: Rows, o: Order, x: nat)
    requires Running(o) && CanUndo(rows, o) && x in rows && rows[x].tracks
    ensures Undone(rows, o.undo)[x].stock == rows[x].stock - Signed(o, Quantity(o.lines[..o.done], x))
  {
    if x !in o.undo {
      AbsentQuantity(o.lines[..o.done], x);
    }
  }

  lemma RollbackKeeps(s: Sys, i: nat, initial: Rows)
    requires Sane(s) && Conserved(s, initial) && i < |s.orders| && Running(s.orders[i])
    ensures Sane(RolledBackTo(s, i)) && Conserved(RolledBackTo(s, i), initial)
  {
    var t, o := RolledBackTo(s, i), s.orders[i];
    NotLockedByOthers(s, i);
    assert CanUndo(s.rows, o);
    OthersStaySane(s, t, i, t.orders[i]);
    forall x | x in s.rows && s.rows[x].tracks ensures t.rows[x].stock + Kept(t.orders[i], x) == s.rows[x].stock + Kept(o, x) {
      UndoneMeaning(s.rows, o, x);
      QuantitySplit(o.lines, o.done, x);
    }
    OneOrderMoves(s, t, i, t.orders[i], initial);
  }

  lemma SkipKeeps(s: Sys, i: nat, initial: Rows)
    requires Sane(s) && Conserved(s, initial) && i < |s.orders| && Running(s.orders[i]) && s.orders[i].done < |s.orders[i].lines|
    requires var l := s.orders[i].lines[s.orders[i].done]; l.item !in s.rows || !s.rows[l.item].tracks
    ensures Sane(Executed(s, i)) && Conserved(Executed(s, i), initial)
  {
    var t, o := Executed(s, i), s.orders[i].(done := s.orders[i].done + 1);
    NotLockedByOthers(s, i);
    SkippedCanUndo(s.rows, s.orders[i]);
    forall x | x in s.rows && s.rows[x].tracks ensures Kept(o, x) == Kept(s.orders[i], x) {
      QuantityStep(o.lines, s.orders[i].done, x);
    }
    OthersStaySane(s, t, i, o);
    OneOrderMoves(s, t, i, o, initial);
  }

  lemma SkippedCanUndo(rows: Rows, o: Order)
    requires CanUndo(rows, o) && Running(o) && o.done < |o.lines|
    requires o.lines[o.done].item !in rows || !rows[o.lines[o.done].item].tracks
    ensures CanUndo(rows, o.(done := o.done + 1))
  {
    forall x | x in rows && rows[x].tracks ensures Quantity(o.lines[..o.done + 1], x) == Quantity(o.lines[..o.done], x) {
      QuantityStep(o.lines, o.done, x);
    }
  }

  /** The row the statement changes was not yet changed by this transaction. */
  lemma RowIsUntouched(s: Sys, i: nat)
    requires Sane(s) && i < |s.orders| && Running(s.orders[i]) && s.orders[i].done < |s.orders[i].lines|
    ensures s.orders[i].lines[s.orders[i].done].item !in s.orders[i].undo
  {
    assert CanUndo(s.rows, s.orders[i]) && Once(s.orders[i].lines);
  }

  lemma MoveReverts(rows: Rows, o: Order, l: Line, x: nat)
    requires Running(o) && Once(o.lines) && o.done < |o.lines| && l == o.lines[o.done]
    requires l.item in rows && rows[l.item].tracks && l.item !in o.undo && 0 <= rows[l.item].stock
    requires x == l.item || (x in o.undo && Reverts(rows, o, x))
    ensures Reverts(Moved(rows, l.item, Signed(o, l.quantity)), o.(done := o.done + 1, undo := o.undo[l.item := rows[l.item].stock]), x)
  {
    var next := o.(done := o.done + 1, undo := o.undo[l.item := rows[l.item].stock]);
    QuantityStep(o.lines, o.done, x);
    if x == l.item {
      AbsentQuantity(o.lines[..o.done], x);
      assert next.lines[o.done].item == x;
    } else {
      var k :| 0 <= k < o.done && k < |o.lines| && o.lines[k].item == x;
      assert 0 <= k < next.done && next.lines[k].item == x;
    }
  }

  lemma MoveCanBeUndone(rows: Rows, o: Order, l: Line)
    requires Running(o) && Once(o.lines) && CanUndo(rows, o) && o.done < |o.lines| && l == o.lines[o.done]
    requires l.item in rows && rows[l.item].tracks && l.item !in o.undo && 0 <= rows[l.item].stock
    ensures CanUndo(Moved(rows, l.item, Signed(o, l.quantity)), o.(done := o.done + 1, undo := o.undo[l.item := rows[l.item].stock]))
  {
    var next := o.(done := o.done + 1, undo := o.undo[l.item := rows[l.item].stock]);
    forall x | x in next.undo ensures Reverts(Moved(rows, l.item, Signed(o, l.quantity)), next, x) {
      MoveReverts(rows, o, l, x);
    }
  }

  lemma MoveKeeps(s: Sys, i: nat, initial: Rows)
    requires Sane(s) && Conserved(s, initial) && i < |s.orders| && Running(s.orders[i]) && s.orders[i].done < |s.orders[i].lines|
    requires var l := s.orders[i].lines[s.orders[i].done];
             && l.item in s.rows && s.rows[l.item].tracks && !Locked(s.orders, l.item, i)
             && (s.orders[i].stage == Cancelling || l.quantity <= s.rows[l.item].stock)
    ensures Sane(Executed(s, i)) && Conserved(Executed(s, i), initial)
  {
    var t, before := Executed(s, i), s.orders[i];
    var o, l := t.orders[i], before.lines[before.done];
    assert t.rows == Moved(s.rows, l.item, Signed(before, l.quantity));
    NotLockedByOthers(s, i);
    RowIsUntouched(s, i);
    MoveCanBeUndone(s.rows, before, l);
    OthersStaySane(s, t, i, o);
    MoveBalances(s.rows, before, l);
    OneOrderMoves(s, t, i, o, initial);
  }

  /** What leaves the stock is what the order keeps from now on. */
  lemma MoveBalances(rows: Rows, o: Order, l: Line)
    requires Running(o) && o.done < |o.lines| && l == o.lines[o.done] && l.item in rows
    ensures var after, next := Moved(rows, l.item, Signed(o, l.quantity)), o.(done := o.done + 1, undo := o.undo[l.item := rows[l.item].stock]);
            forall x :: x in rows ==> after[x].stock + Kept(next, x) == rows[x].stock + Kept(o, x)
  {
    forall x | x in rows
      ensures Quantity(o.lines[..o.done + 1], x) == Quantity(o.lines[..o.done], x) + if l.item == x then l.quantity else 0
      ensures Quantity(o.lines[o.done + 1..], x) == Quantity(o.lines[o.done..], x) - if l.item == x then l.quantity else 0
    {
      QuantityStep(o.lines, o.done, x);
    }
  }

  lemma FireKeeps(s: Sys, a: Action, initial: Rows)
    requires Sane(s) && Conserved(s, initial)
    ensures Sane(Fire(s, a)) && Conserved(Fire(s, a), initial)
  {
    match a
    case Begin(lines) => BeginKeeps(s, lines, initial);
    case Cancel(i) => CancelKeeps(s, i, initial);
    case Commit(i) => CommitKeeps(s, i, initial);
    case Rollback(i) => if i < |s.orders| && Running(s.orders[i]) { RollbackKeeps(s, i, initial); }
    case Statement(i) =>
      if Fire(s, a) != s {
        var l := s.orders[i].lines[s.orders[i].done];
        if l.item !in s.rows || !s.rows[l.item].tracks {
          SkipKeeps(s, i, initial);
        } else if s.orders[i].stage == Cancelling || l.quantity <= s.rows[l.item].stock {
          MoveKeeps(s, i, initial);
        } else {
          RollbackKeeps(s, i, initial);
        }
      }
  }

  /** Whatever the interleaving of orders and cancellations, statement by statement,
      refusals and rollbacks included: remaining stock plus what uncancelled orders
      keep is the initial stock, and no stock is ever negative. */
  lemma {:induction false} StockIsConserved(rows: Rows, actions: seq<Action>)
    requires forall x :: x in rows ==> 0 <= rows[x].stock
    ensures Sane(FireAll(Sys(rows, []), actions)) && Conserved(FireAll(Sys(rows, []), actions), rows)
  {
    if actions == [] {
      forall x ensures Sum(AllKept([], x)) == 0 {
        assert AllKept([], x) == [];
      }
    } else {
      StockIsConserved(rows, actions[..|actions| - 1]);
      FireKeeps(FireAll(Sys(rows, []), actions[..|actions| - 1]), actions[|actions| - 1], rows);
    }
  }
}

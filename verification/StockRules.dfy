/** The interleaved stock transactions of one order that nobody crosses, put together:
    they are the calls of StockService (apps/catalog/services.py). */
module StockRules {
  import opened Wrappers
  import opened Stock

  predicate NobodyRuns(orders: seq<Order>) {
    forall j :: 0 <= j < |orders| ==> orders[j].stage != Placing && orders[j].stage != Cancelling
  }

  /** An order of these lines placed and served by nobody else in between. */
  function Placed(lines: seq<Line>, i: nat, n: nat): seq<Action> {
    [Begin(lines)] + seq(n, _ => Statement(i))
  }

  /** Halfway: the rows are those of the lines served so far, and rolling back would give
      the rows it found. */
  ghost predicate Halfway(s: Sys, t: Sys, lines: seq<Line>, n: nat) {
    n <= |lines| && exists undo: map<nat, int> ::
      && t.orders == s.orders + [Order(lines, Placing, n, undo)]
      && Consumed(s.rows, lines[..n]) == Some(t.rows) && Undone(t.rows, undo) == s.rows
      && forall x :: x in undo ==> exists k :: 0 <= k < n && lines[k].item == x
  }

  /** Over: nothing moved, and the order keeps nothing. */
  predicate GaveUp(s: Sys, t: Sys, lines: seq<Line>) {
    t == Sys(s.rows, s.orders + [Order(lines, RolledBack, 0, map[])])
  }

  lemma NobodyElseLocks(orders: seq<Order>, o: Order, item: nat)
    requires NobodyRuns(orders)
    ensures !Locked(orders + [o], item, |orders|)
  {
  }

  lemma NextStatement(s: Sys, t: Sys, lines: seq<Line>, n: nat)
    requires Once(lines) && NobodyRuns(s.orders) && n < |lines| && Halfway(s, t, lines, n)
    ensures var u := Fire(t, Statement(|s.orders|));
            if Consumed(s.rows, lines[..n + 1]).Some? then Halfway(s, u, lines, n + 1) else GaveUp(s, u, lines)
  {
    var undo: map<nat, int> :|
      && t.orders == s.orders + [Order(lines, Placing, n, undo)]
      && Consumed(s.rows, lines[..n]) == Some(t.rows) && Undone(t.rows, undo) == s.rows
      && forall x :: x in undo ==> exists k :: 0 <= k < n && lines[k].item == x;
    var o, l, i := Order(lines, Placing, n, undo), lines[n], |s.orders|;
    var u := Fire(t, Statement(i));
    NobodyElseLocks(s.orders, o, l.item);
    assert t.orders[i] == o && u == Executed(t, i);
    assert lines[..n + 1][..n] == lines[..n];
    assert l.item !in undo;
    if l.item !in t.rows || !t.rows[l.item].tracks {
      assert u.orders == s.orders + [Order(lines, Placing, n + 1, undo)];
    } else if l.quantity <= t.rows[l.item].stock {
      var undo' := undo[l.item := t.rows[l.item].stock];
      assert u.orders == s.orders + [Order(lines, Placing, n + 1, undo')];
      assert Undone(u.rows, undo') == s.rows;
    } else {
      assert u.orders == s.orders + [Order(lines, RolledBack, 0, map[])];
    }
  }

  lemma PlacedStep(lines: seq<Line>, i: nat, n: nat)
    requires n > 0
    ensures Placed(lines, i, n)[..n] == Placed(lines, i, n - 1) && Placed(lines, i, n)[n] == Statement(i)
  {
  }

  /** After its first `n` statements the order is halfway, or has given up. */
  lemma {:induction false} PlacedMeaning(s: Sys, lines: seq<Line>, n: nat)
    requires Once(lines) && NobodyRuns(s.orders) && n <= |lines|
    ensures var t := FireAll(s, Placed(lines, |s.orders|, n));
            if Consumed(s.rows, lines[..n]).Some? then Halfway(s, t, lines, n) else GaveUp(s, t, lines)
  {
    var i := |s.orders|;
    if n == 0 {
      var t := FireAll(s, Placed(lines, i, 0));
      assert Placed(lines, i, 0) == [Begin(lines)] && [Begin(lines)][..0] == [];
      assert FireAll(s, []) == s;
      var none: map<nat, int> := map[];
      assert Undone(t.rows, none) == s.rows;
      assert t.orders == s.orders + [Order(lines, Placing, 0, none)];
    } else {
      PlacedMeaning(s, lines, n - 1);
      PlacedStep(lines, i, n);
      assert lines[..n][..n - 1] == lines[..n - 1];
      if Consumed(s.rows, lines[..n - 1]).Some? {
        NextStatement(s, FireAll(s, Placed(lines, i, n - 1)), lines, n - 1);
      }
    }
  }

  /** An order served alone: when every tracked item has enough, it ends held and each of
      them has lost its quantity; otherwise it ends rolled back and nothing moved. */
  lemma AloneIsConsume(s: Sys, lines: seq<Line>)
    requires Once(lines) && NobodyRuns(s.orders)
    ensures var t := FireAll(s, Placed(lines, |s.orders|, |lines|) + [Commit(|s.orders|)]);
            if Enough(s.rows, lines)
            then Shifted(s.rows, t.rows, lines, -1) && t.orders == s.orders + [Order(lines, Held, 0, map[])]
            else t == Sys(s.rows, s.orders + [Order(lines, RolledBack, 0, map[])])
  {
    var i := |s.orders|;
    var acts := Placed(lines, i, |lines|) + [Commit(i)];
    assert acts[..|acts| - 1] == Placed(lines, i, |lines|);
    assert lines[..|lines|] == lines;
    PlacedMeaning(s, lines, |lines|);
    ConsumedMeaning(s.rows, lines);
    LastCommit(s, FireAll(s, Placed(lines, i, |lines|)), lines);
  }

  lemma LastCommit(s: Sys, t: Sys, lines: seq<Line>)
    requires Halfway(s, t, lines, |lines|) || GaveUp(s, t, lines)
    ensures var u := Fire(t, Commit(|s.orders|));
            if GaveUp(s, t, lines) then u == t else u == Sys(t.rows, s.orders + [Order(lines, Held, 0, map[])])
  {
    assert t.orders[..|s.orders|] == s.orders;
    assert !GaveUp(s, t, lines) ==> Fire(t, Commit(|s.orders|)).orders == s.orders + [Order(lines, Held, 0, map[])];
  }

  /** A transaction rolled back at whatever point leaves the rows it found. */
  lemma RollbackForgets(s: Sys, lines: seq<Line>, n: nat)
    requires Once(lines) && NobodyRuns(s.orders) && n <= |lines|
    ensures FireAll(s, Placed(lines, |s.orders|, n) + [Rollback(|s.orders|)]) == Sys(s.rows, s.orders + [Order(lines, RolledBack, 0, map[])])
  {
    var i := |s.orders|;
    var acts := Placed(lines, i, n) + [Rollback(i)];
    assert acts[..|acts| - 1] == Placed(lines, i, n);
    PlacedMeaning(s, lines, n);
    LastRollback(s, FireAll(s, Placed(lines, i, n)), lines, n);
  }

  lemma LastRollback(s: Sys, t: Sys, lines: seq<Line>, n: nat)
    requires Halfway(s, t, lines, n) || GaveUp(s, t, lines)
    ensures GaveUp(s, Fire(t, Rollback(|s.orders|)), lines)
  {
    assert !GaveUp(s, t, lines) ==> Fire(t, Rollback(|s.orders|)).orders == s.orders + [Order(lines, RolledBack, 0, map[])];
  }

  // ---------------------------------------------------------------- the cancellation

  function CancelledBy(i: nat, n: nat): seq<Action> {
    [Cancel(i)] + seq(n, _ => Statement(i))
  }

  ghost predicate HalfBack(s: Sys, t: Sys, i: nat, n: nat)
    requires i < |s.orders|
  {
    n <= |s.orders[i].lines| && exists undo: map<nat, int> ::
      && t.orders == s.orders[i := Order(s.orders[i].lines, Cancelling, n, undo)]
      && Restored(s.rows, s.orders[i].lines[..n]) == t.rows
  }

  lemma NextBack(s: Sys, t: Sys, i: nat, n: nat)
    requires i < |s.orders| && NobodyRuns(s.orders) && n < |s.orders[i].lines| && HalfBack(s, t, i, n)
    ensures HalfBack(s, Fire(t, Statement(i)), i, n + 1)
  {
    var lines := s.orders[i].lines;
    var undo: map<nat, int> :|
      t.orders == s.orders[i := Order(lines, Cancelling, n, undo)] && Restored(s.rows, lines[..n]) == t.rows;
    var l, u := lines[n], Fire(t, Statement(i));
    assert !Locked(t.orders, l.item, i);
    assert t.orders[i] == Order(lines, Cancelling, n, undo) && u == Executed(t, i);
    assert lines[..n + 1][..n] == lines[..n];
    var undo' := u.orders[i].undo;
    assert u.orders == s.orders[i := Order(lines, Cancelling, n + 1, undo')];
  }

  lemma {:induction false} CancelledMeaning(s: Sys, i: nat, n: nat)
    requires i < |s.orders| && s.orders[i].stage == Held && NobodyRuns(s.orders) && n <= |s.orders[i].lines|
    ensures HalfBack(s, FireAll(s, CancelledBy(i, n)), i, n)
  {
    if n == 0 {
      assert CancelledBy(i, 0) == [Cancel(i)] && [Cancel(i)][..0] == [];
      assert FireAll(s, []) == s;
      var none: map<nat, int> := map[];
      assert FireAll(s, CancelledBy(i, 0)).orders == s.orders[i := Order(s.orders[i].lines, Cancelling, 0, none)];
    } else {
      CancelledMeaning(s, i, n - 1);
      assert CancelledBy(i, n)[..n] == CancelledBy(i, n - 1) && CancelledBy(i, n)[n] == Statement(i);
      NextBack(s, FireAll(s, CancelledBy(i, n - 1)), i, n - 1);
    }
  }

  /** A held order cancelled alone ends cancelled, and each item tracked now has its
      quantity more. */
  lemma AloneIsRestore(s: Sys, i: nat)
    requires i < |s.orders| && s.orders[i].stage == Held && NobodyRuns(s.orders)
    ensures var lines := s.orders[i].lines;
            var t := FireAll(s, CancelledBy(i, |lines|) + [Commit(i)]);
            && Shifted(s.rows, t.rows, lines, 1)
            && t.orders == s.orders[i := Order(lines, Cancelled, 0, map[])]
  {
    var lines := s.orders[i].lines;
    var acts := CancelledBy(i, |lines|) + [Commit(i)];
    assert acts[..|acts| - 1] == CancelledBy(i, |lines|);
    assert lines[..|lines|] == lines;
    CancelledMeaning(s, i, |lines|);
    RestoredMeaning(s.rows, lines);
    assert FireAll(s, acts).orders == s.orders[i := Order(lines, Cancelled, 0, map[])];
  }
}

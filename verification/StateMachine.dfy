/** The declarative state machines of common/state_machine.py.

    A table maps every declared state to its allowed targets. The table is
    checked once, when the machine is built: every target must itself be
    declared, and (unless the caller opts out) no cycle may exist. Iteration
    order is left open here, so every result holds for the sorted order the
    program uses. */
module StateMachines {
  import opened Wrappers

  type Table<S> = map<S, set<S>>

  // ------------------------------------------------------------- graph notions

  /** Every target is itself a source. */
  ghost predicate Declared<S(!new)>(t: Table<S>) {
    forall a, b :: a in t && b in t[a] ==> b in t
  }

  predicate Edge<S>(t: Table<S>, a: S, b: S) {
    a in t && b in t[a]
  }

  /** A non-empty sequence of states, each followed by one of its targets. */
  ghost predicate Walk<S>(t: Table<S>, p: seq<S>) {
    && |p| > 0
    && p[0] in t
    && forall i, j :: 0 <= i < |p| && j == i + 1 && j < |p| ==> Edge(t, p[i], p[j])
  }

  ghost predicate Cycle<S>(t: Table<S>, p: seq<S>) {
    Walk(t, p) && |p| >= 2 && p[0] == p[|p| - 1]
  }

  ghost predicate Acyclic<S(!new)>(t: Table<S>) {
    forall p: seq<S> :: !Cycle(t, p)
  }

  /** A walk whose last state already occurs earlier on it. */
  ghost predicate ClosesCycle<S>(t: Table<S>, p: seq<S>) {
    Walk(t, p) && |p| >= 2 && p[|p| - 1] in p[..|p| - 1]
  }

  ghost predicate WalkBetween<S>(t: Table<S>, p: seq<S>, a: S, b: S) {
    Walk(t, p) && |p| >= 2 && p[0] == a && p[|p| - 1] == b
  }

  /** b can be entered from a by one or more transitions. */
  ghost predicate Reaches<S(!new)>(t: Table<S>, a: S, b: S) {
    exists p: seq<S> :: WalkBetween(t, p, a, b)
  }

  lemma {:induction false} WalkStaysDeclared<S(!new)>(t: Table<S>, p: seq<S>, i: nat)
    requires Declared(t) && Walk(t, p) && i < |p|
    ensures p[i] in t
  {
    if i > 0 {
      WalkStaysDeclared(t, p, i - 1);
      assert Edge(t, p[i - 1], p[i]);
    }
  }

  lemma SubWalk<S(!new)>(t: Table<S>, p: seq<S>, i: nat, j: nat)
    requires Declared(t) && Walk(t, p) && i < j <= |p|
    ensures Walk(t, p[i..j])
  {
    WalkStaysDeclared(t, p, i);
    var q := p[i..j];
    forall a, b | 0 <= a < |q| && b == a + 1 && b < |q|
      ensures Edge(t, q[a], q[b])
    {
      assert q[a] == p[i + a] && q[b] == p[i + a + 1];
    }
  }

  lemma ExtendWalk<S>(t: Table<S>, p: seq<S>, b: S)
    requires Walk(t, p) && Edge(t, p[|p| - 1], b)
    ensures Walk(t, p + [b])
  {
    var q := p + [b];
    forall i, j | 0 <= i < |q| && j == i + 1 && j < |q|
      ensures Edge(t, q[i], q[j])
    {
      if j < |p| {
        assert q[i] == p[i] && q[j] == p[j];
      } else {
        assert q[i] == p[|p| - 1];
      }
    }
  }

  lemma ReachesStep<S(!new)>(t: Table<S>, a: S, b: S, c: S)
    requires a in t && Edge(t, b, c) && (a == b || Reaches(t, a, b))
    ensures Reaches(t, a, c)
  {
    if Reaches(t, a, b) {
      var p :| WalkBetween(t, p, a, b);
      ExtendWalk(t, p, c);
      assert WalkBetween(t, p + [c], a, c);
    } else {
      assert WalkBetween(t, [a, c], a, c);
    }
  }

  /** What a raised cycle report proves. */
  lemma ClosedCycleRefutesAcyclic<S(!new)>(t: Table<S>, p: seq<S>)
    requires Declared(t) && ClosesCycle(t, p)
    ensures !Acyclic(t)
  {
    var k :| 0 <= k < |p| - 1 && p[k] == p[|p| - 1];
    SubWalk(t, p, k, |p|);
    assert Cycle(t, p[k..]);
  }

  /** In an accepted machine no run enters the same state twice. */
  lemma RunsNeverRevisit<S(!new)>(t: Table<S>, p: seq<S>, i: nat, j: nat)
    requires Declared(t) && Acyclic(t) && Walk(t, p) && i < j < |p|
    ensures p[i] != p[j]
  {
    if p[i] == p[j] {
      SubWalk(t, p, i, j + 1);
      assert Cycle(t, p[i..j + 1]);
    }
  }

  lemma {:induction false} DistinctLength<S>(p: seq<S>, universe: set<S>)
    requires forall i :: 0 <= i < |p| ==> p[i] in universe
    requires forall i, j :: 0 <= i < j < |p| ==> p[i] != p[j]
    ensures |p| <= |universe|
  {
    if |p| > 0 {
      var last := p[|p| - 1];
      DistinctLength(p[..|p| - 1], universe - {last});
    }
  }

  /** ... so every run is at most as long as the number of states. */
  lemma RunsAreShort<S(!new)>(t: Table<S>, p: seq<S>)
    requires Declared(t) && Acyclic(t) && Walk(t, p)
    ensures |p| <= |t|
  {
    forall i | 0 <= i < |p| ensures p[i] in t.Keys {
      WalkStaysDeclared(t, p, i);
    }
    forall i, j | 0 <= i < j < |p| ensures p[i] != p[j] {
      RunsNeverRevisit(t, p, i, j);
    }
    DistinctLength(p, t.Keys);
    assert |t.Keys| == |t|;
  }

  predicate IsTerminal<S>(t: Table<S>, s: S)
    requires s in t
  {
    t[s] == {}
  }

  /** Every run of an accepted machine can be continued to a terminal state. */
  lemma {:induction false} EveryRunCanEnd<S(!new)>(t: Table<S>, p: seq<S>) returns (q: seq<S>)
    requires Declared(t) && Acyclic(t) && Walk(t, p)
    ensures Walk(t, q) && |p| <= |q| && p == q[..|p|]
    ensures q[|q| - 1] in t && IsTerminal(t, q[|q| - 1])
    decreases |t| - |p|
  {
    RunsAreShort(t, p);
    WalkStaysDeclared(t, p, |p| - 1);
    var last := p[|p| - 1];
    if IsTerminal(t, last) {
      q := p;
    } else {
      var next :| next in t[last];
      ExtendWalk(t, p, next);
      RunsAreShort(t, p + [next]);
      q := EveryRunCanEnd(t, p + [next]);
      assert p == q[..|p + [next]|][..|p|];
    }
  }

  // ----------------------------------------------------- the acyclicity search

  /** `order` lists states so that the targets of each come before it. */
  ghost predicate Finished<S>(t: Table<S>, order: seq<S>) {
    && (forall i :: 0 <= i < |order| ==> order[i] in t && t[order[i]] <= Elements(order[..i]))
    && (forall i, j :: 0 <= i < j < |order| ==> order[i] != order[j])
  }

  ghost function Elements<S>(p: seq<S>): set<S> {
    set i | 0 <= i < |p| :: p[i]
  }

  ghost function Rank<S>(order: seq<S>, s: S): (i: nat)
    requires s in order
    ensures i < |order| && order[i] == s
  {
    var i :| 0 <= i < |order| && order[i] == s;
    i
  }

  lemma {:induction false} WalkGoesDown<S>(t: Table<S>, order: seq<S>, p: seq<S>)
    requires Finished(t, order) && Walk(t, p) && p[0] in order
    ensures p[|p| - 1] in order
    ensures |p| >= 2 ==> Rank(order, p[|p| - 1]) < Rank(order, p[0])
  {
    if |p| >= 2 {
      var q := p[..|p| - 1];
      assert Walk(t, q) by {
        forall i, j | 0 <= i < |q| && j == i + 1 && j < |q|
          ensures Edge(t, q[i], q[j])
        {
          assert q[i] == p[i] && q[j] == p[j];
        }
      }
      WalkGoesDown(t, order, q);
      var a, b := p[|p| - 2], p[|p| - 1];
      assert Edge(t, a, b);
      var k := Rank(order, a);
      assert b in Elements(order[..k]);
      var m :| 0 <= m < |order[..k]| && order[..k][m] == b;
      assert order[m] == b;
      assert Rank(order, b) == m;
    }
  }

  lemma FinishedMeansAcyclic<S(!new)>(t: Table<S>, order: seq<S>)
    requires Finished(t, order) && forall s :: s in t ==> s in order
    ensures Acyclic(t)
  {
    forall p: seq<S> ensures !Cycle(t, p) {
      if Cycle(t, p) {
        WalkGoesDown(t, order, p);
      }
    }
  }

  lemma {:induction false} WalkRaisesRank<S(!new)>(t: Table<S>, rank: S -> nat, p: seq<S>)
    requires forall a, b :: Edge(t, a, b) ==> rank(a) < rank(b)
    requires Walk(t, p)
    ensures rank(p[0]) <= rank(p[|p| - 1])
    ensures |p| >= 2 ==> rank(p[0]) < rank(p[|p| - 1])
  {
    if |p| >= 2 {
      var q := p[..|p| - 1];
      assert Walk(t, q) by {
        forall i, j | 0 <= i < |q| && j == i + 1 && j < |q|
          ensures Edge(t, q[i], q[j])
        {
          assert q[i] == p[i] && q[j] == p[j];
        }
      }
      WalkRaisesRank(t, rank, q);
      assert Edge(t, p[|p| - 2], p[|p| - 1]);
    }
  }

  /** A table whose every edge climbs a rank has no cycle. */
  lemma RankMeansAcyclic<S(!new)>(t: Table<S>, rank: S -> nat)
    requires forall a, b :: Edge(t, a, b) ==> rank(a) < rank(b)
    ensures Acyclic(t)
  {
    forall p: seq<S> ensures !Cycle(t, p) {
      if Cycle(t, p) {
        WalkRaisesRank(t, rank, p);
      }
    }
  }

  datatype Colour = Unvisited | InProgress | Done

  lemma FinishOne<S>(t: Table<S>, order: seq<S>, node: S)
    requires Finished(t, order) && node in t && t[node] <= Elements(order) && node !in Elements(order)
    ensures Finished(t, order + [node]) && Elements(order + [node]) == Elements(order) + {node}
  {
    var after := order + [node];
    assert Elements(after) == Elements(order) + {node} by {
      assert forall i :: 0 <= i < |order| ==> after[i] == order[i];
      assert after[|order|] == node;
    }
    forall i | 0 <= i < |after| ensures after[i] in t && t[after[i]] <= Elements(after[..i]) {
      assert after[..i] == order[..i];
      if i == |order| { assert order[..i] == order; }
    }
  }

  /** The depth-first search behind `_assert_acyclic`: one colour per state,
      rewritten as the search goes. */
  class AcyclicitySearch<S(==,!new)> {
    const table: Table<S>
    var colour: map<S, Colour>
    /** States in the order the search finished with them. */
    ghost var finished: seq<S>

    constructor (t: Table<S>)
      ensures table == t && finished == []
      ensures colour.Keys == t.Keys && forall s :: s in t ==> colour[s] == Unvisited
    {
      table := t;
      colour := map s | s in t :: Unvisited;
      finished := [];
    }

    ghost function Coloured(c: Colour): set<S>
      reads this
    {
      set s | s in colour && colour[s] == c
    }

    ghost predicate Valid()
      reads this
    {
      && Declared(table)
      && colour.Keys == table.Keys
      && Finished(table, finished)
      && Elements(finished) == Coloured(Done)
    }

    /** The recursive `visit`: the cycle it would raise with, or nothing. */
    method Visit(node: S, path: seq<S>) returns (cycle: Option<seq<S>>)
      requires Valid()
      requires node in colour && colour[node] == Unvisited
      requires Coloured(InProgress) == Elements(path)
      requires Walk(table, path + [node])
      modifies this
      ensures cycle.Some? ==> ClosesCycle(table, cycle.value)
      ensures cycle.None? ==> Valid() && node in colour && colour[node] == Done
      ensures cycle.None? ==> Coloured(InProgress) == old(Coloured(InProgress))
      ensures cycle.None? ==> old(Coloured(Done)) <= Coloured(Done)
      ensures cycle.None? ==> Coloured(Unvisited) <= old(Coloured(Unvisited)) - {node}
      decreases Coloured(Unvisited)
    {
      ghost var before := Coloured(Unvisited);
      ghost var doneBefore := Coloured(Done);
      colour := colour[node := InProgress];
      assert Coloured(Done) == doneBefore;
      assert Coloured(Unvisited) == before - {node};
      var here := path + [node];
      assert Elements(here) == Elements(path) + {node} by {
        assert forall i :: 0 <= i < |path| ==> here[i] == path[i];
        assert here[|path|] == node;
      }
      assert Coloured(InProgress) == Elements(here);
      assert node in Elements(here);

      var todo := table[node];
      while todo != {}
        invariant Valid()
        invariant todo <= table[node]
        invariant Coloured(InProgress) == Elements(here)
        invariant Coloured(Unvisited) <= before - {node}
        invariant doneBefore <= Coloured(Done)
        invariant table[node] - todo <= Coloured(Done)
        decreases todo
      {
        var next :| next in todo;
        assert Edge(table, here[|here| - 1], next);
        ExtendWalk(table, here, next);
        if colour[next] == InProgress {
          assert next in Elements(here);
          assert (here + [next])[..|here|] == here;
          return Some(here + [next]);
        }
        if colour[next] == Unvisited {
          assert next in Coloured(Unvisited);
          assert node in before && node !in Coloured(Unvisited);
          cycle := Visit(next, here);
          if cycle.Some? {
            return;
          }
        }
        todo := todo - {next};
      }

      assert node !in Coloured(Done);
      ghost var order := finished;
      colour := colour[node := Done];
      finished := finished + [node];
      FinishOne(table, order, node);
      assert Coloured(Done) == Elements(order) + {node};
      assert node !in Elements(path) by {
        assert node !in old(Coloured(InProgress));
      }
      assert Coloured(InProgress) == Elements(here) - {node};
      cycle := None;
    }
  }

  // ------------------------------------------------------ building a machine

  datatype Rejection<S> = UndeclaredTargets(states: set<S>) | CycleDetected(path: seq<S>)

  function Undeclared<S>(t: Table<S>): set<S> {
    set a, b | a in t && b in t[a] && b !in t :: b
  }

  /** The constructor's two checks: it accepts exactly the closed tables that
      are acyclic (or whose caller allows cycles), and any report it makes is
      evidence. */
  method Build<S(==,!new)>(t: Table<S>, requireAcyclic: bool) returns (r: Result<Table<S>, Rejection<S>>)
    ensures r.Success? <==> Declared(t) && (requireAcyclic ==> Acyclic(t))
    ensures r.Success? ==> r.value == t
    ensures r.Failure? && r.error.UndeclaredTargets? ==>
              r.error.states != {} && forall b :: b in r.error.states <==> b !in t && exists a :: Edge(t, a, b)
    ensures r.Failure? && r.error.CycleDetected? ==> requireAcyclic && ClosesCycle(t, r.error.path)
  {
    var undeclared := Undeclared(t);
    if undeclared != {} {
      forall b | b !in t && exists a :: Edge(t, a, b) ensures b in undeclared {
        var a :| Edge(t, a, b);
      }
      forall b | b in undeclared ensures exists a :: Edge(t, a, b) {
        var a :| a in t && b in t[a] && b !in t;
        assert Edge(t, a, b);
      }
      return Failure(UndeclaredTargets(undeclared));
    }
    assert Declared(t) by {
      forall a, b | a in t && b in t[a] ensures b in t {
        assert b in t || b in undeclared;
      }
    }
    if !requireAcyclic {
      return Success(t);
    }
    var search := new AcyclicitySearch(t);
    var todo := t.Keys;
    while todo != {}
      invariant fresh(search) && search.table == t && search.Valid()
      invariant todo <= t.Keys
      invariant search.Coloured(InProgress) == {}
      invariant t.Keys - todo <= search.Coloured(Done)
    {
      var state :| state in todo;
      if search.colour[state] == Unvisited {
        var cycle := search.Visit(state, []);
        if cycle.Some? {
          ClosedCycleRefutesAcyclic(t, cycle.value);
          return Failure(CycleDetected(cycle.value));
        }
      } else {
        assert state !in search.Coloured(InProgress);
        assert state in search.Coloured(Done);
      }
      todo := todo - {state};
    }
    forall s | s in t ensures s in search.finished {
      assert s in search.Coloured(Done);
      assert s in Elements(search.finished);
    }
    FinishedMeansAcyclic(t, search.finished);
    r := Success(t);
  }

  // ------------------------------------------------------------ interrogation

  datatype Refusal<S> = UnknownState(state: S) | IllegalTransition(source: S, target: S, allowed: set<S>)

  function TargetsFrom<S>(t: Table<S>, source: S): Result<set<S>, Refusal<S>> {
    if source in t then Success(t[source]) else Failure(UnknownState(source))
  }

  function Can<S>(t: Table<S>, source: S, target: S): Result<bool, Refusal<S>> {
    match TargetsFrom(t, source)
    case Failure(e) => Failure(e)
    case Success(targets) => Success(target in targets)
  }

  function IsNoop<S(==)>(t: Table<S>, source: S, target: S): Result<bool, Refusal<S>> {
    match TargetsFrom(t, source)
    case Failure(e) => Failure(e)
    case Success(_) => Success(source == target)
  }

  function Validate<S>(t: Table<S>, source: S, target: S): Result<(), Refusal<S>> {
    match Can(t, source, target)
    case Failure(e) => Failure(e)
    case Success(true) => Success(())
    case Success(false) => Failure(IllegalTransition(source, target, t[source]))
  }

  /** In an accepted machine a no-op is never a transition: the three answers
      a caller can get (replay, step, refusal) exclude one another, and a
      refused target has no one-step run. */
  lemma ReplayStepRefusal<S(!new)>(t: Table<S>, source: S, target: S)
    requires Declared(t) && Acyclic(t) && source in t
    ensures !(IsNoop(t, source, target) == Success(true) && Validate(t, source, target).Success?)
    ensures Validate(t, source, target).Success? <==> Walk(t, [source, target])
  {
    if target in t[source] && source == target {
      assert Cycle(t, [source, target]);
    }
    if target in t[source] {
      assert Walk(t, [source, target]);
    }
    if Walk(t, [source, target]) {
      var p := [source, target];
      assert Edge(t, p[0], p[1]);
    }
  }

  // ------------------------------------------------------------ the closure

  lemma {:induction false} ClosedUnderSuccessors<S(!new)>(t: Table<S>, seen: set<S>, p: seq<S>)
    requires Walk(t, p) && |p| >= 2
    requires t[p[0]] <= seen
    requires forall s :: s in seen && s in t ==> t[s] <= seen
    ensures p[|p| - 1] in seen
  {
    assert Edge(t, p[|p| - 2], p[|p| - 1]);
    if |p| > 2 {
      var q := p[..|p| - 1];
      assert Walk(t, q) by {
        forall i, j | 0 <= i < |q| && j == i + 1 && j < |q|
          ensures Edge(t, q[i], q[j])
        {
          assert q[i] == p[i] && q[j] == p[j];
        }
      }
      ClosedUnderSuccessors(t, seen, q);
      assert q[|q| - 1] == p[|p| - 2];
    }
  }

  /** The worklist of `reachable_from` computes the transitive closure. */
  method ReachableFrom<S(==,!new)>(t: Table<S>, source: S) returns (r: Result<set<S>, Refusal<S>>)
    requires Declared(t)
    ensures r.Failure? <==> source !in t
    ensures r.Success? ==> forall b :: b in r.value <==> Reaches(t, source, b)
  {
    var first := TargetsFrom(t, source);
    if first.Failure? {
      return Failure(first.error);
    }
    var seen: set<S> := {};
    var stack := [source];
    while stack != []
      invariant seen <= t.Keys
      invariant forall s :: s in stack ==> s == source || s in seen
      invariant forall s :: s in seen ==> Reaches(t, source, s)
      invariant forall s :: (s in seen || s == source) && s !in stack ==> t[s] <= seen
      decreases t.Keys - seen, |stack|
    {
      var current := stack[|stack| - 1];
      ghost var rest := stack[..|stack| - 1];
      assert stack == rest + [current];
      stack := stack[..|stack| - 1];
      ghost var seenBefore, stackBefore := seen, stack;
      var todo := t[current];
      while todo != {}
        invariant todo <= t[current]
        invariant seenBefore <= seen <= t.Keys
        invariant t[current] - todo <= seen
        invariant (stack == stackBefore && seen == seenBefore) || seenBefore < seen
        invariant forall s :: s in stack ==> s == source || s in seen
        invariant forall s :: s in stackBefore ==> s in stack
        invariant forall s :: s in seen - seenBefore ==> s in stack
        invariant forall s :: s in seen ==> Reaches(t, source, s)
      {
        var next :| next in todo;
        if next !in seen {
          assert Edge(t, current, next);
          ReachesStep(t, source, current, next);
          seen := seen + {next};
          stack := stack + [next];
        }
        todo := todo - {next};
      }
    }
    forall b | Reaches(t, source, b) ensures b in seen {
      var p :| WalkBetween(t, p, source, b);
      ClosedUnderSuccessors(t, seen, p);
    }
    r := Success(seen);
  }

  // ------------------------------------------------------- the refused pairs

  function IllegalPairs<S>(t: Table<S>): set<(S, S)> {
    set a, b | a in t && b in t && a != b && b !in t[a] :: (a, b)
  }

  function ProperEdges<S>(t: Table<S>): set<(S, S)> {
    set a, b | a in t && b in t && a != b && b in t[a] :: (a, b)
  }

  function DistinctPairs<S>(states: set<S>): set<(S, S)> {
    set a, b | a in states && b in states && a != b :: (a, b)
  }

  lemma {:induction false} PairsWith<S>(a: S, others: set<S>)
    requires a !in others
    ensures |set b | b in others :: (a, b)| == |others|
    ensures |set b | b in others :: (b, a)| == |others|
  {
    if others != {} {
      var b :| b in others;
      PairsWith(a, others - {b});
      assert (set x | x in others :: (a, x)) == (set x | x in others - {b} :: (a, x)) + {(a, b)};
      assert (set x | x in others :: (x, a)) == (set x | x in others - {b} :: (x, a)) + {(b, a)};
    }
  }

  lemma SplitPairs<S>(a: S, others: set<S>)
    requires a !in others
    ensures |DistinctPairs(others + {a})| == |DistinctPairs(others)| + |others| + |others|
  {
    PairsWith(a, others);
    var left, right := set b | b in others :: (a, b), set b | b in others :: (b, a);
    var inner := DistinctPairs(others);
    forall p | p in left + right ensures p !in inner {
    }
    assert left !! right;
    assert |left + right| == |left| + |right|;
    assert |inner + (left + right)| == |inner| + |left + right|;
    assert DistinctPairs(others + {a}) == inner + (left + right);
  }

  lemma {:induction false} CountDistinctPairs<S>(states: set<S>)
    ensures |DistinctPairs(states)| == |states| * (|states| - 1)
  {
    if states != {} {
      var a :| a in states;
      var others := states - {a};
      var n := |others|;
      CountDistinctPairs(others);
      SplitPairs(a, others);
      assert others + {a} == states;
      assert |states| == n + 1;
      assert (n + 1) * n == n * (n - 1) + n + n;
    }
  }

  /** Refused pairs and declared pairs together make up every ordered pair of
      distinct states. */
  lemma CountIllegalPairs<S>(t: Table<S>)
    ensures |IllegalPairs(t)| == |t| * (|t| - 1) - |ProperEdges(t)|
  {
    CountDistinctPairs(t.Keys);
    assert DistinctPairs(t.Keys) == IllegalPairs(t) + ProperEdges(t);
    assert |t.Keys| == |t|;
  }
}

/** Automatic dispatch of apps/delivery/dispatch.py: who is a candidate, in what
    order they are tried, and what a dispatch, a catch-up round and an expiry
    round leave behind. */
module Dispatch {
  import opened Wrappers
  import opened DeliveryStates
  import opened DeliveryWorld
  import opened DeliveryInvariants
  import opened DeliveryServices

  // ------------------------------------------------------------------ the query

  /** The zone filter as the query writes it: no link at all, or a link to the
      order's known zone. */
  predicate InPerimeter(c: Courier, zone: Option<nat>) {
    || !(exists z :: z in c.zones)
    || (zone.Some? && exists z :: z in c.zones && z == zone.value)
  }

  /** `available_for`: the couriers the back office and the dispatcher see. */
  function AvailableFor(w: World, order: nat): set<nat>
    requires order in w.orders
  {
    set c | c in w.couriers
            && w.couriers[c].kitchen == w.orders[order].kitchen
            && w.couriers[c].online && w.couriers[c].file == Approved && w.couriers[c].accountOpen
            && InPerimeter(w.couriers[c], w.orders[order].zone)
            && !(exists i :: 0 <= i < |w.courses| && w.courses[i].courier == c && Engaged(w.courses[i].status))
  }

  /** The list and the guard agree: the query selects exactly the couriers whom
      `offer` would not refuse. */
  lemma QueryAgreesWithGuard(w: World, order: nat, courier: nat)
    requires order in w.orders && courier in w.couriers
    ensures courier in AvailableFor(w, order) <==> CourierRefusal(w, w.orders[order], courier) == None
  {
    var c := w.couriers[courier];
    assert InPerimeter(c, w.orders[order].zone) <==> ServesZone(c, w.orders[order].zone) by {
      if c.zones != {} {
        var z :| z in c.zones;
      }
    }
  }

  lemma OfferSucceedsIff(w: World, order: nat, courier: nat, now: int)
    requires Inv(w) && order in w.orders && courier in w.couriers
    ensures Offer(w, order, courier, now).1.Success? <==>
              w.orders[order].status == Ready && courier in AvailableFor(w, order) && !HasActive(w.courses, order)
  {
    QueryAgreesWithGuard(w, order, courier);
    OfferNeverHitsConstraint(w, order, courier, now);
  }

  // ---------------------------------------------------------------- the ranking

  predicate HasDeclined(courses: seq<Course>, order: nat, courier: nat) {
    exists i :: 0 <= i < |courses| && courses[i].courier == courier && courses[i].order == order && courses[i].status == Declined
  }

  predicate HasOffer(courses: seq<Course>, courier: nat) {
    exists i :: 0 <= i < |courses| && courses[i].courier == courier && courses[i].status == Offered
  }

  /** Refused before, then solicited elsewhere, then distance with unknown last. */
  predicate RanksNoLater(w: World, order: nat, distance: map<nat, nat>, a: nat, b: nat) {
    var da, db := HasDeclined(w.courses, order, a), HasDeclined(w.courses, order, b);
    var sa, sb := HasOffer(w.courses, a), HasOffer(w.courses, b);
    if da != db then db
    else if sa != sb then sb
    else b !in distance || (a in distance && distance[a] <= distance[b])
  }

  predicate Distinct<T(==)>(s: seq<T>) {
    forall i, j :: 0 <= i < j < |s| ==> s[i] != s[j]
  }

  /** A possible answer of `candidates`: every available courier once, best
      first, ties in any order. */
  ghost predicate IsRanking(w: World, order: nat, distance: map<nat, nat>, cs: seq<nat>)
    requires order in w.orders
  {
    && Distinct(cs)
    && (forall c :: c in cs <==> c in AvailableFor(w, order))
    && (forall i, j :: 0 <= i < j < |cs| ==> RanksNoLater(w, order, distance, cs[i], cs[j]))
  }

  lemma RanksTransitively(w: World, order: nat, distance: map<nat, nat>, a: nat, b: nat, c: nat)
    requires RanksNoLater(w, order, distance, a, b) && RanksNoLater(w, order, distance, b, c)
    ensures RanksNoLater(w, order, distance, a, c)
  {
  }

  lemma RanksTotally(w: World, order: nat, distance: map<nat, nat>, a: nat, b: nat)
    ensures RanksNoLater(w, order, distance, a, b) || RanksNoLater(w, order, distance, b, a)
  {
  }

  lemma {:induction false} BestOf(w: World, order: nat, distance: map<nat, nat>, pool: set<nat>) returns (best: nat)
    requires pool != {}
    ensures best in pool && forall c :: c in pool ==> RanksNoLater(w, order, distance, best, c)
  {
    var c :| c in pool;
    var rest := pool - {c};
    RanksTotally(w, order, distance, c, c);
    if rest == {} {
      assert pool == rest + {c};
      best := c;
    } else {
      var other := BestOf(w, order, distance, rest);
      best := if RanksNoLater(w, order, distance, c, other) then c else other;
      forall x | x in pool ensures RanksNoLater(w, order, distance, best, x) {
        if x in rest && best == c {
          RanksTransitively(w, order, distance, c, other, x);
        }
        RanksTotally(w, order, distance, c, other);
        assert x in rest || x == c;
      }
    }
  }

  lemma {:induction false} SortPool(w: World, order: nat, distance: map<nat, nat>, pool: set<nat>) returns (cs: seq<nat>)
    ensures Distinct(cs) && forall c :: c in cs <==> c in pool
    ensures forall i, j :: 0 <= i < j < |cs| ==> RanksNoLater(w, order, distance, cs[i], cs[j])
  {
    if pool == {} {
      cs := [];
    } else {
      var best := BestOf(w, order, distance, pool);
      var rest := SortPool(w, order, distance, pool - {best});
      cs := [best] + rest;
      forall i, j | 0 <= i < j < |cs| ensures cs[i] != cs[j] && RanksNoLater(w, order, distance, cs[i], cs[j]) {
        assert cs[j] == rest[j - 1] && rest[j - 1] in rest;
        if i > 0 {
          assert cs[i] == rest[i - 1];
        }
      }
      forall c ensures c in cs <==> c in pool {
      }
    }
  }

  /** The query always has an answer of this shape. */
  lemma RankingExists(w: World, order: nat, distance: map<nat, nat>) returns (cs: seq<nat>)
    requires order in w.orders
    ensures IsRanking(w, order, distance, cs)
  {
    cs := SortPool(w, order, distance, AvailableFor(w, order));
  }

  // ------------------------------------------------------------------- dispatching

  const TRIES_MAX := 5
  const CATCH_UP_MAX := 200

  function Take<T>(s: seq<T>, n: nat): seq<T> {
    if n < |s| then s[..n] else s
  }

  /** Offers to each in turn; gives up once the order has a course. */
  function TryOffers(w: World, order: nat, cs: seq<nat>, now: int): (World, Option<nat>) {
    if cs == [] then (w, None)
    else match Offer(w, order, cs[0], now)
      case (v, Success(course)) => (v, Some(course))
      case (v, Failure(_)) => if HasActive(w.courses, order) then (w, None) else TryOffers(w, order, cs[1..], now)
  }

  predicate Dispatchable(w: World, order: nat) {
    && order in w.orders && w.orders[order].status == Ready
    && w.orders[order].kitchen in w.autoKitchens
    && !HasActive(w.courses, order)
  }

  function DispatchWith(w: World, order: nat, cs: seq<nat>, now: int): (World, Option<nat>) {
    if !Dispatchable(w, order) then (w, None) else TryOffers(w, order, Take(cs, TRIES_MAX), now)
  }

  /** Whatever list was read, however stale: a dispatch makes at most one offer,
      one that every guard accepts now, and otherwise changes nothing. */
  lemma {:induction false} TryOffersIsSafe(w: World, order: nat, cs: seq<nat>, now: int)
    requires Inv(w) && order in w.orders
    ensures var (v, r) := TryOffers(w, order, cs, now);
            && (r == None ==> v == w)
            && (r.Some? ==> exists c :: c in cs && c in AvailableFor(w, order) && r.value == |w.courses|
                                          && v == w.(courses := w.courses + [NewCourse(order, c, now)]))
            && (r == None && w.orders[order].status == Ready && !HasActive(w.courses, order) ==>
                  forall c :: c in cs ==> c !in AvailableFor(w, order))
  {
    if cs != [] {
      if cs[0] in w.couriers {
        OfferSucceedsIff(w, order, cs[0], now);
      }
      TryOffersIsSafe(w, order, cs[1..], now);
      assert cs == [cs[0]] + cs[1..];
    }
  }

  /** With the query's own answer: a course is offered exactly when the order is
      ready, its kitchen dispatches, it has no active course and someone is
      compatible; it goes to the head of the ranking. */
  lemma DispatchIsComplete(w: World, order: nat, distance: map<nat, nat>, cs: seq<nat>, now: int)
    requires Inv(w) && (order in w.orders ==> IsRanking(w, order, distance, cs))
    ensures var (v, r) := DispatchWith(w, order, cs, now);
            && (r.Some? <==> Dispatchable(w, order) && AvailableFor(w, order) != {})
            && (r.Some? ==> v == w.(courses := w.courses + [NewCourse(order, cs[0], now)]) && r.value == |w.courses|)
            && (r == None ==> v == w)
  {
    if Dispatchable(w, order) {
      var some := Take(cs, TRIES_MAX);
      if cs == [] {
        assert AvailableFor(w, order) == {} by {
          assert forall c :: c in AvailableFor(w, order) ==> c in cs;
        }
      } else {
        assert some[0] == cs[0] && cs[0] in cs;
        OfferSucceedsIff(w, order, cs[0], now);
      }
    }
  }

  /** Nobody who declined the order is asked again while a compatible courier who
      has not declined it exists. */
  lemma DeclinersComeLast(w: World, order: nat, distance: map<nat, nat>, cs: seq<nat>, now: int, willing: nat)
    requires Inv(w) && Dispatchable(w, order) && IsRanking(w, order, distance, cs)
    requires willing in AvailableFor(w, order) && !HasDeclined(w.courses, order, willing)
    ensures var (v, r) := DispatchWith(w, order, cs, now);
            r.Some? && r.value < |v.courses| && !HasDeclined(w.courses, order, v.courses[r.value].courier)
  {
    DispatchIsComplete(w, order, distance, cs, now);
    assert willing in cs;
    var k :| 0 <= k < |cs| && cs[k] == willing;
    assert k > 0 ==> RanksNoLater(w, order, distance, cs[0], cs[k]);
  }

  // ------------------------------------------------------------ offers leave the rest

  /** v is w with further offers: nothing else moved. */
  ghost predicate OnlyOffers(w: World, v: World) {
    && v == w.(courses := v.courses)
    && |w.courses| <= |v.courses| && v.courses[..|w.courses|] == w.courses
    && forall i :: |w.courses| <= i < |v.courses| ==> v.courses[i].status == Offered
  }

  lemma OffersChangeNoCandidate(w: World, v: World, order: nat)
    requires OnlyOffers(w, v) && order in w.orders
    ensures AvailableFor(v, order) == AvailableFor(w, order)
    ensures HasActive(w.courses, order) ==> HasActive(v.courses, order)
  {
    assert forall i :: 0 <= i < |w.courses| ==> v.courses[i] == v.courses[..|w.courses|][i];
    forall c ensures IsEngaged(v.courses, c) == IsEngaged(w.courses, c) {
      if i :| 0 <= i < |v.courses| && v.courses[i].courier == c && Engaged(v.courses[i].status) {
        assert i < |w.courses| && w.courses[i] == v.courses[i];
      }
      if i :| 0 <= i < |w.courses| && w.courses[i].courier == c && Engaged(w.courses[i].status) {
        assert v.courses[i] == w.courses[i];
      }
    }
    assert forall c :: c in w.couriers ==>
      ((exists i :: 0 <= i < |v.courses| && v.courses[i].courier == c && Engaged(v.courses[i].status)) <==> IsEngaged(w.courses, c));
    if i :| 0 <= i < |w.courses| && w.courses[i].order == order && !Terminal(w.courses[i].status) {
      assert v.courses[i] == w.courses[i];
    }
  }

  lemma OnlyOffersChain(w: World, v: World, u: World)
    requires OnlyOffers(w, v) && OnlyOffers(v, u)
    ensures OnlyOffers(w, u)
  {
    assert u.courses[..|w.courses|] == u.courses[..|v.courses|][..|w.courses|];
    forall i | |w.courses| <= i < |u.courses| ensures u.courses[i].status == Offered {
      if i < |v.courses| {
        assert u.courses[i] == u.courses[..|v.courses|][i];
      }
    }
  }

  /** Served: a ready order has an active course, or nobody could take one. */
  predicate Served(w: World, order: nat) {
    order in w.orders && w.orders[order].status == Ready ==>
      HasActive(w.courses, order) || AvailableFor(w, order) == {}
  }

  lemma NewCourseIsActive(w: World, order: nat, courier: nat, now: int)
    ensures HasActive(w.courses + [NewCourse(order, courier, now)], order)
  {
    var courses := w.courses + [NewCourse(order, courier, now)];
    assert courses[|w.courses|].order == order;
  }

  lemma DispatchServes(w: World, order: nat, distance: map<nat, nat>, cs: seq<nat>, now: int)
    requires Inv(w) && order in w.orders && IsRanking(w, order, distance, cs)
    ensures var (v, r) := DispatchWith(w, order, cs, now);
            && Inv(v) && OnlyOffers(w, v)
            && |v.courses| == |w.courses| + (if r.Some? then 1 else 0)
            && (w.orders[order].kitchen in w.autoKitchens ==> Served(v, order))
  {
    DispatchIsComplete(w, order, distance, cs, now);
    if DispatchWith(w, order, cs, now).1.Some? {
      OfferedServes(w, order, cs, now);
    }
  }

  lemma OfferedServes(w: World, order: nat, cs: seq<nat>, now: int)
    requires Inv(w) && order in w.orders && cs != [] && (forall c :: c in cs <==> c in AvailableFor(w, order))
    requires Dispatchable(w, order)
    ensures var v := w.(courses := w.courses + [NewCourse(order, cs[0], now)]);
            Inv(v) && OnlyOffers(w, v) && Served(v, order)
  {
    assert cs[0] in cs;
    OfferSucceedsIff(w, order, cs[0], now);
    OfferKeeps(w, order, cs[0], now);
    NewCourseIsActive(w, order, cs[0], now);
  }

  predicate IsStale(w: World, i: nat, limit: int) {
    && i < |w.courses| && w.courses[i].status == Offered && w.courses[i].offeredAt < limit
    && w.courses[i].order in w.orders && w.orders[w.courses[i].order].kitchen in w.autoKitchens
  }

  function Expired(a: Course): Course {
    a.(status := Declined, reason := EXPIRED_OFFER_REASON)
  }

  // ------------------------------------------------------------------ the services

  /** The database's answers to the candidate query. */
  type Query = (World, nat) -> seq<nat>

  ghost predicate Answers(query: Query, distance: map<nat, nat>) {
    forall w: World, order: nat :: order in w.orders ==> IsRanking(w, order, distance, query(w, order))
  }

  /** One dispatch after another, each on the world the last one left; how many
      offered. */
  function DispatchRound(w: World, ids: seq<nat>, query: Query, now: int): (World, nat) {
    if ids == [] then (w, 0)
    else
      var (u, n) := DispatchRound(w, ids[..|ids| - 1], query, now);
      var last := ids[|ids| - 1];
      var (v, r) := DispatchWith(u, last, query(u, last), now);
      (v, if r.Some? then n + 1 else n)
  }

  function ExpireRound(w: World, stale: seq<nat>): (World, nat) {
    if stale == [] then (w, 0)
    else
      var (u, n) := ExpireRound(w, stale[..|stale| - 1]);
      var (v, done) := Expire(u, stale[|stale| - 1]);
      (v, if done then n + 1 else n)
  }

  /** The orders whose offers the round closed. */
  function FreedOrders(w: World, stale: seq<nat>): set<nat> {
    set i | i in stale && i < |w.courses| && w.courses[i].status == Offered :: w.courses[i].order
  }

  lemma {:induction false} ExpireRoundKeepsOrder(w: World, stale: seq<nat>)
    ensures var v := ExpireRound(w, stale).0;
            && v == w.(courses := v.courses) && |v.courses| == |w.courses|
            && forall i :: 0 <= i < |w.courses| ==>
                 v.courses[i].order == w.courses[i].order
                 && (v.courses[i].status == Offered <==> w.courses[i].status == Offered && i !in stale)
  {
    if stale != [] {
      var init, last := stale[..|stale| - 1], stale[|stale| - 1];
      assert stale == init + [last];
      ExpireRoundKeepsOrder(w, init);
    }
  }

  lemma NextRound(w: World, stale: seq<nat>, k: nat)
    requires k < |stale|
    ensures var (u, n) := ExpireRound(w, stale[..k]);
            var (v, done) := Expire(u, stale[k]);
            ExpireRound(w, stale[..k + 1]) == (v, if done then n + 1 else n)
  {
    assert stale[..k + 1][..k] == stale[..k];
  }

  /** The next row frees its order if its offer was open. */
  lemma NextFreed(w: World, stale: seq<nat>, k: nat)
    requires k < |stale| && stale[k] < |w.courses|
    ensures FreedOrders(w, stale[..k + 1]) ==
            FreedOrders(w, stale[..k]) + if w.courses[stale[k]].status == Offered then {w.courses[stale[k]].order} else {}
  {
    assert stale[..k + 1] == stale[..k] + [stale[k]];
  }

  /** It is closed now unless it was before, and then its order is free already. */
  lemma NextExpiry(w: World, stale: seq<nat>, k: nat)
    requires k < |stale| && stale[k] < |w.courses|
    ensures var u := ExpireRound(w, stale[..k]).0;
            && |u.courses| == |w.courses| && u.courses[stale[k]].order == w.courses[stale[k]].order
            && FreedOrders(w, stale[..k + 1]) ==
               FreedOrders(w, stale[..k]) + if Expire(u, stale[k]).1 then {w.courses[stale[k]].order} else {}
  {
    NextFreed(w, stale, k);
    ExpireRoundKeepsOrder(w, stale[..k]);
    if w.courses[stale[k]].status == Offered && stale[k] in stale[..k] {
      assert w.courses[stale[k]].order in FreedOrders(w, stale[..k]);
    }
  }

  lemma {:induction false} ExpireRoundKeeps(w: World, stale: seq<nat>)
    requires Inv(w)
    ensures Inv(ExpireRound(w, stale).0)
  {
    if stale != [] {
      ExpireRoundKeeps(w, stale[..|stale| - 1]);
      ExpireKeeps(ExpireRound(w, stale[..|stale| - 1]).0, stale[|stale| - 1]);
    }
  }

  lemma RoundStaysValid(db: DeliveryDatabase, w: World, stale: seq<nat>)
    requires Inv(w) && db.World() == ExpireRound(w, stale).0
    ensures db.Valid()
  {
    ExpireRoundKeeps(w, stale);
  }

  class DispatchService {
    const db: DeliveryDatabase
    const query: Query

    constructor (db: DeliveryDatabase, query: Query)
      ensures this.db == db && this.query == query
    {
      this.db := db;
      this.query := query;
    }

    method Dispatch(order: nat, now: int) returns (r: Option<nat>)
      modifies db`courses
      ensures (db.World(), r) == DispatchWith(old(db.World()), order, query(old(db.World()), order), now)
      ensures old(db.Valid()) ==> db.Valid()
    {
      if order !in db.orders || db.orders[order].status != Ready {
        return None;
      }
      if db.orders[order].kitchen !in db.autoKitchens {
        return None;
      }
      if HasActive(db.courses, order) {
        return None;
      }
      var candidates := Take(query(db.World(), order), TRIES_MAX);
      for i := 0 to |candidates|
        invariant db.World() == old(db.World())
        invariant TryOffers(db.World(), order, candidates, now) == TryOffers(db.World(), order, candidates[i..], now)
      {
        assert candidates[i..][0] == candidates[i] && candidates[i..][1..] == candidates[i + 1..];
        var reply := db.Offer(order, candidates[i], now);
        if reply.Success? {
          return Some(reply.value);
        }
        if HasActive(db.courses, order) {
          return None;
        }
      }
      r := None;
    }

    /** The catch-up round, over the waiting orders the database listed. */
    method DispatchWaiting(waiting: seq<nat>, now: int) returns (offered: nat)
      modifies db`courses
      ensures (db.World(), offered) == DispatchRound(old(db.World()), Take(waiting, CATCH_UP_MAX), query, now)
      ensures old(db.Valid()) ==> db.Valid()
    {
      offered := 0;
      var batch := Take(waiting, CATCH_UP_MAX);
      for i := 0 to |batch|
        invariant (db.World(), offered) == DispatchRound(old(db.World()), batch[..i], query, now)
        invariant old(db.Valid()) ==> db.Valid()
      {
        assert batch[..i + 1][..i] == batch[..i];
        var r := Dispatch(batch[i], now);
        if r.Some? {
          offered := offered + 1;
        }
      }
      assert batch[..|batch|] == batch;
    }

    /** The expiry round, over the stale offers the database listed; `visited` is
        the order in which the freed orders came out of their set. */
    method ExpireStaleOffers(stale: seq<nat>, now: int) returns (closed: nat, ghost visited: seq<nat>)
      requires forall i :: i in stale ==> i < |db.courses|
      modifies db`courses
      ensures (var (v, n) := ExpireRound(old(db.World()), stale);
               closed == n && db.World() == DispatchRound(v, visited, query, now).0)
      ensures forall o :: o in visited <==> o in FreedOrders(old(db.World()), stale)
      ensures old(db.Valid()) ==> db.Valid()
    {
      var freed;
      closed, freed := CloseStale(stale);
      visited := DispatchAll(freed, now);
    }

    method CloseStale(stale: seq<nat>) returns (closed: nat, freed: set<nat>)
      requires forall i :: i in stale ==> i < |db.courses|
      modifies db`courses
      ensures (db.World(), closed) == ExpireRound(old(db.World()), stale)
      ensures freed == FreedOrders(old(db.World()), stale)
      ensures old(db.Valid()) ==> db.Valid()
    {
      ghost var w, valid := db.World(), db.Valid();
      closed, freed := 0, {};
      for k := 0 to |stale|
        invariant |db.courses| == |w.courses|
        invariant (db.World(), closed) == ExpireRound(w, stale[..k])
        invariant freed == FreedOrders(w, stale[..k])
      {
        assert stale[k] in stale;
        NextRound(w, stale, k);
        NextExpiry(w, stale, k);
        ghost var u := db.World();
        var order := db.courses[stale[k]].order;
        var done := db.Expire(stale[k]);
        assert (db.World(), done) == Expire(u, stale[k]);
        if done {
          closed := closed + 1;
          freed := freed + {order};
        }
      }
      assert stale[..|stale|] == stale;
      if valid { RoundStaysValid(db, w, stale); }
    }

    method DispatchAll(freed: set<nat>, now: int) returns (ghost visited: seq<nat>)
      modifies db`courses
      ensures db.World() == DispatchRound(old(db.World()), visited, query, now).0
      ensures forall o :: o in visited <==> o in freed
      ensures old(db.Valid()) ==> db.Valid()
    {
      visited := [];
      var todo := freed;
      while todo != {}
        invariant todo <= freed
        invariant forall o :: o in visited <==> o in freed - todo
        invariant db.World() == DispatchRound(old(db.World()), visited, query, now).0
        invariant old(db.Valid()) ==> db.Valid()
      {
        var order :| order in todo;
        var _ := Dispatch(order, now);
        assert (visited + [order])[..|visited|] == visited;
        visited := visited + [order];
        todo := todo - {order};
      }
    }
  }

  // -------------------------------------------------------------- what a round does

  /** After a round over dispatching kitchens every examined order has an active
      course or no candidate, and only offers were written. */
  lemma {:induction false} RoundServes(w: World, ids: seq<nat>, query: Query, distance: map<nat, nat>, now: int)
    requires Inv(w) && Answers(query, distance)
    requires forall o :: o in ids ==> o in w.orders && w.orders[o].kitchen in w.autoKitchens
    ensures var (v, n) := DispatchRound(w, ids, query, now);
            && Inv(v) && OnlyOffers(w, v) && n == |v.courses| - |w.courses|
            && forall o :: o in ids ==> Served(v, o)
  {
    if ids != [] {
      var init, last := ids[..|ids| - 1], ids[|ids| - 1];
      assert ids == init + [last];
      RoundServes(w, init, query, distance, now);
      var u := DispatchRound(w, init, query, now).0;
      DispatchServes(u, last, distance, query(u, last), now);
      var v := DispatchWith(u, last, query(u, last), now).0;
      OnlyOffersChain(w, u, v);
      forall o | o in init ensures Served(v, o) {
        OffersChangeNoCandidate(u, v, o);
      }
    }
  }

  /** The orders a round may examine: ready, dispatching, without active course,
      oldest first, and all of them. */
  ghost predicate IsWaitingList(w: World, waiting: seq<nat>) {
    && Distinct(waiting)
    && (forall o :: o in waiting <==> Dispatchable(w, o))
    && forall i, j :: 0 <= i < j < |waiting| ==>
                        waiting[i] in w.orders && waiting[j] in w.orders && w.orders[waiting[i]].placedAt <= w.orders[waiting[j]].placedAt
  }

  /** When no more than 200 orders wait, the round leaves no ready order of a
      dispatching kitchen without a course while somebody could take it. */
  lemma CatchUpIsComplete(w: World, waiting: seq<nat>, query: Query, distance: map<nat, nat>, now: int, order: nat)
    requires Inv(w) && Answers(query, distance) && IsWaitingList(w, waiting) && |waiting| <= CATCH_UP_MAX
    requires order in w.orders && w.orders[order].status == Ready && w.orders[order].kitchen in w.autoKitchens
    ensures var v := DispatchRound(w, Take(waiting, CATCH_UP_MAX), query, now).0;
            order in v.orders && (HasActive(v.courses, order) || AvailableFor(v, order) == {})
  {
    var v := DispatchRound(w, Take(waiting, CATCH_UP_MAX), query, now).0;
    assert Take(waiting, CATCH_UP_MAX) == waiting;
    RoundServes(w, waiting, query, distance, now);
    if order !in waiting {
      OffersChangeNoCandidate(w, v, order);
    }
  }

  lemma {:induction false} ExpireRoundRows(w: World, stale: seq<nat>)
    requires Distinct(stale) && forall i :: i in stale ==> i < |w.courses| && w.courses[i].status == Offered
    ensures var (v, n) := ExpireRound(w, stale);
            && n == |stale| && v == w.(courses := v.courses) && |v.courses| == |w.courses|
            && forall i :: 0 <= i < |w.courses| ==> v.courses[i] == if i in stale then Expired(w.courses[i]) else w.courses[i]
  {
    if stale != [] {
      var init, last := stale[..|stale| - 1], stale[|stale| - 1];
      assert stale == init + [last] && last in stale && last !in init;
      assert forall i :: i in init ==> i in stale;
      ExpireRoundRows(w, init);
      var u, v := ExpireRound(w, init).0, ExpireRound(w, stale).0;
      assert u.courses[last] == w.courses[last];
      assert v == u.(courses := u.courses[last := Expired(u.courses[last])]);
      forall i | 0 <= i < |w.courses| ensures v.courses[i] == if i in stale then Expired(w.courses[i]) else w.courses[i] {
        assert i in stale <==> i in init || i == last;
      }
    }
  }

  /** An expiry round closes each stale offer once, with the expiry reason, and
      touches no other course. */
  lemma ExpireRoundCloses(w: World, stale: seq<nat>)
    requires Inv(w) && Distinct(stale)
    requires forall i :: i in stale ==> i < |w.courses| && w.courses[i].status == Offered
    ensures var (v, n) := ExpireRound(w, stale);
            && Inv(v) && n == |stale| && v == w.(courses := v.courses) && |v.courses| == |w.courses|
            && forall i :: 0 <= i < |w.courses| ==> v.courses[i] == if i in stale then Expired(w.courses[i]) else w.courses[i]
  {
    ExpireRoundKeeps(w, stale);
    ExpireRoundRows(w, stale);
  }

  /** ... and every order it frees is then served, or was not ready any more. */
  lemma ExpiryServes(w: World, stale: seq<nat>, visited: seq<nat>, query: Query, distance: map<nat, nat>, now: int, limit: int)
    requires Inv(w) && Answers(query, distance) && Distinct(stale)
    requires forall i :: i in stale <==> IsStale(w, i, limit)
    requires forall o :: o in visited <==> o in FreedOrders(w, stale)
    ensures var v := DispatchRound(ExpireRound(w, stale).0, visited, query, now).0;
            && Inv(v)
            && (forall i :: i in stale ==> i < |w.courses| && Served(v, w.courses[i].order))
            && (forall i :: 0 <= i < |w.courses| ==> i < |v.courses| && !(i in stale && v.courses[i].status == Offered))
  {
    ExpireRoundCloses(w, stale);
    var u := ExpireRound(w, stale).0;
    forall o | o in visited ensures o in u.orders && u.orders[o].kitchen in u.autoKitchens {
      var i :| i in stale && i < |w.courses| && w.courses[i].order == o;
      assert IsStale(w, i, limit);
    }
    RoundServes(u, visited, query, distance, now);
    var v := DispatchRound(u, visited, query, now).0;
    forall i | i in stale ensures Served(v, w.courses[i].order) {
      assert IsStale(w, i, limit);
      assert w.courses[i].order in FreedOrders(w, stale);
    }
    forall i | 0 <= i < |w.courses| ensures i < |v.courses| && v.courses[i] == u.courses[i] {
      assert v.courses[..|u.courses|][i] == u.courses[i];
    }
  }
}

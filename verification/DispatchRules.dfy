/** Whom a dispatch asks (apps/delivery/dispatch.py), told without the ranking and
    without the trials: of all who could take the order, one that none beats. */
module DispatchRules {
  import opened Wrappers
  import opened DeliveryStates
  import opened DeliveryWorld
  import opened DeliveryInvariants
  import opened DeliveryRules
  import opened Dispatch

  /** Declined this very order before. */
  predicate Refused(w: World, order: nat, c: nat) {
    exists i :: 0 <= i < |w.courses| && w.courses[i].courier == c && w.courses[i].order == order && w.courses[i].status == Declined
  }

  /** Has an offer of any order before them. */
  predicate Solicited(w: World, c: nat) {
    exists i :: 0 <= i < |w.courses| && w.courses[i].courier == c && w.courses[i].status == Offered
  }

  /** Online, approved, of an open account and of the order's kitchen, serving its zone,
      and not on the road. */
  predicate CouldTake(w: World, order: nat, courier: nat)
    requires order in w.orders
  {
    courier in w.couriers &&
    var o, c := w.orders[order], w.couriers[courier];
    && c.online && c.file == Approved && c.accountOpen && c.kitchen == o.kitchen
    && (c.zones == {} || (o.zone.Some? && o.zone.value in c.zones))
    && !OnTheRoad(w.courses, courier)
  }

  lemma CouldTakeIsAvailable(w: World, order: nat, courier: nat)
    requires order in w.orders
    ensures CouldTake(w, order, courier) <==> courier in AvailableFor(w, order)
  {
    if courier in w.couriers {
      EngagedIsOnTheRoad(w.courses, courier);
      QueryAgreesWithGuard(w, order, courier);
    }
  }

  /** No other courier is to be asked before `a`: not one who has not refused while
      `a` has; at equal refusals, not one free of offers while `a` has one; at equal
      both, not one strictly nearer, nor one at a known distance when `a`'s is not. */
  predicate Unbeaten(w: World, order: nat, distance: map<nat, nat>, a: nat, b: nat) {
    && (Refused(w, order, a) ==> Refused(w, order, b))
    && ((Refused(w, order, a) <==> Refused(w, order, b)) ==>
          && (Solicited(w, a) ==> Solicited(w, b))
          && ((Solicited(w, a) <==> Solicited(w, b)) ==>
                b in distance ==> a in distance && distance[a] <= distance[b]))
  }

  lemma RankIsUnbeaten(w: World, order: nat, distance: map<nat, nat>, a: nat, b: nat)
    ensures RanksNoLater(w, order, distance, a, b) <==> Unbeaten(w, order, distance, a, b)
  {
    assert HasDeclined(w.courses, order, a) <==> Refused(w, order, a);
    assert HasDeclined(w.courses, order, b) <==> Refused(w, order, b);
    assert HasOffer(w.courses, a) <==> Solicited(w, a);
    assert HasOffer(w.courses, b) <==> Solicited(w, b);
  }

  /** A dispatch on the query's answer offers exactly when the order is ready, of a
      dispatching kitchen, without a course in hand, and someone could take it. The
      course it adds is of that order, offered at that instant, to one who could take
      it and whom nobody else who could beats. */
  lemma BestIsAsked(w: World, order: nat, distance: map<nat, nat>, cs: seq<nat>, now: int)
    requires Inv(w) && order in w.orders && IsRanking(w, order, distance, cs)
    ensures var (v, r) := DispatchWith(w, order, cs, now);
            && (r.Some? <==>
                  && w.orders[order].status == Ready && w.orders[order].kitchen in w.autoKitchens && !Taken(w.courses, order)
                  && exists c :: c in w.couriers && CouldTake(w, order, c))
            && (r == None ==> v == w)
            && (r.Some? ==>
                  && r.value == |w.courses| && |v.courses| == |w.courses| + 1 && v == w.(courses := v.courses)
                  && (forall i :: 0 <= i < |w.courses| ==> v.courses[i] == w.courses[i])
                  && var a := v.courses[r.value];
                     && a.order == order && a.status == Offered && a.offeredAt == now && CouldTake(w, order, a.courier)
                     && forall c :: c in w.couriers && CouldTake(w, order, c) ==> Unbeaten(w, order, distance, a.courier, c))
  {
    DispatchIsComplete(w, order, distance, cs, now);
    ActiveIsTaken(w.courses, order);
    forall c ensures CouldTake(w, order, c) <==> c in AvailableFor(w, order) {
      CouldTakeIsAvailable(w, order, c);
    }
    if DispatchWith(w, order, cs, now).1.Some? {
      assert cs != [];
      HeadIsUnbeaten(w, order, distance, cs);
      assert cs[0] in cs && cs[0] in AvailableFor(w, order);
    } else if Dispatchable(w, order) {
      assert AvailableFor(w, order) == {};
    }
  }

  lemma HeadIsUnbeaten(w: World, order: nat, distance: map<nat, nat>, cs: seq<nat>)
    requires order in w.orders && IsRanking(w, order, distance, cs) && cs != []
    ensures forall c :: c in cs ==> Unbeaten(w, order, distance, cs[0], c)
  {
    forall c | c in cs ensures Unbeaten(w, order, distance, cs[0], c) {
      var k :| 0 <= k < |cs| && cs[k] == c;
      if k > 0 { RankIsUnbeaten(w, order, distance, cs[0], cs[k]); }
    }
  }

  /** The first courier of a list who could take the order. */
  ghost predicate FirstWhoCould(w: World, order: nat, cs: seq<nat>, k: nat)
    requires order in w.orders
  {
    k < |cs| && CouldTake(w, order, cs[k]) && forall j :: 0 <= j < k ==> !CouldTake(w, order, cs[j])
  }

  lemma {:induction false} TrialsStopAtTheFirst(w: World, order: nat, cs: seq<nat>, now: int)
    requires Inv(w) && order in w.orders && w.orders[order].status == Ready && !HasActive(w.courses, order)
    ensures match TryOffers(w, order, cs, now)
            case (v, None) => v == w && forall j :: 0 <= j < |cs| ==> !CouldTake(w, order, cs[j])
            case (v, Some(course)) => exists k: nat :: FirstWhoCould(w, order, cs, k) && Offer(w, order, cs[k], now) == (v, Success(course))
  {
    if cs != [] {
      CouldTakeIsAvailable(w, order, cs[0]);
      if cs[0] in w.couriers { OfferSucceedsIff(w, order, cs[0], now); }
      if CouldTake(w, order, cs[0]) {
        assert FirstWhoCould(w, order, cs, 0);
      } else {
        TrialsStopAtTheFirst(w, order, cs[1..], now);
        var (v, r) := TryOffers(w, order, cs, now);
        assert forall j :: 1 <= j < |cs| ==> cs[j] == cs[1..][j - 1];
        if r.Some? {
          var k: nat :| FirstWhoCould(w, order, cs[1..], k) && Offer(w, order, cs[1..][k], now) == (v, Success(r.value));
          assert cs[k + 1] == cs[1..][k] && FirstWhoCould(w, order, cs, k + 1);
        }
      }
    }
  }

  /** However stale the list read: the course goes to the first of its first five who
      can take the order now, and to nobody when none of the five can. */
  lemma FirstOfFiveIsAsked(w: World, order: nat, cs: seq<nat>, now: int)
    requires Inv(w) && order in w.orders && w.orders[order].status == Ready && w.orders[order].kitchen in w.autoKitchens
    requires !Taken(w.courses, order)
    ensures var five := if |cs| <= 5 then cs else cs[..5];
            match DispatchWith(w, order, cs, now)
            case (v, None) => v == w && forall j :: 0 <= j < |five| ==> !CouldTake(w, order, five[j])
            case (v, Some(course)) => exists k: nat :: FirstWhoCould(w, order, five, k) && Offer(w, order, five[k], now) == (v, Success(course))
  {
    ActiveIsTaken(w.courses, order);
    TrialsStopAtTheFirst(w, order, if |cs| <= 5 then cs else cs[..5], now);
  }
}

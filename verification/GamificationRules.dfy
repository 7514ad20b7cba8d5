/** What a pass of rewards counts and pays (apps/gamification/services.py), told from the
    orders and the goals. */
module GamificationRules {
  import opened Wrappers
  import opened Rounding
  import opened Gamification

  /** A delivered order; for a challenge, one placed between its start and now. */
  predicate InSight(o: Order, g: Goal, now: int) {
    o.delivered && (g.Challenge? ==> g.startsAt <= o.createdAt && o.createdAt <= now)
  }

  function PlacesInSight(orders: seq<Order>, g: Goal, now: int): set<nat> {
    set k | 0 <= k < |orders| && InSight(orders[k], g, now)
  }

  function TotalsInSight(orders: seq<Order>, g: Goal, now: int): (r: seq<int>)
    ensures |r| == |orders| && forall k :: 0 <= k < |r| ==> r[k] == if InSight(orders[k], g, now) then orders[k].total else 0
  {
    seq(|orders|, k requires 0 <= k < |orders| => if InSight(orders[k], g, now) then orders[k].total else 0)
  }

  lemma {:induction false} DeliveredIsTheCount(orders: seq<Order>, g: Goal, now: int)
    ensures Delivered(orders, g, now) == |PlacesInSight(orders, g, now)|
  {
    if orders != [] {
      var n := |orders| - 1;
      DeliveredIsTheCount(orders[..n], g, now);
      assert PlacesInSight(orders, g, now) == PlacesInSight(orders[..n], g, now) + if InSight(orders[n], g, now) then {n} else {};
    }
  }

  lemma {:induction false} SpentIsTheSum(orders: seq<Order>, g: Goal, now: int)
    ensures Spent(orders, g, now) == Sum(TotalsInSight(orders, g, now))
  {
    if orders != [] {
      var n := |orders| - 1;
      SpentIsTheSum(orders[..n], g, now);
      assert TotalsInSight(orders, g, now)[..n] == TotalsInSight(orders[..n], g, now);
    }
  }

  /** The statistic of a goal is the number of orders in sight, or the sum of their
      totals; of a condition nobody knows, nothing for an achievement and the number
      for a challenge. */
  lemma StatisticMeaning(orders: seq<Order>, g: Goal, now: int)
    ensures Statistic(orders, g, now) ==
            match g.metric
            case OrdersCount => |PlacesInSight(orders, g, now)|
            case TotalSpent => Sum(TotalsInSight(orders, g, now))
            case Unknown => if g.Challenge? then |PlacesInSight(orders, g, now)| else 0
  {
    DeliveredIsTheCount(orders, g, now);
    SpentIsTheSum(orders, g, now);
  }

  /** An order that is not delivered counts for nothing, wherever it stands. */
  lemma UndeliveredCountsForNothing(orders: seq<Order>, i: nat, o: Order, g: Goal, now: int)
    requires i < |orders| && !orders[i].delivered && !o.delivered
    ensures Statistic(orders[i := o], g, now) == Statistic(orders, g, now)
  {
    StatisticMeaning(orders, g, now);
    StatisticMeaning(orders[i := o], g, now);
    assert PlacesInSight(orders[i := o], g, now) == PlacesInSight(orders, g, now);
    assert TotalsInSight(orders[i := o], g, now) == TotalsInSight(orders, g, now);
  }

  /** The key of a goal's row tells achievements from challenges and goals apart. */
  lemma KeysTellGoalsApart(g: Goal, h: Goal)
    ensures KeyOf(g) == KeyOf(h) <==> g.id == h.id && (g.Achievement? <==> h.Achievement?)
  {
  }

  predicate WasUnlocked(p: Progress, g: Goal) {
    KeyOf(g) in p.entries && p.entries[KeyOf(g)].unlocked
  }

  /** A goal that is active, within its window if it has one, not unlocked yet, and whose
      statistic reaches its threshold. */
  predicate Unlocks(p: Progress, g: Goal, orders: seq<Order>, now: int) {
    && g.active && (g.Challenge? ==> g.startsAt <= now && now <= g.endsAt)
    && !WasUnlocked(p, g) && g.threshold <= Statistic(orders, g, now)
  }

  /** What each goal pays in a pass: its reward if it is unlocked by it. */
  function Rewards(p: Progress, goals: seq<Goal>, orders: seq<Order>, now: int): (r: seq<int>)
    ensures |r| == |goals| && forall i :: 0 <= i < |r| ==> r[i] == if Unlocks(p, goals[i], orders, now) then goals[i].reward else 0
  {
    seq(|goals|, i requires 0 <= i < |goals| => if Unlocks(p, goals[i], orders, now) then goals[i].reward else 0)
  }

  /** A pass pays exactly the rewards of the goals it unlocks. */
  lemma {:induction false} PassPays(p: Progress, goals: seq<Goal>, orders: seq<Order>, now: int)
    requires DistinctGoals(goals)
    ensures Pass(p, goals, orders, now).earned == p.earned + Sum(Rewards(p, goals, orders, now))
  {
    if goals != [] {
      var n := |goals| - 1;
      PassPays(p, goals[..n], orders, now);
      assert Rewards(p, goals, orders, now)[..n] == Rewards(p, goals[..n], orders, now);
      OthersUntouched(p, goals[..n], orders, now, KeyOf(goals[n]));
    }
  }

  /** A goal that a pass unlocks gets that instant and its reward on its row and, if the
      reward is not nothing, one credit of it. */
  lemma {:induction false} UnlockPays(p: Progress, goals: seq<Goal>, orders: seq<Order>, now: int, i: nat)
    requires DistinctGoals(goals) && i < |goals| && Unlocks(p, goals[i], orders, now)
    ensures var q, k := Pass(p, goals, orders, now), KeyOf(goals[i]);
            && k in q.entries && q.entries[k] == Entry(goals[i].threshold, true, Some(now), goals[i].reward)
            && (goals[i].reward > 0 ==> Credit(k, goals[i].reward) in q.credits)
  {
    var n := |goals| - 1;
    if i == n {
      OthersUntouched(p, goals[..n], orders, now, KeyOf(goals[n]));
    } else {
      UnlockPays(p, goals[..n], orders, now, i);
      PassGrows(Pass(p, goals[..n], orders, now), goals[n..], orders, now);
    }
  }

  /** A goal on whose row a pass finds the threshold not reached has the statistic as its
      progress; the rest of the row stays, and a new row is locked, undated, unpaid. */
  lemma {:induction false} UnreachedStaysLocked(p: Progress, goals: seq<Goal>, orders: seq<Order>, now: int, i: nat)
    requires DistinctGoals(goals) && i < |goals| && Open(goals[i], now) && Statistic(orders, goals[i], now) < goals[i].threshold
    ensures var q, k := Pass(p, goals, orders, now), KeyOf(goals[i]);
            && k in q.entries
            && q.entries[k] == if k in p.entries then p.entries[k].(progress := Statistic(orders, goals[i], now))
                               else Entry(Statistic(orders, goals[i], now), false, None, 0)
  {
    var n := |goals| - 1;
    if i == n {
      OthersUntouched(p, goals[..n], orders, now, KeyOf(goals[n]));
    } else {
      UnreachedStaysLocked(p, goals[..n], orders, now, i);
    }
  }

  /** A goal switched off or outside its window keeps its row as it was. */
  lemma {:induction false} ClosedGoalsStay(p: Progress, goals: seq<Goal>, orders: seq<Order>, now: int, i: nat)
    requires DistinctGoals(goals) && i < |goals|
    requires !goals[i].active || (goals[i].Challenge? && (now < goals[i].startsAt || goals[i].endsAt < now))
    ensures var q, k := Pass(p, goals, orders, now), KeyOf(goals[i]);
            (k in q.entries <==> k in p.entries) && (k in p.entries ==> q.entries[k] == p.entries[k])
  {
    var n := |goals| - 1;
    if i == n {
      OthersUntouched(p, goals[..n], orders, now, KeyOf(goals[n]));
    } else {
      ClosedGoalsStay(p, goals[..n], orders, now, i);
    }
  }

  /** A badge is held after a pass exactly if it was, or if it is active and an account
      with some points has as many as it asks for; and it keeps its date. */
  lemma BadgeMeaning(held: map<nat, int>, badges: seq<Badge>, lifetime: nat, now: int, id: nat)
    ensures var after := AwardBadges(held, badges, lifetime, now);
            && (id in after <==> id in held || exists i :: 0 <= i < |badges| && badges[i].id == id && badges[i].active
                                                           && lifetime > 0 && badges[i].required <= lifetime)
            && (id in after ==> after[id] == if id in held then held[id] else now)
  {
    AwardMeaning(held, badges, lifetime, now);
    NewBadgesAreDated(held, badges, lifetime, now, id);
    assert forall i :: 0 <= i < |badges| ==>
      (Reached(badges[i], lifetime) <==> badges[i].active && lifetime > 0 && badges[i].required <= lifetime);
  }

  lemma {:induction false} NewBadgesAreDated(held: map<nat, int>, badges: seq<Badge>, lifetime: nat, now: int, id: nat)
    ensures var after := AwardBadges(held, badges, lifetime, now); id in after && id !in held ==> after[id] == now
  {
    if badges != [] {
      NewBadgesAreDated(held, badges[..|badges| - 1], lifetime, now, id);
    }
  }

  /** A delivery pays the achievements and the challenges it unlocks; its badges see the
      former and not the latter. */
  lemma HandlingPays(s: Standing, c: Catalogues, orders: seq<Order>, otherPoints: nat, now: int)
    requires WellSorted(c)
    ensures var after := Handle(s, c, orders, otherPoints, now);
            var seen := s.progress.earned + Sum(Rewards(s.progress, c.achievements, orders, now));
            && after.progress.earned == seen + Sum(Rewards(s.progress, c.challenges, orders, now))
            && seen + otherPoints >= 0
            && forall i :: 0 <= i < |c.badges| ==>
                 (c.badges[i].id in after.badges <==>
                  c.badges[i].id in s.badges || (c.badges[i].active && seen + otherPoints > 0 && c.badges[i].required <= seen + otherPoints))
  {
    var p := Pass(s.progress, c.achievements, orders, now);
    PassPays(s.progress, c.achievements, orders, now);
    PassPays(p, c.challenges, orders, now);
    forall i | 0 <= i < |c.challenges| ensures WasUnlocked(p, c.challenges[i]) <==> WasUnlocked(s.progress, c.challenges[i]) {
      OthersUntouched(s.progress, c.achievements, orders, now, KeyOf(c.challenges[i]));
    }
    assert Rewards(p, c.challenges, orders, now) == Rewards(s.progress, c.challenges, orders, now);
    forall i | 0 <= i < |c.badges|
      ensures c.badges[i].id in Handle(s, c, orders, otherPoints, now).badges <==>
              c.badges[i].id in s.badges || (c.badges[i].active && p.earned + otherPoints > 0 && c.badges[i].required <= p.earned + otherPoints)
    {
      BadgeMeaning(s.badges, c.badges, p.earned + otherPoints, now, c.badges[i].id);
      assert forall j :: 0 <= j < |c.badges| && c.badges[j].id == c.badges[i].id ==> j == i;
    }
  }
}

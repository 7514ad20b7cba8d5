/** Goals recomputed at every delivery and rewarded once (apps/gamification/services.py),
    for one customer. Achievements and challenges follow one mechanism; only the
    orders they count differ. */
module Gamification {
  import opened Wrappers
  import opened Rounding

  datatype Order = Order(delivered: bool, total: nat, createdAt: int)

  datatype Metric = OrdersCount | TotalSpent | Unknown

  datatype Goal =
    | Achievement(id: nat, metric: Metric, threshold: nat, reward: nat, active: bool)
    | Challenge(id: nat, metric: Metric, threshold: nat, reward: nat, active: bool, startsAt: int, endsAt: int)

  /** `awarded` is history: the reward of the goal when it was unlocked. */
  datatype Entry = Entry(progress: nat, unlocked: bool, unlockedAt: Option<int>, awarded: nat)

  datatype Credit = Credit(goal: Key, points: nat)

  /** Achievements and challenges live in two tables. */
  datatype Key = AchievementKey(id: nat) | ChallengeKey(id: nat)

  /** `earned`: the points this service has credited. `credits` is their journal. */
  datatype Progress = Progress(entries: map<Key, Entry>, earned: nat, credits: seq<Credit>)

  function KeyOf(g: Goal): Key {
    if g.Achievement? then AchievementKey(g.id) else ChallengeKey(g.id)
  }

  predicate Open(g: Goal, now: int) {
    g.active && (g.Challenge? ==> g.startsAt <= now <= g.endsAt)
  }

  // -------------------------------------------------------------------- statistics

  predicate Counts(g: Goal, o: Order, now: int) {
    o.delivered && (g.Challenge? ==> g.startsAt <= o.createdAt <= now)
  }

  function Delivered(orders: seq<Order>, g: Goal, now: int): nat {
    if orders == [] then 0
    else Delivered(orders[..|orders| - 1], g, now) + if Counts(g, orders[|orders| - 1], now) then 1 else 0
  }

  function Spent(orders: seq<Order>, g: Goal, now: int): nat {
    if orders == [] then 0
    else Spent(orders[..|orders| - 1], g, now) + if Counts(g, orders[|orders| - 1], now) then orders[|orders| - 1].total else 0
  }

  /** An unknown condition counts nothing for an achievement, orders for a challenge. */
  function Statistic(orders: seq<Order>, g: Goal, now: int): nat {
    match g.metric
    case TotalSpent => Spent(orders, g, now)
    case OrdersCount => Delivered(orders, g, now)
    case Unknown => if g.Achievement? then 0 else Delivered(orders, g, now)
  }

  function Min(a: nat, b: nat): nat {
    if a < b then a else b
  }

  // --------------------------------------------------------------------- one goal

  function EntryFor(p: Progress, k: Key): Entry {
    if k in p.entries then p.entries[k] else Entry(0, false, None, 0)
  }

  /** Progress is overwritten, the unlock is conditional, the reward follows it. */
  function Assess(p: Progress, g: Goal, orders: seq<Order>, now: int): Progress {
    if !Open(g, now) then p
    else
      var k := KeyOf(g);
      var progress := Min(Statistic(orders, g, now), g.threshold);
      var entry := EntryFor(p, k).(progress := progress);
      if progress < g.threshold || entry.unlocked then p.(entries := p.entries[k := entry])
      else
        var unlocked := entry.(unlocked := true, unlockedAt := Some(now), awarded := g.reward);
        Progress(p.entries[k := unlocked], p.earned + g.reward,
                 if g.reward > 0 then p.credits + [Credit(k, g.reward)] else p.credits)
  }

  function Pass(p: Progress, goals: seq<Goal>, orders: seq<Order>, now: int): Progress {
    if goals == [] then p else Assess(Pass(p, goals[..|goals| - 1], orders, now), goals[|goals| - 1], orders, now)
  }

  // ---------------------------------------------------------------- what runs keep

  function Points(credits: seq<Credit>): (r: seq<int>)
    ensures |r| == |credits|
  {
    seq(|credits|, i requires 0 <= i < |credits| => credits[i].points)
  }

  /** The points credited are exactly the rewards of the unlocked goals, each at
      its value when it was unlocked, each credited once. */
  ghost predicate Inv(p: Progress) {
    p.earned == Sum(Points(p.credits)) && CreditedOnce(p.credits) && CreditsMatch(p.entries, p.credits) && Dated(p.entries)
  }

  ghost predicate CreditedOnce(credits: seq<Credit>) {
    forall i, j :: 0 <= i < j < |credits| ==> credits[i].goal != credits[j].goal
  }

  ghost predicate CreditsMatch(entries: map<Key, Entry>, credits: seq<Credit>) {
    forall k, points :: Credit(k, points) in credits <==> Earns(entries, k, points)
  }

  predicate Earns(entries: map<Key, Entry>, k: Key, points: nat) {
    k in entries && entries[k].unlocked && entries[k].awarded == points && points > 0
  }

  ghost predicate Dated(entries: map<Key, Entry>) {
    forall k :: k in entries ==> (entries[k].unlocked <==> entries[k].unlockedAt.Some?)
  }

  lemma CreditKeepsSum(credits: seq<Credit>, c: Credit)
    ensures Sum(Points(credits + [c])) == Sum(Points(credits)) + c.points
  {
    assert Points(credits + [c]) == Points(credits) + [c.points];
    SumAppend(Points(credits), c.points);
  }

  /** Only the progress of an entry changes, or a locked one appears. */
  lemma ProgressKeeps(p: Progress, k: Key, progress: nat, q: Progress)
    requires Inv(p) && q == p.(entries := p.entries[k := EntryFor(p, k).(progress := progress)])
    ensures Inv(q)
  {
    forall x, points ensures Credit(x, points) in p.credits <==> Earns(q.entries, x, points) {
      assert Earns(q.entries, x, points) <==> Earns(p.entries, x, points);
    }
  }

  /** A locked entry is unlocked and its reward, if any, credited. */
  lemma UnlockMatches(entries: map<Key, Entry>, credits: seq<Credit>, k: Key, e: Entry)
    requires CreditsMatch(entries, credits) && (k in entries ==> !entries[k].unlocked) && e.unlocked
    ensures CreditsMatch(entries[k := e], if e.awarded > 0 then credits + [Credit(k, e.awarded)] else credits)
  {
    var after := if e.awarded > 0 then credits + [Credit(k, e.awarded)] else credits;
    forall x, points ensures Credit(x, points) in after <==> Earns(entries[k := e], x, points) {
      assert Credit(x, points) in credits <==> Earns(entries, x, points);
    }
  }

  lemma UnlockIsCreditedOnce(entries: map<Key, Entry>, credits: seq<Credit>, k: Key, points: nat)
    requires CreditsMatch(entries, credits) && CreditedOnce(credits) && (k in entries ==> !entries[k].unlocked)
    ensures CreditedOnce(credits + [Credit(k, points)])
  {
    forall i | 0 <= i < |credits| ensures credits[i].goal != k {
      var c := credits[i];
      assert Credit(c.goal, c.points) in credits;
      assert Earns(entries, c.goal, c.points);
    }
  }

  lemma UnlockKeeps(p: Progress, k: Key, e: Entry, q: Progress)
    requires Inv(p) && !EntryFor(p, k).unlocked && e.unlocked && e.unlockedAt.Some?
    requires q == Progress(p.entries[k := e], p.earned + e.awarded, if e.awarded > 0 then p.credits + [Credit(k, e.awarded)] else p.credits)
    ensures Inv(q)
  {
    UnlockMatches(p.entries, p.credits, k, e);
    if e.awarded > 0 {
      UnlockIsCreditedOnce(p.entries, p.credits, k, e.awarded);
      CreditKeepsSum(p.credits, Credit(k, e.awarded));
    }
  }

  lemma AssessKeeps(p: Progress, g: Goal, orders: seq<Order>, now: int)
    requires Inv(p)
    ensures Inv(Assess(p, g, orders, now))
  {
    if Open(g, now) {
      var k, progress := KeyOf(g), Min(Statistic(orders, g, now), g.threshold);
      var entry := EntryFor(p, k).(progress := progress);
      if progress < g.threshold || entry.unlocked {
        ProgressKeeps(p, k, progress, Assess(p, g, orders, now));
      } else {
        UnlockKeeps(p, k, entry.(unlocked := true, unlockedAt := Some(now), awarded := g.reward), Assess(p, g, orders, now));
      }
    }
  }

  lemma {:induction false} PassKeeps(p: Progress, goals: seq<Goal>, orders: seq<Order>, now: int)
    requires Inv(p)
    ensures Inv(Pass(p, goals, orders, now))
  {
    if goals != [] {
      PassKeeps(p, goals[..|goals| - 1], orders, now);
      AssessKeeps(Pass(p, goals[..|goals| - 1], orders, now), goals[|goals| - 1], orders, now);
    }
  }

  /** One delivery event: the goals and orders as they are when it is handled. */
  datatype Event = Event(goals: seq<Goal>, orders: seq<Order>, now: int)

  function Run(p: Progress, events: seq<Event>): Progress {
    if events == [] then p
    else
      var e := events[|events| - 1];
      Pass(Run(p, events[..|events| - 1]), e.goals, e.orders, e.now)
  }

  lemma RunOfOne(p: Progress, e: Event)
    ensures Run(p, [e]) == Pass(p, e.goals, e.orders, e.now)
  {
    assert [e][..0] == [];
    assert Run(p, []) == p;
  }

  const NOTHING := Progress(map[], 0, [])

  /** Replayed or not, whatever happens to the orders and to the goals in between:
      each goal is credited at most once and the points credited are the rewards
      at unlock time. */
  lemma {:induction false} RewardedOnce(events: seq<Event>)
    ensures Inv(Run(NOTHING, events))
  {
    if events == [] {
      assert Points([]) == [];
    } else {
      var e := events[|events| - 1];
      RewardedOnce(events[..|events| - 1]);
      PassKeeps(Run(NOTHING, events[..|events| - 1]), e.goals, e.orders, e.now);
    }
  }

  /** What was unlocked stays unlocked, at its date and reward, and what was
      credited stays credited. */
  ghost predicate Grows(p: Progress, q: Progress) {
    && p.credits <= q.credits
    && forall k :: k in p.entries ==>
         k in q.entries && (p.entries[k].unlocked ==> q.entries[k] == p.entries[k].(progress := q.entries[k].progress))
  }

  lemma {:induction false} PassGrows(p: Progress, goals: seq<Goal>, orders: seq<Order>, now: int)
    ensures Grows(p, Pass(p, goals, orders, now))
  {
    if goals != [] {
      PassGrows(p, goals[..|goals| - 1], orders, now);
    }
  }

  lemma {:induction false} NeverRelocks(p: Progress, events: seq<Event>)
    ensures Grows(p, Run(p, events))
  {
    if events != [] {
      var e := events[|events| - 1];
      NeverRelocks(p, events[..|events| - 1]);
      PassGrows(Run(p, events[..|events| - 1]), e.goals, e.orders, e.now);
    }
  }

  predicate DistinctGoals(goals: seq<Goal>) {
    forall i, j :: 0 <= i < j < |goals| ==> KeyOf(goals[i]) != KeyOf(goals[j])
  }

  lemma {:induction false} OthersUntouched(p: Progress, goals: seq<Goal>, orders: seq<Order>, now: int, k: Key)
    requires forall i :: 0 <= i < |goals| ==> KeyOf(goals[i]) != k
    ensures var q := Pass(p, goals, orders, now);
            (k in q.entries <==> k in p.entries) && (k in p.entries ==> q.entries[k] == p.entries[k])
  {
    if goals != [] {
      OthersUntouched(p, goals[..|goals| - 1], orders, now, k);
    }
  }

  /** After a pass the progress of each open goal is the recomputed statistic capped
      at its threshold, and it is unlocked exactly when it already was or when the
      statistic reaches the threshold. */
  lemma {:induction false} PassMeaning(p: Progress, goals: seq<Goal>, orders: seq<Order>, now: int, i: nat)
    requires DistinctGoals(goals) && i < |goals| && Open(goals[i], now)
    ensures var q, k := Pass(p, goals, orders, now), KeyOf(goals[i]);
            && k in q.entries
            && q.entries[k].progress == Min(Statistic(orders, goals[i], now), goals[i].threshold)
            && (q.entries[k].unlocked <==> EntryFor(p, k).unlocked || goals[i].threshold <= Statistic(orders, goals[i], now))
  {
    var n := |goals| - 1;
    if i == n {
      OthersUntouched(p, goals[..n], orders, now, KeyOf(goals[n]));
    } else {
      PassMeaning(p, goals[..n], orders, now, i);
    }
  }

  // --------------------------------------------------------------- one pass again

  /** A pass would find this goal as it is: its progress is the recomputed one, and
      it is unlocked if the threshold is reached. */
  predicate SettledGoal(p: Progress, g: Goal, orders: seq<Order>, now: int) {
    Open(g, now) ==>
      && KeyOf(g) in p.entries
      && p.entries[KeyOf(g)].progress == Min(Statistic(orders, g, now), g.threshold)
      && (g.threshold <= Statistic(orders, g, now) ==> p.entries[KeyOf(g)].unlocked)
  }

  predicate Settled(p: Progress, goals: seq<Goal>, orders: seq<Order>, now: int) {
    forall i :: 0 <= i < |goals| ==> SettledGoal(p, goals[i], orders, now)
  }

  lemma AssessFixpointIff(p: Progress, g: Goal, orders: seq<Order>, now: int)
    ensures Assess(p, g, orders, now) == p <==> SettledGoal(p, g, orders, now)
  {
    var q, k := Assess(p, g, orders, now), KeyOf(g);
    if Open(g, now) {
      assert k in q.entries;
      if SettledGoal(p, g, orders, now) {
        assert p.entries[k := p.entries[k]] == p.entries;
      }
    }
  }

  /** A pass, at whatever instant and over whatever orders and goals, changes nothing
      exactly when every goal open then is settled: its entry exists with the
      statistic recomputed then, capped, and it is unlocked if that reaches the
      threshold. */
  lemma {:induction false} PassFixpointIff(p: Progress, goals: seq<Goal>, orders: seq<Order>, now: int)
    requires DistinctGoals(goals)
    ensures Pass(p, goals, orders, now) == p <==> Settled(p, goals, orders, now)
  {
    if goals != [] {
      var n := |goals| - 1;
      var q := Pass(p, goals[..n], orders, now);
      PassFixpointIff(p, goals[..n], orders, now);
      AssessFixpointIff(q, goals[n], orders, now);
      if Settled(p, goals, orders, now) {
        assert Settled(p, goals[..n], orders, now);
      } else if Pass(p, goals, orders, now) == p {
        forall i | 0 <= i < |goals| ensures SettledGoal(p, goals[i], orders, now) {
          if Open(goals[i], now) { PassMeaning(p, goals, orders, now, i); }
        }
      }
    }
  }

  lemma PassSettles(p: Progress, goals: seq<Goal>, orders: seq<Order>, now: int)
    requires DistinctGoals(goals)
    ensures Settled(Pass(p, goals, orders, now), goals, orders, now)
  {
    forall i | 0 <= i < |goals| ensures SettledGoal(Pass(p, goals, orders, now), goals[i], orders, now) {
      if Open(goals[i], now) { PassMeaning(p, goals, orders, now, i); }
    }
  }

  /** One pass repeated at one instant over the same orders changes nothing. */
  lemma PassTwiceIsPassOnce(p: Progress, goals: seq<Goal>, orders: seq<Order>, now: int)
    requires DistinctGoals(goals)
    ensures var q := Pass(p, goals, orders, now); Pass(q, goals, orders, now) == q
  {
    PassSettles(p, goals, orders, now);
    PassFixpointIff(Pass(p, goals, orders, now), goals, orders, now);
  }

  // -------------------------------------------------------------- the whole handling

  datatype Badge = Badge(id: nat, required: nat, active: bool)

  /** What the handling leaves: the goals' progress and the badges with their dates. */
  datatype Standing = Standing(progress: Progress, badges: map<nat, int>)

  datatype Catalogues = Catalogues(achievements: seq<Goal>, badges: seq<Badge>, challenges: seq<Goal>)

  /** Each list from its own table, each row once. */
  predicate WellSorted(c: Catalogues) {
    && (forall i, j :: 0 <= i < j < |c.badges| ==> c.badges[i].id != c.badges[j].id)
    && DistinctGoals(c.achievements) && (forall i :: 0 <= i < |c.achievements| ==> c.achievements[i].Achievement?)
    && DistinctGoals(c.challenges) && (forall i :: 0 <= i < |c.challenges| ==> c.challenges[i].Challenge?)
  }

  /** An account without points gets no badge, not even one that asks for none. */
  predicate Reached(b: Badge, lifetime: nat) {
    b.active && lifetime > 0 && b.required <= lifetime
  }

  function AwardBadges(held: map<nat, int>, badges: seq<Badge>, lifetime: nat, now: int): map<nat, int> {
    if badges == [] then held
    else
      var before, b := AwardBadges(held, badges[..|badges| - 1], lifetime, now), badges[|badges| - 1];
      if Reached(b, lifetime) && b.id !in before then before[b.id := now] else before
  }

  /** `on_order_delivered`: achievements, badges, challenges. `otherPoints` were
      earned elsewhere over the customer's life. */
  function Handle(s: Standing, c: Catalogues, orders: seq<Order>, otherPoints: nat, now: int): Standing {
    var p := Pass(s.progress, c.achievements, orders, now);
    Standing(Pass(p, c.challenges, orders, now), AwardBadges(s.badges, c.badges, p.earned + otherPoints, now))
  }

  predicate NoNewBadge(held: map<nat, int>, badges: seq<Badge>, lifetime: nat) {
    forall i :: 0 <= i < |badges| && Reached(badges[i], lifetime) ==> badges[i].id in held
  }

  lemma {:induction false} AwardMeaning(held: map<nat, int>, badges: seq<Badge>, lifetime: nat, now: int)
    ensures var after := AwardBadges(held, badges, lifetime, now);
            && (forall id :: id in after <==> id in held || exists i :: 0 <= i < |badges| && badges[i].id == id && Reached(badges[i], lifetime))
            && (forall id :: id in held ==> after[id] == held[id])
            && (after == held <==> NoNewBadge(held, badges, lifetime))
  {
    if badges != [] {
      var n := |badges| - 1;
      AwardMeaning(held, badges[..n], lifetime, now);
      var after := AwardBadges(held, badges, lifetime, now);
      forall id ensures id in after <==> id in held || exists i :: 0 <= i < |badges| && badges[i].id == id && Reached(badges[i], lifetime) {
        assert (exists i :: 0 <= i < n && badges[..n][i].id == id && Reached(badges[..n][i], lifetime))
          <==> (exists i :: 0 <= i < n && badges[i].id == id && Reached(badges[i], lifetime));
      }
      if NoNewBadge(held, badges, lifetime) {
        assert NoNewBadge(held, badges[..n], lifetime);
      }
    }
  }

  /** Handling a delivery, again or later, changes nothing exactly when: every
      achievement and challenge open at that instant is settled for the orders seen
      then, and no active badge that is not held is within the points of the
      account. */
  lemma HandlingFixpointIff(s: Standing, c: Catalogues, orders: seq<Order>, otherPoints: nat, now: int)
    requires WellSorted(c)
    ensures Handle(s, c, orders, otherPoints, now) == s <==>
            && Settled(s.progress, c.achievements, orders, now)
            && Settled(s.progress, c.challenges, orders, now)
            && NoNewBadge(s.badges, c.badges, s.progress.earned + otherPoints)
  {
    var p := Pass(s.progress, c.achievements, orders, now);
    PassFixpointIff(s.progress, c.achievements, orders, now);
    PassFixpointIff(s.progress, c.challenges, orders, now);
    AwardMeaning(s.badges, c.badges, p.earned + otherPoints, now);
    if Handle(s, c, orders, otherPoints, now) == s {
      AchievementsSettled(s.progress, c, orders, now);
    }
  }

  /** Challenges do not touch the entries of achievements. */
  lemma {:induction false} ChallengesLeaveAchievements(p: Progress, challenges: seq<Goal>, orders: seq<Order>, now: int, k: Key)
    requires k.AchievementKey? && forall i :: 0 <= i < |challenges| ==> challenges[i].Challenge?
    ensures var q := Pass(p, challenges, orders, now);
            (k in q.entries <==> k in p.entries) && (k in p.entries ==> q.entries[k] == p.entries[k])
  {
    OthersUntouched(p, challenges, orders, now, k);
  }

  lemma AchievementsStaySettled(p: Progress, c: Catalogues, orders: seq<Order>, now: int)
    requires WellSorted(c)
    ensures Settled(Pass(Pass(p, c.achievements, orders, now), c.challenges, orders, now), c.achievements, orders, now)
  {
    PassSettles(p, c.achievements, orders, now);
    var q := Pass(p, c.achievements, orders, now);
    forall i | 0 <= i < |c.achievements|
      ensures SettledGoal(Pass(q, c.challenges, orders, now), c.achievements[i], orders, now)
    {
      assert SettledGoal(q, c.achievements[i], orders, now);
      ChallengesLeaveAchievements(q, c.challenges, orders, now, KeyOf(c.achievements[i]));
    }
  }

  lemma AchievementsSettled(p: Progress, c: Catalogues, orders: seq<Order>, now: int)
    requires WellSorted(c) && Pass(Pass(p, c.achievements, orders, now), c.challenges, orders, now) == p
    ensures Pass(p, c.achievements, orders, now) == p
  {
    AchievementsStaySettled(p, c, orders, now);
    PassFixpointIff(p, c.achievements, orders, now);
  }

  /** The same delivery handled again at the same instant changes nothing exactly
      when no active badge that the first handling did not give is within the points
      the account has after the challenges, which the badge pass ran before. */
  lemma ReplayChangesNothingIff(s: Standing, c: Catalogues, orders: seq<Order>, otherPoints: nat, now: int)
    requires WellSorted(c)
    ensures var seen := Pass(s.progress, c.achievements, orders, now);
            var once := Handle(s, c, orders, otherPoints, now);
            && seen.earned <= once.progress.earned
            && (Handle(once, c, orders, otherPoints, now) == once <==>
                forall i :: 0 <= i < |c.badges| && c.badges[i].id !in s.badges && Reached(c.badges[i], once.progress.earned + otherPoints) ==>
                              Reached(c.badges[i], seen.earned + otherPoints))
  {
    var seen := Pass(s.progress, c.achievements, orders, now);
    var once := Handle(s, c, orders, otherPoints, now);
    PassEarnsMore(seen, c.challenges, orders, now);
    AchievementsStaySettled(s.progress, c, orders, now);
    PassSettles(seen, c.challenges, orders, now);
    HandlingFixpointIff(once, c, orders, otherPoints, now);
    AwardMeaning(s.badges, c.badges, seen.earned + otherPoints, now);
    var before, after := seen.earned + otherPoints, once.progress.earned + otherPoints;
    forall i | 0 <= i < |c.badges| ensures c.badges[i].id in once.badges <==> c.badges[i].id in s.badges || Reached(c.badges[i], before) {
      assert forall j :: 0 <= j < |c.badges| && c.badges[j].id == c.badges[i].id ==> j == i;
    }
    assert NoNewBadge(once.badges, c.badges, after) <==>
      forall i :: 0 <= i < |c.badges| && c.badges[i].id !in s.badges && Reached(c.badges[i], after) ==> Reached(c.badges[i], before);
  }

  lemma {:induction false} PassEarnsMore(p: Progress, goals: seq<Goal>, orders: seq<Order>, now: int)
    ensures p.earned <= Pass(p, goals, orders, now).earned
  {
    if goals != [] {
      PassEarnsMore(p, goals[..|goals| - 1], orders, now);
    }
  }

  const FIRST_ORDER := Order(true, 5000, 10)
  const FIRST_CHALLENGE := Challenge(4, OrdersCount, 1, 100, true, 0, 100)
  const HUNDRED := Badge(7, 100, true)

  /** A badge for a hundred points, a challenge that brings them, one delivery: the
      replay unlocks the badge that the first handling left locked. */
  lemma ReplayCanUnlockABadge()
    ensures var c := Catalogues([], [HUNDRED], [FIRST_CHALLENGE]);
            var once := Handle(Standing(NOTHING, map[]), c, [FIRST_ORDER], 0, 50);
            && WellSorted(c)
            && 7 !in once.badges && 7 in Handle(once, c, [FIRST_ORDER], 0, 50).badges
  {
    var c := Catalogues([], [HUNDRED], [FIRST_CHALLENGE]);
    var start := Standing(NOTHING, map[]);
    assert [FIRST_CHALLENGE][..0] == [] && [FIRST_ORDER][..0] == [] && [HUNDRED][..0] == [];
    assert Delivered([FIRST_ORDER], FIRST_CHALLENGE, 50) == 1;
    assert Pass(NOTHING, [], [FIRST_ORDER], 50) == NOTHING;
    var after := Pass(NOTHING, [FIRST_CHALLENGE], [FIRST_ORDER], 50);
    assert after == Assess(NOTHING, FIRST_CHALLENGE, [FIRST_ORDER], 50) && after.earned == 100;
    var once := Handle(start, c, [FIRST_ORDER], 0, 50);
    assert once.progress == after && once.badges == AwardBadges(map[], [HUNDRED], 0, 50);
    AwardMeaning(map[], [HUNDRED], 0, 50);
    assert Pass(after, [], [FIRST_ORDER], 50) == after;
    AwardMeaning(once.badges, [HUNDRED], 100, 50);
    assert [HUNDRED][0].id == 7 && Reached([HUNDRED][0], 100);
  }
}

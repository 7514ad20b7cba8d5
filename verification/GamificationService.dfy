/** One delivery handled as the program does: achievements, then badges, then
    challenges, each in a loop over its catalogue (apps/gamification/services.py). */
module GamificationServices {
  import opened Wrappers
  import opened Gamification

  class GamificationService {
    var entries: map<Key, Entry>
    var earned: nat
    var credits: seq<Credit>
    var badges: map<nat, int>

    /** Points earned elsewhere over the customer's life. */
    var otherPoints: nat

    function State(): Progress
      reads this
    {
      Progress(entries, earned, credits)
    }

    ghost predicate Valid()
      reads this
    {
      Inv(State())
    }

    constructor (otherPoints: nat)
      ensures Valid() && State() == NOTHING && badges == map[] && this.otherPoints == otherPoints
    {
      entries, earned, credits, badges := map[], 0, [], map[];
      this.otherPoints := otherPoints;
      new;
      RewardedOnce([]);
    }

    method CheckGoals(goals: seq<Goal>, orders: seq<Order>, now: int)
      requires Valid()
      modifies `entries, `earned, `credits
      ensures Valid() && State() == Pass(old(State()), goals, orders, now)
    {
      for i := 0 to |goals|
        invariant Valid() && State() == Pass(old(State()), goals[..i], orders, now)
      {
        assert goals[..i + 1][..i] == goals[..i];
        AssessKeeps(State(), goals[i], orders, now);
        var g := goals[i];
        if Open(g, now) {
          var current := Statistic(orders, g, now);
          var progress := Min(current, g.threshold);
          var entry := if KeyOf(g) in entries then entries[KeyOf(g)] else Entry(0, false, None, 0);
          entry := entry.(progress := progress);
          if progress >= g.threshold && !entry.unlocked {
            entry := entry.(unlocked := true, unlockedAt := Some(now), awarded := g.reward);
            if g.reward > 0 {
              earned, credits := earned + g.reward, credits + [Credit(KeyOf(g), g.reward)];
            }
          }
          entries := entries[KeyOf(g) := entry];
        }
      }
      assert goals[..|goals|] == goals;
    }

    method CheckBadges(catalogue: seq<Badge>, now: int)
      modifies `badges
      ensures badges == AwardBadges(old(badges), catalogue, earned + otherPoints, now)
      ensures forall id :: id in badges <==>
                id in old(badges) || exists i :: 0 <= i < |catalogue| && catalogue[i].id == id && Reached(catalogue[i], earned + otherPoints)
      ensures forall id :: id in old(badges) ==> id in badges && badges[id] == old(badges)[id]
    {
      var lifetime := earned + otherPoints;
      AwardMeaning(badges, catalogue, lifetime, now);
      if lifetime == 0 {
        return;
      }
      for i := 0 to |catalogue|
        invariant badges == AwardBadges(old(badges), catalogue[..i], lifetime, now)
      {
        assert catalogue[..i + 1][..i] == catalogue[..i];
        var b := catalogue[i];
        if b.active && b.required <= lifetime && b.id !in badges {
          badges := badges[b.id := now];
        }
      }
      assert catalogue[..|catalogue|] == catalogue;
    }

    /** Badges see the rewards of this delivery's achievements and not those of its
        challenges. */
    method OnOrderDelivered(c: Catalogues, orders: seq<Order>, now: int)
      requires Valid() && WellSorted(c)
      modifies this
      ensures Valid() && otherPoints == old(otherPoints)
      ensures Standing(State(), badges) == Handle(old(Standing(State(), badges)), c, orders, otherPoints, now)
      ensures Grows(old(State()), State())
    {
      ghost var before := State();
      CheckGoals(c.achievements, orders, now);
      PassGrows(before, c.achievements, orders, now);
      ghost var between := State();
      CheckBadges(c.badges, now);
      CheckGoals(c.challenges, orders, now);
      PassGrows(between, c.challenges, orders, now);
    }
  }
}

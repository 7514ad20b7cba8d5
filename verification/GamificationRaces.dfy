/** Two deliveries of one customer handled at once (apps/gamification/services.py):
    passes interleaved at every statement, under the row locks their updates take. */
module GamificationRaces {
  import opened Wrappers
  import opened Rounding
  import opened Gamification

  /** The goal a pass has in hand: what it read on the row, what it computed. */
  datatype Hand = Hand(goal: Goal, read: nat, computed: nat, written: bool)

  /** `writes`: the rows this transaction has changed and holds locked; `credits`:
      what it has credited. Both take effect when it commits. */
  datatype Tx = Tx(hand: Option<Hand>, writes: map<Key, Entry>, credits: seq<Credit>)

  /** `base` is what is committed. `computed` is history: every value of the capped
      statistic any pass ever computed, with the threshold it was compared to. */
  datatype Sys = Sys(base: Progress, txs: map<nat, Tx>, computed: set<(Key, nat, nat)>)

  datatype Action =
    | Begin(tx: nat)
    | Look(tx: nat, goal: Goal, current: nat)
    | WriteProgress(tx: nat)
    | TryUnlock(tx: nat, now: int)
    | Commit(tx: nat)
    | Abort(tx: nat)

  predicate LockedByOther(s: Sys, t: nat, k: Key) {
    exists u :: u in s.txs && u != t && k in s.txs[u].writes
  }

  /** What a transaction sees of a row: its own version, else the committed one. */
  predicate Sees(s: Sys, t: nat, k: Key)
    requires t in s.txs
  {
    k in s.txs[t].writes || k in s.base.entries
  }

  function Seen(s: Sys, t: nat, k: Key): Entry
    requires t in s.txs && Sees(s, t, k)
  {
    if k in s.txs[t].writes then s.txs[t].writes[k] else s.base.entries[k]
  }

  const NEW_ENTRY := Entry(0, false, None, 0)

  function WithTx(s: Sys, t: nat, tx: Tx): Sys {
    s.(txs := s.txs[t := tx])
  }

  function SumOf(credits: seq<Credit>): nat
    ensures SumOf(credits) == Sum(Points(credits))
  {
    if credits == [] then
      assert Points(credits) == [];
      0
    else
      CreditKeepsSum(credits[..|credits| - 1], credits[|credits| - 1]);
      assert credits == credits[..|credits| - 1] + [credits[|credits| - 1]];
      SumOf(credits[..|credits| - 1]) + credits[|credits| - 1].points
  }

  function Committed(base: Progress, tx: Tx): Progress {
    Progress(base.entries + tx.writes, base.earned + SumOf(tx.credits), base.credits + tx.credits)
  }

  /** A statement on a row locked by another transaction waits: nothing changes. */
  function Fire(s: Sys, a: Action): Sys {
    match a
    case Begin(t) => if t in s.txs then s else WithTx(s, t, Tx(None, map[], []))
    case Look(t, g, current) =>
      // get_or_create, and the statistic as this pass computes it.
      if t !in s.txs || s.txs[t].hand.Some? then s
      else
        var tx, k := s.txs[t], KeyOf(g);
        var computed := Min(current, g.threshold);
        if Sees(s, t, k)
        then WithTx(s, t, tx.(hand := Some(Hand(g, Seen(s, t, k).progress, computed, false)))).(computed := s.computed + {(k, computed, g.threshold)})
        else if LockedByOther(s, t, k) then s
        else WithTx(s, t, tx.(hand := Some(Hand(g, 0, computed, false)), writes := tx.writes[k := NEW_ENTRY]))
             .(computed := s.computed + {(k, computed, g.threshold)})
    case WriteProgress(t) =>
      if t !in s.txs || s.txs[t].hand.None? || s.txs[t].hand.value.written then s
      else
        var tx, h := s.txs[t], s.txs[t].hand.value;
        var k := KeyOf(h.goal);
        if h.computed == h.read then WithTx(s, t, tx.(hand := Some(h.(written := true))))
        else if LockedByOther(s, t, k) || !Sees(s, t, k) then s
        else WithTx(s, t, tx.(hand := Some(h.(written := true)), writes := tx.writes[k := Seen(s, t, k).(progress := h.computed)]))
    case TryUnlock(t, now) =>
      if t !in s.txs || s.txs[t].hand.None? || !s.txs[t].hand.value.written then s
      else
        var tx, h := s.txs[t], s.txs[t].hand.value;
        var k := KeyOf(h.goal);
        if h.computed < h.goal.threshold then WithTx(s, t, tx.(hand := None))
        else if LockedByOther(s, t, k) || !Sees(s, t, k) then s
        else if Seen(s, t, k).unlocked then WithTx(s, t, tx.(hand := None))
        else
          WithTx(s, t, Tx(None, tx.writes[k := Seen(s, t, k).(unlocked := true, unlockedAt := Some(now), awarded := h.goal.reward)],
                          if h.goal.reward > 0 then tx.credits + [Credit(k, h.goal.reward)] else tx.credits))
    case Commit(t) =>
      if t !in s.txs || s.txs[t].hand.Some? then s
      else s.(base := Committed(s.base, s.txs[t]), txs := s.txs - {t})
    case Abort(t) => if t in s.txs then s.(txs := s.txs - {t}) else s
  }

  function FireAll(s: Sys, actions: seq<Action>): Sys {
    if actions == [] then s else Fire(FireAll(s, actions[..|actions| - 1]), actions[|actions| - 1])
  }

  function Quiet(p: Progress): Sys {
    Sys(p, map[], {})
  }

  // ------------------------------------------------------------------ what is kept

  predicate NoGoalTwice(credits: seq<Credit>) {
    forall i, j :: 0 <= i < j < |credits| ==> credits[i].goal != credits[j].goal
  }

  /** The credits of a transaction are those of the rows it has unlocked itself. */
  ghost predicate TxKept(base: Progress, tx: Tx) {
    && NoGoalTwice(tx.credits)
    && (forall k, points :: Credit(k, points) in tx.credits <==>
          && k in tx.writes && tx.writes[k].unlocked && tx.writes[k].awarded == points && points > 0
          && (k in base.entries ==> !base.entries[k].unlocked))
    && (forall k :: k in tx.writes ==> (tx.writes[k].unlocked <==> tx.writes[k].unlockedAt.Some?))
    && (forall k :: k in tx.writes && k in base.entries && base.entries[k].unlocked ==>
          tx.writes[k] == base.entries[k].(progress := tx.writes[k].progress))
  }

  ghost predicate LocksExclude(s: Sys) {
    forall t, u :: t in s.txs && u in s.txs && t != u ==> s.txs[t].writes.Keys !! s.txs[u].writes.Keys
  }

  ghost predicate Kept(s: Sys) {
    && Inv(s.base)
    && LocksExclude(s)
    && forall t :: t in s.txs ==> TxKept(s.base, s.txs[t])
  }

  lemma PointsConcat(a: seq<Credit>, b: seq<Credit>)
    ensures Sum(Points(a + b)) == Sum(Points(a)) + Sum(Points(b))
  {
    assert Points(a + b) == Points(a) + Points(b);
    SumConcat(Points(a), Points(b));
  }

  lemma CommitKeepsJournal(base: Progress, tx: Tx)
    requires Inv(base) && TxKept(base, tx)
    ensures NoGoalTwice(base.credits + tx.credits)
  {
    forall i, j | 0 <= i < |base.credits| && 0 <= j < |tx.credits| ensures base.credits[i].goal != tx.credits[j].goal {
      assert Credit(base.credits[i].goal, base.credits[i].points) in base.credits;
      assert Credit(tx.credits[j].goal, tx.credits[j].points) in tx.credits;
    }
  }

  lemma CommitKeepsRewards(base: Progress, tx: Tx, k: Key, points: nat)
    requires Inv(base) && TxKept(base, tx)
    ensures var p := Committed(base, tx);
            Credit(k, points) in p.credits <==>
            k in p.entries && p.entries[k].unlocked && p.entries[k].awarded == points && points > 0
  {
    assert Credit(k, points) in base.credits + tx.credits <==> Credit(k, points) in base.credits || Credit(k, points) in tx.credits;
    assert Credit(k, points) in base.credits <==>
      k in base.entries && base.entries[k].unlocked && base.entries[k].awarded == points && points > 0;
  }

  lemma CommitKeepsBase(base: Progress, tx: Tx)
    requires Inv(base) && TxKept(base, tx)
    ensures Inv(Committed(base, tx))
  {
    var p := Committed(base, tx);
    PointsConcat(base.credits, tx.credits);
    CommitKeepsJournal(base, tx);
    forall k, points ensures Credit(k, points) in p.credits <==>
                             k in p.entries && p.entries[k].unlocked && p.entries[k].awarded == points && points > 0 {
      CommitKeepsRewards(base, tx, k, points);
    }
  }

  /** A commit does not disturb a transaction whose rows are others. */
  lemma CommitKeepsOthers(base: Progress, tx: Tx, other: Tx)
    requires TxKept(base, other) && tx.writes.Keys !! other.writes.Keys
    ensures TxKept(Committed(base, tx), other)
  {
    var p := Committed(base, tx);
    forall k | k in other.writes ensures (k in p.entries <==> k in base.entries) && (k in base.entries ==> p.entries[k] == base.entries[k]) {
    }
  }

  lemma ProgressWriteKeepsTx(base: Progress, tx: Tx, k: Key, before: Entry, after: Entry)
    requires Inv(base) && TxKept(base, tx)
    requires before == (if k in tx.writes then tx.writes[k] else if k in base.entries then base.entries[k] else NEW_ENTRY)
    requires after == before.(progress := after.progress)
    ensures TxKept(base, tx.(writes := tx.writes[k := after]))
  {
    var next := tx.(writes := tx.writes[k := after]);
    forall x, points ensures Credit(x, points) in next.credits <==>
                             && x in next.writes && next.writes[x].unlocked && next.writes[x].awarded == points && points > 0
                             && (x in base.entries ==> !base.entries[x].unlocked) {
      assert Credit(x, points) in tx.credits <==>
        && x in tx.writes && tx.writes[x].unlocked && tx.writes[x].awarded == points && points > 0
        && (x in base.entries ==> !base.entries[x].unlocked);
    }
  }

  lemma UnlockKeepsTx(base: Progress, tx: Tx, k: Key, before: Entry, now: int, reward: nat)
    requires Inv(base) && TxKept(base, tx) && !before.unlocked
    requires (k in tx.writes && before == tx.writes[k]) || (k !in tx.writes && k in base.entries && before == base.entries[k])
    ensures TxKept(base, Tx(None, tx.writes[k := before.(unlocked := true, unlockedAt := Some(now), awarded := reward)],
                            if reward > 0 then tx.credits + [Credit(k, reward)] else tx.credits))
  {
    var next := Tx(None, tx.writes[k := before.(unlocked := true, unlockedAt := Some(now), awarded := reward)],
                   if reward > 0 then tx.credits + [Credit(k, reward)] else tx.credits);
    assert k in base.entries ==> !base.entries[k].unlocked;
    assert forall i :: 0 <= i < |tx.credits| ==> Credit(tx.credits[i].goal, tx.credits[i].points) in tx.credits;
    assert forall c :: c in next.credits <==> c in tx.credits || (reward > 0 && c == Credit(k, reward));
    forall x, points ensures Credit(x, points) in next.credits <==>
                             && x in next.writes && next.writes[x].unlocked && next.writes[x].awarded == points && points > 0
                             && (x in base.entries ==> !base.entries[x].unlocked) {
      assert Credit(x, points) in tx.credits <==>
        && x in tx.writes && tx.writes[x].unlocked && tx.writes[x].awarded == points && points > 0
        && (x in base.entries ==> !base.entries[x].unlocked);
    }
  }

  /** A transaction that changes its own version of one row that nobody else holds. */
  lemma OwnRowKeeps(s: Sys, t: nat, tx: Tx, k: Key)
    requires Kept(s) && t in s.txs && TxKept(s.base, tx)
    requires tx.writes.Keys <= s.txs[t].writes.Keys + {k} && (k in s.txs[t].writes || !LockedByOther(s, t, k) || tx.writes.Keys <= s.txs[t].writes.Keys)
    ensures Kept(WithTx(s, t, tx))
  {
    var v := WithTx(s, t, tx);
    forall a, b | a in v.txs && b in v.txs && a != b ensures v.txs[a].writes.Keys !! v.txs[b].writes.Keys {
      if a == t {
        OnlyMine(s, t, tx, k, b);
      } else if b == t {
        OnlyMine(s, t, tx, k, a);
      }
    }
  }

  lemma OnlyMine(s: Sys, t: nat, tx: Tx, k: Key, u: nat)
    requires LocksExclude(s) && t in s.txs && u in s.txs && u != t
    requires tx.writes.Keys <= s.txs[t].writes.Keys + {k} && (k in s.txs[t].writes || !LockedByOther(s, t, k) || tx.writes.Keys <= s.txs[t].writes.Keys)
    ensures tx.writes.Keys !! s.txs[u].writes.Keys
  {
    forall x | x in tx.writes ensures x !in s.txs[u].writes {
      assert x in s.txs[t].writes.Keys || x == k;
    }
  }

  lemma LookKeeps(s: Sys, t: nat, g: Goal, current: nat)
    requires Kept(s)
    ensures Kept(Fire(s, Look(t, g, current)))
  {
    if t in s.txs && s.txs[t].hand.None? {
      var tx, k := s.txs[t], KeyOf(g);
      if Sees(s, t, k) {
        OwnRowKeeps(s, t, tx.(hand := Some(Hand(g, Seen(s, t, k).progress, Min(current, g.threshold), false))), k);
      } else if !LockedByOther(s, t, k) {
        ProgressWriteKeepsTx(s.base, tx, k, NEW_ENTRY, NEW_ENTRY);
        OwnRowKeeps(s, t, tx.(hand := Some(Hand(g, 0, Min(current, g.threshold), false)), writes := tx.writes[k := NEW_ENTRY]), k);
      }
    }
  }

  lemma WriteKeeps(s: Sys, t: nat)
    requires Kept(s)
    ensures Kept(Fire(s, WriteProgress(t)))
  {
    var v := Fire(s, WriteProgress(t));
    if v != s {
      var tx, h := s.txs[t], s.txs[t].hand.value;
      var k := KeyOf(h.goal);
      if h.computed == h.read {
        OwnRowKeeps(s, t, tx.(hand := Some(h.(written := true))), k);
      } else {
        var after := Seen(s, t, k).(progress := h.computed);
        ProgressWriteKeepsTx(s.base, tx, k, Seen(s, t, k), after);
        OwnRowKeeps(s, t, tx.(hand := Some(h.(written := true)), writes := tx.writes[k := after]), k);
      }
    }
  }

  lemma UnlockKeeps(s: Sys, t: nat, now: int)
    requires Kept(s)
    ensures Kept(Fire(s, TryUnlock(t, now)))
  {
    var v := Fire(s, TryUnlock(t, now));
    if v != s {
      var tx, h := s.txs[t], s.txs[t].hand.value;
      var k := KeyOf(h.goal);
      if h.computed < h.goal.threshold || Seen(s, t, k).unlocked {
        OwnRowKeeps(s, t, tx.(hand := None), k);
      } else {
        UnlockKeepsTx(s.base, tx, k, Seen(s, t, k), now, h.goal.reward);
        OwnRowKeeps(s, t, v.txs[t], k);
      }
    }
  }

  lemma CommitKeeps(s: Sys, t: nat)
    requires Kept(s)
    ensures Kept(Fire(s, Commit(t)))
  {
    var v := Fire(s, Commit(t));
    if t in s.txs && s.txs[t].hand.None? {
      CommitKeepsBase(s.base, s.txs[t]);
      forall u | u in v.txs ensures TxKept(v.base, v.txs[u]) {
        CommitKeepsOthers(s.base, s.txs[t], s.txs[u]);
      }
    }
  }

  lemma FireKeeps(s: Sys, a: Action)
    requires Kept(s)
    ensures Kept(Fire(s, a))
  {
    match a
    case Begin(t) =>
    case Look(t, g, current) => LookKeeps(s, t, g, current);
    case WriteProgress(t) => WriteKeeps(s, t);
    case TryUnlock(t, now) => UnlockKeeps(s, t, now);
    case Commit(t) => CommitKeeps(s, t);
    case Abort(t) =>
  }

  /** However passes are interleaved, waiting, committed or aborted: at every moment
      the points credited are the rewards of the unlocked goals at their value then,
      each goal credited once, and no two passes hold the same goal. */
  lemma {:induction false} RewardedOnceUnderInterleaving(p: Progress, actions: seq<Action>)
    requires Inv(p)
    ensures Kept(FireAll(Quiet(p), actions)) && Inv(FireAll(Quiet(p), actions).base)
  {
    if actions != [] {
      RewardedOnceUnderInterleaving(p, actions[..|actions| - 1]);
      FireKeeps(FireAll(Quiet(p), actions[..|actions| - 1]), actions[|actions| - 1]);
    }
  }

  // ---------------------------------------------------- what survives of progress

  /** Some pass computed this value for this goal. */
  predicate WasComputed(computed: set<(Key, nat, nat)>, k: Key, value: nat) {
    exists c :: c in computed && c.0 == k && c.1 == value
  }

  /** Some pass found the threshold reached. */
  predicate WasReached(computed: set<(Key, nat, nat)>, k: Key) {
    exists c :: c in computed && c.0 == k && c.2 <= c.1
  }

  predicate Explained(start: map<Key, Entry>, computed: set<(Key, nat, nat)>, k: Key, e: Entry) {
    && (e.progress == 0 || (k in start && start[k].progress == e.progress) || WasComputed(computed, k, e.progress))
    && (e.unlocked ==> (k in start && start[k].unlocked) || WasReached(computed, k))
  }

  ghost predicate AllExplained(start: map<Key, Entry>, s: Sys) {
    && (forall k :: k in s.base.entries ==> Explained(start, s.computed, k, s.base.entries[k]))
    && (forall t, k :: t in s.txs && k in s.txs[t].writes ==> Explained(start, s.computed, k, s.txs[t].writes[k]))
    && (forall t :: t in s.txs && s.txs[t].hand.Some? ==>
          var h := s.txs[t].hand.value; (KeyOf(h.goal), h.computed, h.goal.threshold) in s.computed)
  }

  lemma ExplainedGrows(start: map<Key, Entry>, computed: set<(Key, nat, nat)>, more: set<(Key, nat, nat)>, k: Key, e: Entry)
    requires Explained(start, computed, k, e) && computed <= more
    ensures Explained(start, more, k, e)
  {
    if WasComputed(computed, k, e.progress) {
      var c :| c in computed && c.0 == k && c.1 == e.progress;
      assert c in more;
    }
    if WasReached(computed, k) {
      var c :| c in computed && c.0 == k && c.2 <= c.1;
      assert c in more;
    }
  }

  lemma LookExplains(start: map<Key, Entry>, s: Sys, t: nat, g: Goal, current: nat)
    requires AllExplained(start, s)
    ensures AllExplained(start, Fire(s, Look(t, g, current)))
  {
    var v := Fire(s, Look(t, g, current));
    if v != s {
      forall k | k in v.base.entries ensures Explained(start, v.computed, k, v.base.entries[k]) {
        ExplainedGrows(start, s.computed, v.computed, k, v.base.entries[k]);
      }
      forall u, k | u in v.txs && k in v.txs[u].writes ensures Explained(start, v.computed, k, v.txs[u].writes[k]) {
        if k in s.txs[u].writes && v.txs[u].writes[k] == s.txs[u].writes[k] {
          ExplainedGrows(start, s.computed, v.computed, k, s.txs[u].writes[k]);
        }
      }
    }
  }

  lemma WriteExplains(start: map<Key, Entry>, s: Sys, t: nat)
    requires AllExplained(start, s)
    ensures AllExplained(start, Fire(s, WriteProgress(t)))
  {
    var v := Fire(s, WriteProgress(t));
    if v != s {
      var h := s.txs[t].hand.value;
      assert (KeyOf(h.goal), h.computed, h.goal.threshold) in s.computed;
      assert WasComputed(s.computed, KeyOf(h.goal), h.computed);
    }
  }

  lemma UnlockExplains(start: map<Key, Entry>, s: Sys, t: nat, now: int)
    requires AllExplained(start, s)
    ensures AllExplained(start, Fire(s, TryUnlock(t, now)))
  {
    var v := Fire(s, TryUnlock(t, now));
    if v != s {
      var h := s.txs[t].hand.value;
      assert (KeyOf(h.goal), h.computed, h.goal.threshold) in s.computed;
      assert h.goal.threshold <= h.computed ==> WasReached(s.computed, KeyOf(h.goal));
    }
  }

  /** Under any interleaving: a stored progress is one that some pass computed for
      that goal, and a goal is unlocked only if some pass found its threshold
      reached. */
  lemma {:induction false} ProgressWasComputed(p: Progress, actions: seq<Action>)
    ensures AllExplained(p.entries, FireAll(Quiet(p), actions))
  {
    if actions != [] {
      ProgressWasComputed(p, actions[..|actions| - 1]);
      var s := FireAll(Quiet(p), actions[..|actions| - 1]);
      match actions[|actions| - 1]
      case Look(t, g, current) => LookExplains(p.entries, s, t, g, current);
      case WriteProgress(t) => WriteExplains(p.entries, s, t);
      case TryUnlock(t, now) => UnlockExplains(p.entries, s, t, now);
      case _ =>
    }
  }

  /** A pass that finishes its goal leaves on the row the progress it computed exactly
      when that differs from what it had read, or the row still has what it read:
      otherwise it skips the write and another pass's value stays. */
  lemma ProgressSticksIff(s: Sys, t: nat, now: int)
    requires t in s.txs && s.txs[t].hand.Some? && !s.txs[t].hand.value.written
    requires var k := KeyOf(s.txs[t].hand.value.goal); Sees(s, t, k) && !LockedByOther(s, t, k)
    ensures var h := s.txs[t].hand.value;
            var k := KeyOf(h.goal);
            var end := Fire(Fire(Fire(s, WriteProgress(t)), TryUnlock(t, now)), Commit(t));
            && t !in end.txs && k in end.base.entries
            && (end.base.entries[k].progress == h.computed <==> h.computed != h.read || Seen(s, t, k).progress == h.read)
  {
    var h := s.txs[t].hand.value;
    var k := KeyOf(h.goal);
    var s1 := Fire(s, WriteProgress(t));
    assert t in s1.txs && s1.txs[t].hand == Some(h.(written := true)) && Sees(s1, t, k);
    assert !LockedByOther(s1, t, k);
    assert Seen(s1, t, k).progress == if h.computed == h.read then Seen(s, t, k).progress else h.computed;
    var s2 := Fire(s1, TryUnlock(t, now));
    assert t in s2.txs && s2.txs[t].hand == None && Sees(s2, t, k) && Seen(s2, t, k).progress == Seen(s1, t, k).progress;
  }

  const FIVE := Achievement(1, OrdersCount, 5, 50, true)
  const ROW := Progress(map[AchievementKey(1) := NEW_ENTRY], 0, [])

  /** A pass that counted one order writes after a pass that counted two: the stored
      progress goes back to one until the next delivery. */
  lemma LateProgressGoesBack()
    ensures var both := Fire(Fire(Fire(Fire(Quiet(ROW), Begin(0)), Begin(1)), Look(0, FIVE, 1)), Look(1, FIVE, 2));
            var second := Fire(Fire(Fire(both, WriteProgress(1)), TryUnlock(1, 10)), Commit(1));
            var first := Fire(Fire(Fire(second, WriteProgress(0)), TryUnlock(0, 11)), Commit(0));
            && second.base.entries == map[AchievementKey(1) := NEW_ENTRY.(progress := 2)]
            && first.base.entries == map[AchievementKey(1) := NEW_ENTRY.(progress := 1)]
  {
    var k := AchievementKey(1);
    var idle := Tx(None, map[], []);
    var both := Fire(Fire(Fire(Fire(Quiet(ROW), Begin(0)), Begin(1)), Look(0, FIVE, 1)), Look(1, FIVE, 2));
    assert both.txs == map[0 := Tx(Some(Hand(FIVE, 0, 1, false)), map[], []), 1 := Tx(Some(Hand(FIVE, 0, 2, false)), map[], [])];
    OneFinishes(both, 1, 0, 2, 10, NEW_ENTRY);
    var second := Fire(Fire(Fire(both, WriteProgress(1)), TryUnlock(1, 10)), Commit(1));
    OneFinishes(second, 0, 1, 1, 11, NEW_ENTRY.(progress := 2));
  }

  lemma OneFinishes(s: Sys, t: nat, u: nat, computed: nat, now: int, before: Entry)
    requires t != u && t in s.txs && s.txs[t] == Tx(Some(Hand(FIVE, 0, computed, false)), map[], []) && 0 < computed < 5
    requires s.base.entries == map[AchievementKey(1) := before]
    requires s.txs.Keys <= {t, u} && (u in s.txs ==> s.txs[u].writes == map[])
    ensures var end := Fire(Fire(Fire(s, WriteProgress(t)), TryUnlock(t, now)), Commit(t));
            && end.base.entries == map[AchievementKey(1) := before.(progress := computed)]
            && end.txs == s.txs - {t}
  {
    var k := AchievementKey(1);
    assert !LockedByOther(s, t, k);
    var s1 := Fire(s, WriteProgress(t));
    assert s1.txs == s.txs[t := Tx(Some(Hand(FIVE, 0, computed, true)), map[k := before.(progress := computed)], [])];
    var s2 := Fire(s1, TryUnlock(t, now));
    assert s2.txs[t] == Tx(None, map[k := before.(progress := computed)], []);
  }

  /** A pass that aborts is forgotten; one already running is not begun again. */
  lemma BeginAndAbort(s: Sys, t: nat)
    ensures Fire(s, Abort(t)) == s.(txs := s.txs - {t})
    ensures t in s.txs ==> Fire(s, Begin(t)) == s
  {
    assert t !in s.txs ==> s.txs - {t} == s.txs;
  }

  // ----------------------------------------------------------- a pass nobody crosses

  /** The statements of a pass over some goals, with the statistic each finds. */
  function Statements(t: nat, goals: seq<Goal>, orders: seq<Order>, now: int): seq<Action> {
    if goals == [] then []
    else
      var n := |goals| - 1;
      Statements(t, goals[..n], orders, now)
      + if Open(goals[n], now) then [Look(t, goals[n], Statistic(orders, goals[n], now)), WriteProgress(t), TryUnlock(t, now)] else []
  }

  /** One transaction alone, between two goals: what it would commit is `p`. */
  predicate Between(s: Sys, t: nat, base: Progress, p: Progress) {
    t in s.txs && s.txs == map[t := s.txs[t]] && s.base == base && s.txs[t].hand == None && Committed(base, s.txs[t]) == p
  }

  lemma OneGoalAlone(s: Sys, t: nat, base: Progress, p: Progress, g: Goal, orders: seq<Order>, now: int)
    requires Between(s, t, base, p) && Open(g, now)
    ensures Between(Fire(Fire(Fire(s, Look(t, g, Statistic(orders, g, now))), WriteProgress(t)), TryUnlock(t, now)), t, base, Assess(p, g, orders, now))
  {
    WrittenAlone(s, t, base, p, g, orders, now);
    UnlockAlone(Fire(Fire(s, Look(t, g, Statistic(orders, g, now))), WriteProgress(t)), t, base, p, s.txs[t].credits, g, orders, now);
  }

  /** What the last statement on a goal leaves. */
  lemma UnlockAlone(u: Sys, t: nat, base: Progress, p: Progress, credits: seq<Credit>, g: Goal, orders: seq<Order>, now: int)
    requires t in u.txs && u.txs == map[t := u.txs[t]] && u.base == base && Open(g, now) && u.txs[t].hand.Some?
    requires var tx, k, progress := u.txs[t], KeyOf(g), Min(Statistic(orders, g, now), g.threshold);
             && tx.hand.value.goal == g && tx.hand.value.computed == progress && tx.hand.value.written && tx.credits == credits
             && Sees(u, t, k) && Seen(u, t, k) == EntryFor(p, k).(progress := progress)
             && base.entries + tx.writes == p.entries[k := EntryFor(p, k).(progress := progress)]
    requires p.credits == base.credits + credits && p.earned == base.earned + SumOf(credits)
    ensures Between(Fire(u, TryUnlock(t, now)), t, base, Assess(p, g, orders, now))
  {
    var entry := EntryFor(p, KeyOf(g)).(progress := Min(Statistic(orders, g, now), g.threshold));
    UnlockStep(u, t, g, entry, now);
    AfterIsAssess(base, p, u.txs[t], g, entry, orders, now);
  }

  lemma AfterIsAssess(base: Progress, p: Progress, tx: Tx, g: Goal, entry: Entry, orders: seq<Order>, now: int)
    requires Open(g, now) && entry == EntryFor(p, KeyOf(g)).(progress := Min(Statistic(orders, g, now), g.threshold))
    requires base.entries + tx.writes == p.entries[KeyOf(g) := entry]
    requires p.credits == base.credits + tx.credits && p.earned == base.earned + SumOf(tx.credits)
    ensures Committed(base, TxAfterUnlock(tx, g, entry, now)) == Assess(p, g, orders, now)
  {
    if entry.progress >= g.threshold && !entry.unlocked {
      UnlockWrites(base, p, tx, g, entry, entry.(unlocked := true, unlockedAt := Some(now), awarded := g.reward));
    }
  }

  function TxAfterUnlock(tx: Tx, g: Goal, entry: Entry, now: int): Tx {
    if entry.progress < g.threshold || entry.unlocked then tx.(hand := None)
    else Tx(None, tx.writes[KeyOf(g) := entry.(unlocked := true, unlockedAt := Some(now), awarded := g.reward)],
            if g.reward > 0 then tx.credits + [Credit(KeyOf(g), g.reward)] else tx.credits)
  }

  lemma UnlockStep(u: Sys, t: nat, g: Goal, entry: Entry, now: int)
    requires t in u.txs && u.txs == map[t := u.txs[t]] && u.txs[t].hand.Some? && u.txs[t].hand.value.written
    requires u.txs[t].hand.value.goal == g && u.txs[t].hand.value.computed == entry.progress
    requires Sees(u, t, KeyOf(g)) && Seen(u, t, KeyOf(g)) == entry
    ensures Fire(u, TryUnlock(t, now)) == u.(txs := map[t := TxAfterUnlock(u.txs[t], g, entry, now)])
  {
    assert !LockedByOther(u, t, KeyOf(g));
  }

  lemma UnlockWrites(base: Progress, p: Progress, tx: Tx, g: Goal, before: Entry, entry: Entry)
    requires p.credits == base.credits + tx.credits && p.earned == base.earned + SumOf(tx.credits)
    requires base.entries + tx.writes == p.entries[KeyOf(g) := before]
    ensures var k := KeyOf(g);
            Committed(base, Tx(None, tx.writes[k := entry], if g.reward > 0 then tx.credits + [Credit(k, g.reward)] else tx.credits))
            == Progress(p.entries[k := entry], p.earned + g.reward, if g.reward > 0 then p.credits + [Credit(k, g.reward)] else p.credits)
  {
    var k := KeyOf(g);
    var c := Credit(k, g.reward);
    CreditKeepsSum(tx.credits, c);
    assert base.credits + (tx.credits + [c]) == p.credits + [c];
    Overwrite(base.entries, tx.writes, p.entries, k, before, entry);
  }

  lemma Overwrite(base: map<Key, Entry>, writes: map<Key, Entry>, whole: map<Key, Entry>, k: Key, before: Entry, entry: Entry)
    requires base + writes == whole[k := before]
    ensures base + writes[k := entry] == whole[k := entry]
  {
    assert base + writes[k := entry] == (base + writes)[k := entry];
    assert whole[k := before][k := entry] == whole[k := entry];
  }

  /** After its first two statements: the row shows the capped statistic, and nothing
      else has moved. */
  lemma WrittenAlone(s: Sys, t: nat, base: Progress, p: Progress, g: Goal, orders: seq<Order>, now: int)
    requires Between(s, t, base, p) && Open(g, now)
    ensures var k, progress := KeyOf(g), Min(Statistic(orders, g, now), g.threshold);
            var u := Fire(Fire(s, Look(t, g, Statistic(orders, g, now))), WriteProgress(t));
            && t in u.txs && u.txs == map[t := u.txs[t]] && u.base == base
            && u.txs[t].hand.Some? && u.txs[t].hand.value.written
            && u.txs[t].hand.value.goal == g && u.txs[t].hand.value.computed == progress
            && u.txs[t].credits == s.txs[t].credits && Sees(u, t, k)
            && Seen(u, t, k) == EntryFor(p, k).(progress := progress)
            && base.entries + u.txs[t].writes == p.entries[k := EntryFor(p, k).(progress := progress)]
  {
    LookedAlone(s, t, base, p, g, orders, now);
    var looked := Fire(s, Look(t, g, Statistic(orders, g, now)));
    assert !LockedByOther(looked, t, KeyOf(g));
  }

  /** After the first: the pass has the row in sight, with what it computed in hand. */
  lemma LookedAlone(s: Sys, t: nat, base: Progress, p: Progress, g: Goal, orders: seq<Order>, now: int)
    requires Between(s, t, base, p) && Open(g, now)
    ensures var k, progress := KeyOf(g), Min(Statistic(orders, g, now), g.threshold);
            var u := Fire(s, Look(t, g, Statistic(orders, g, now)));
            && t in u.txs && u.txs == map[t := u.txs[t]] && u.base == base
            && u.txs[t].hand == Some(Hand(g, EntryFor(p, k).progress, progress, false))
            && u.txs[t].credits == s.txs[t].credits && Sees(u, t, k) && Seen(u, t, k) == EntryFor(p, k)
            && base.entries + u.txs[t].writes == p.entries[k := EntryFor(p, k)]
  {
    var k := KeyOf(g);
    assert p.entries == base.entries + s.txs[t].writes;
    assert Sees(s, t, k) <==> k in p.entries;
    assert Sees(s, t, k) ==> Seen(s, t, k) == p.entries[k];
    assert !LockedByOther(s, t, k);
  }

  lemma {:induction false} StatementsAlone(s: Sys, t: nat, goals: seq<Goal>, orders: seq<Order>, now: int)
    requires t in s.txs && s.txs == map[t := Tx(None, map[], [])]
    ensures Between(FireAll(s, Statements(t, goals, orders, now)), t, s.base, Pass(s.base, goals, orders, now))
  {
    if goals == [] {
      assert Committed(s.base, Tx(None, map[], [])) == s.base by {
        assert SumOf([]) == 0;
        assert s.base.credits + [] == s.base.credits && s.base.entries + map[] == s.base.entries;
      }
    } else {
      var n := |goals| - 1;
      StatementsAlone(s, t, goals[..n], orders, now);
      var before := Statements(t, goals[..n], orders, now);
      if Open(goals[n], now) {
        var look := Look(t, goals[n], Statistic(orders, goals[n], now));
        FireSplit(s, before, [look, WriteProgress(t), TryUnlock(t, now)]);
        FireThree(FireAll(s, before), look, WriteProgress(t), TryUnlock(t, now));
        OneGoalAlone(FireAll(s, before), t, s.base, Pass(s.base, goals[..n], orders, now), goals[n], orders, now);
      } else {
        assert before + [] == before;
      }
    }
  }

  lemma {:induction false} FireSplit(s: Sys, before: seq<Action>, more: seq<Action>)
    ensures FireAll(s, before + more) == FireAll(FireAll(s, before), more)
  {
    if more == [] {
      assert before + more == before;
    } else {
      assert (before + more)[..|before + more| - 1] == before + more[..|more| - 1];
      FireSplit(s, before, more[..|more| - 1]);
    }
  }

  lemma FireThree(s: Sys, a: Action, b: Action, c: Action)
    ensures FireAll(s, [a, b, c]) == Fire(Fire(Fire(s, a), b), c)
  {
    assert [a, b, c][..2] == [a, b] && [a, b][..1] == [a] && [a][..0] == [];
    assert FireAll(s, [a]) == Fire(s, a);
    assert FireAll(s, [a, b]) == Fire(FireAll(s, [a]), b);
  }

  /** A pass whose transaction nobody crosses commits what the pass computes. */
  lemma AloneIsThePass(p: Progress, t: nat, goals: seq<Goal>, orders: seq<Order>, now: int)
    ensures var acts := Statements(t, goals, orders, now);
            var begun := Fire(Quiet(p), Begin(t));
            var end := Fire(FireAll(begun, acts), Commit(t));
            end.base == Pass(p, goals, orders, now) && end.txs == map[]
  {
    StatementsAlone(Fire(Quiet(p), Begin(t)), t, goals, orders, now);
  }
}

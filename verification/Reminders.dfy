/** Reminders that a courier's papers are about to expire (apps/delivery/tasks.py).

    The table of reminders is a log with a unique constraint: a reminder already
    there is neither written nor sent again. */
module Reminders {
  import opened Wrappers
  import opened DeliveryStates
  import opened DeliveryWorld

  /** Days before the expiry, in the order the program lists them. */
  const THRESHOLDS: seq<nat> := [30, 7, 1, 0]

  const HORIZON: int := 30

  datatype Reminder = Reminder(courier: nat, piece: Piece, expiresOn: int, threshold: nat)

  /** One look at one paper on one day. */
  datatype Look = Look(today: int, courier: nat, piece: Piece, expiresOn: int)

  /** The smallest threshold the expiry has come under, if any. */
  method ReachedThreshold(expiresOn: int, today: int) returns (r: Option<nat>)
    ensures r == Reached(expiresOn - today)
  {
    r := None;
    for i := 0 to |THRESHOLDS|
      invariant r == if i > 0 && expiresOn - today <= 30
                     then Some(if i > 3 && expiresOn - today <= 0 then 0
                               else if i > 2 && expiresOn - today <= 1 then 1
                               else if i > 1 && expiresOn - today <= 7 then 7 else 30)
                     else None
    {
      if expiresOn - today <= THRESHOLDS[i] && (r == None || THRESHOLDS[i] < r.value) {
        r := Some(THRESHOLDS[i]);
      }
    }
  }

  function Reached(daysLeft: int): Option<nat> {
    if daysLeft <= 0 then Some(0)
    else if daysLeft <= 1 then Some(1)
    else if daysLeft <= 7 then Some(7)
    else if daysLeft <= 30 then Some(30)
    else None
  }

  /** It is a listed threshold, reached, and none smaller is; and it only gets
      smaller as days pass. */
  lemma ReachedMeaning(daysLeft: int)
    ensures match Reached(daysLeft)
            case None => forall t :: t in THRESHOLDS ==> t < daysLeft
            case Some(t) => t in THRESHOLDS && daysLeft <= t && forall u :: u in THRESHOLDS && daysLeft <= u ==> t <= u
    ensures forall later :: later <= daysLeft && Reached(daysLeft).Some? ==>
                              Reached(later).Some? && Reached(later).value <= Reached(daysLeft).value
  {
    assert THRESHOLDS[0] == 30 && THRESHOLDS[1] == 7 && THRESHOLDS[2] == 1 && THRESHOLDS[3] == 0;
  }

  function ReminderFor(l: Look): Reminder
    requires Reached(l.expiresOn - l.today).Some?
  {
    Reminder(l.courier, l.piece, l.expiresOn, Reached(l.expiresOn - l.today).value)
  }

  /** One insertion attempt; the unique constraint settles who sends. */
  function Record(log: seq<Reminder>, l: Look): seq<Reminder> {
    if Reached(l.expiresOn - l.today).None? || ReminderFor(l) in log then log else log + [ReminderFor(l)]
  }

  function RecordAll(log: seq<Reminder>, looks: seq<Look>): seq<Reminder> {
    if looks == [] then log else Record(RecordAll(log, looks[..|looks| - 1]), looks[|looks| - 1])
  }

  // --------------------------------------------------------- whatever the schedule

  ghost predicate NoneTwice(log: seq<Reminder>) {
    forall i, j :: 0 <= i < j < |log| ==> log[i] != log[j]
  }

  /** Whatever runs, repeats or runs side by side: no reminder is sent twice. */
  lemma {:induction false} NeverSentTwice(looks: seq<Look>)
    ensures NoneTwice(RecordAll([], looks))
  {
    if looks != [] {
      NeverSentTwice(looks[..|looks| - 1]);
      var before, after := RecordAll([], looks[..|looks| - 1]), RecordAll([], looks);
      assert forall i :: 0 <= i < |before| ==> before[i] in before;
      assert after == before || (after == before + [after[|before|]] && after[|before|] !in before);
    }
  }

  /** Every reminder in the log was due on the day of some look. */
  lemma {:induction false} LogComesFromLooks(looks: seq<Look>, r: Reminder) returns (k: nat)
    requires r in RecordAll([], looks)
    ensures k < |looks| && Reached(looks[k].expiresOn - looks[k].today).Some? && ReminderFor(looks[k]) == r
  {
    var n := |looks| - 1;
    if r in RecordAll([], looks[..n]) {
      k := LogComesFromLooks(looks[..n], r);
    } else {
      k := n;
    }
  }

  predicate DaysPass(looks: seq<Look>) {
    forall i, j :: 0 <= i < j < |looks| ==> looks[i].today <= looks[j].today
  }

  predicate SamePaper(a: Reminder, b: Reminder) {
    a.courier == b.courier && a.piece == b.piece && a.expiresOn == b.expiresOn
  }

  ghost predicate Falling(log: seq<Reminder>) {
    forall i, j :: 0 <= i < j < |log| && SamePaper(log[i], log[j]) ==> log[j].threshold < log[i].threshold
  }

  /** As long as days do not go back, whatever days are missed or repeated: for one
      paper and one expiry date the thresholds sent are strictly decreasing. */
  lemma {:induction false} ThresholdsFall(looks: seq<Look>)
    requires DaysPass(looks)
    ensures Falling(RecordAll([], looks))
  {
    if looks != [] {
      var n := |looks| - 1;
      ThresholdsFall(looks[..n]);
      var before, after := RecordAll([], looks[..n]), RecordAll([], looks);
      if after != before {
        var r := ReminderFor(looks[n]);
        forall i | 0 <= i < |before| && SamePaper(before[i], r) ensures r.threshold < before[i].threshold {
          assert before[i] in before;
          var k := LogComesFromLooks(looks[..n], before[i]);
          ReachedMeaning(looks[k].expiresOn - looks[k].today);
          assert looks[..n][k] == looks[k];
        }
      }
    }
  }

  /** A look out of its day, from a task still running past midnight, can send a
      larger threshold after a smaller one. */
  lemma LateTaskSendsOutOfOrder(courier: nat, piece: Piece, expiresOn: int)
    ensures var looks := [Look(expiresOn - 1, courier, piece, expiresOn), Look(expiresOn - 7, courier, piece, expiresOn)];
            && RecordAll([], looks) == [Reminder(courier, piece, expiresOn, 1), Reminder(courier, piece, expiresOn, 7)]
            && !Falling(RecordAll([], looks))
  {
    var looks := [Look(expiresOn - 1, courier, piece, expiresOn), Look(expiresOn - 7, courier, piece, expiresOn)];
    assert looks[..1] == [looks[0]] && looks[..1][..0] == [];
    assert RecordAll([], looks[..1]) == [Reminder(courier, piece, expiresOn, 1)];
    var log := RecordAll([], looks);
    assert SamePaper(log[0], log[1]);
  }

  predicate Due(l: Look) {
    Reached(l.expiresOn - l.today).Some?
  }

  lemma {:induction false} DueIsLogged(looks: seq<Look>, k: nat)
    requires k < |looks| && Due(looks[k])
    ensures ReminderFor(looks[k]) in RecordAll([], looks)
  {
    var n := |looks| - 1;
    if k < n {
      DueIsLogged(looks[..n], k);
    }
  }

  predicate Earlier(looks: seq<Look>, r: Reminder, k: nat) {
    exists j :: 0 <= j < k && j < |looks| && Due(looks[j]) && ReminderFor(looks[j]) == r
  }

  /** The look at `l` comes too late for the look at `k`: the same paper had already
      come under a smaller threshold, and had never been seen under this one. */
  predicate LooksBack(looks: seq<Look>, k: nat, l: nat)
    requires k < l < |looks|
  {
    && Due(looks[k]) && Due(looks[l])
    && SamePaper(ReminderFor(looks[k]), ReminderFor(looks[l]))
    && ReminderFor(looks[k]).threshold < ReminderFor(looks[l]).threshold
    && !Earlier(looks, ReminderFor(looks[l]), k)
  }

  ghost predicate NeverLooksBack(looks: seq<Look>) {
    forall k, l :: 0 <= k < l < |looks| ==> !LooksBack(looks, k, l)
  }

  lemma EarlierIsInPrefix(looks: seq<Look>, n: nat, r: Reminder, k: nat)
    requires k <= n <= |looks|
    ensures Earlier(looks[..n], r, k) <==> Earlier(looks, r, k)
  {
    if Earlier(looks, r, k) {
      var j :| 0 <= j < k && j < |looks| && Due(looks[j]) && ReminderFor(looks[j]) == r;
      assert looks[..n][j] == looks[j];
    }
    if Earlier(looks[..n], r, k) {
      var j :| 0 <= j < k && j < |looks[..n]| && Due(looks[..n][j]) && ReminderFor(looks[..n][j]) == r;
      assert looks[j] == looks[..n][j];
    }
  }

  lemma LooksBackInPrefix(looks: seq<Look>)
    requires looks != []
    ensures var n := |looks| - 1;
            NeverLooksBack(looks) <==> NeverLooksBack(looks[..n]) && !(exists k :: 0 <= k < n && LooksBack(looks, k, n))
  {
    var n := |looks| - 1;
    var shorter := looks[..n];
    forall k, l | 0 <= k < l < n ensures LooksBack(looks, k, l) <==> LooksBack(shorter, k, l) {
      assert shorter[k] == looks[k] && shorter[l] == looks[l];
      if Due(looks[l]) {
        EarlierIsInPrefix(looks, n, ReminderFor(looks[l]), k);
      }
    }
  }

  /** A reminder already in the log was first due at some look: nothing before that
      look was due for it. */
  lemma {:induction false} FirstDue(looks: seq<Look>, r: Reminder) returns (k: nat)
    requires r in RecordAll([], looks)
    ensures k < |looks| && Due(looks[k]) && ReminderFor(looks[k]) == r && !Earlier(looks, r, k)
  {
    var n := |looks| - 1;
    if r in RecordAll([], looks[..n]) {
      k := FirstDue(looks[..n], r);
      EarlierIsInPrefix(looks, n, r, k);
    } else {
      k := n;
      if Earlier(looks, r, n) {
        var j :| 0 <= j < n && j < |looks| && Due(looks[j]) && ReminderFor(looks[j]) == r;
        DueIsLogged(looks[..n], j);
      }
    }
  }

  /** The last look of a sequence that did not look back before does so exactly when
      it is logged under something smaller already logged. */
  lemma LastLooksBackIff(looks: seq<Look>)
    requires looks != [] && NeverLooksBack(looks[..|looks| - 1])
    ensures var n := |looks| - 1;
            (exists k :: 0 <= k < n && LooksBack(looks, k, n)) <==>
            && Due(looks[n]) && ReminderFor(looks[n]) !in RecordAll([], looks[..n])
            && exists b :: b in RecordAll([], looks[..n]) && SamePaper(b, ReminderFor(looks[n])) && b.threshold < ReminderFor(looks[n]).threshold
  {
    var n := |looks| - 1;
    var init := looks[..n];
    var log := RecordAll([], init);
    if k: nat :| k < n && LooksBack(looks, k, n) {
      var r := ReminderFor(looks[n]);
      DueIsLogged(init, k);
      assert ReminderFor(init[k]) in log;
      if r in log {
        var first := FirstDue(init, r);
        assert init[first] == looks[first];
        assert first < k ==> Earlier(looks, r, k);
        if k < first {
          EarlierIsInPrefix(looks, n, r, k);
          assert LooksBack(init, k, first);
        }
      }
    }
    if Due(looks[n]) && ReminderFor(looks[n]) !in log {
      var r := ReminderFor(looks[n]);
      if b :| b in log && SamePaper(b, r) && b.threshold < r.threshold {
        var k := LogComesFromLooks(init, b);
        assert init[k] == looks[k];
        if Earlier(looks, r, k) {
          var j :| 0 <= j < k && j < |looks| && Due(looks[j]) && ReminderFor(looks[j]) == r;
          DueIsLogged(init, j);
        }
        assert LooksBack(looks, k, n);
      }
    }
  }

  lemma FallingAppend(log: seq<Reminder>, r: Reminder)
    requires r !in log
    ensures Falling(log + [r]) <==> Falling(log) && !(exists b :: b in log && SamePaper(b, r) && b.threshold < r.threshold)
  {
    var after := log + [r];
    assert forall i :: 0 <= i < |log| ==> after[i] == log[i];
    if Falling(after) {
      forall b | b in log && SamePaper(b, r) ensures r.threshold < b.threshold {
        var i :| 0 <= i < |log| && log[i] == b;
        assert SamePaper(after[i], after[|log|]);
      }
      forall i, j | 0 <= i < j < |log| && SamePaper(log[i], log[j]) ensures log[j].threshold < log[i].threshold {
        assert after[i] == log[i] && after[j] == log[j];
      }
    }
    if Falling(log) && !(exists b :: b in log && SamePaper(b, r) && b.threshold < r.threshold) {
      forall i | 0 <= i < |log| && SamePaper(log[i], r) ensures r.threshold < log[i].threshold {
        assert log[i] in log && log[i] != r;
      }
    }
  }

  /** For any looks in any order: the thresholds sent for each paper and date are
      strictly decreasing exactly when no look comes back to a larger threshold never
      seen before the smaller one. */
  lemma {:induction false} ThresholdsFallIff(looks: seq<Look>)
    ensures Falling(RecordAll([], looks)) <==> NeverLooksBack(looks)
  {
    if looks != [] {
      var n := |looks| - 1;
      ThresholdsFallIff(looks[..n]);
      LooksBackInPrefix(looks);
      var log := RecordAll([], looks[..n]);
      if NeverLooksBack(looks[..n]) {
        LastLooksBackIff(looks);
      }
      if Due(looks[n]) && ReminderFor(looks[n]) !in log {
        FallingAppend(log, ReminderFor(looks[n]));
      }
    }
  }

  // -------------------------------------------------------------------- one run

  function Papers(): seq<Piece> {
    [Identity, Licence, Vehicle]
  }

  /** The rows a run loads: approved files with a paper inside the window. */
  predicate Concerned(c: Courier, today: int) {
    c.file == Approved && exists p :: p in c.expiries && c.expiries[p] <= today + HORIZON
  }

  predicate Told(log: seq<Reminder>, id: nat, c: Courier, today: int, p: Piece) {
    p in c.expiries && Reached(c.expiries[p] - today).Some? ==> ReminderFor(Look(today, id, p, c.expiries[p])) in log
  }

  /** A reminder that a run of this day may send: of an approved file, about one of its
      papers and its date, at most thirty days ahead, with the smallest threshold the
      days left have come under. */
  predicate Warranted(r: Reminder, couriers: map<nat, Courier>, today: int) {
    && r.courier in couriers && couriers[r.courier].file == Approved
    && r.piece in couriers[r.courier].expiries && couriers[r.courier].expiries[r.piece] == r.expiresOn
    && r.expiresOn <= today + 30
    && r.threshold == (if r.expiresOn <= today then 0 else if r.expiresOn <= today + 1 then 1 else if r.expiresOn <= today + 7 then 7 else 30)
  }

  class ReminderTask {
    var log: seq<Reminder>

    /** History: every look taken, in order. */
    ghost var looks: seq<Look>

    ghost predicate Valid()
      reads this
    {
      log == RecordAll([], looks)
    }

    constructor ()
      ensures Valid() && log == [] && looks == []
    {
      log, looks := [], [];
    }

    method Consign(l: Look) returns (sent: bool)
      requires Valid()
      modifies this
      ensures Valid() && looks == old(looks) + [l] && log == Record(old(log), l)
      ensures sent <==> |log| == |old(log)| + 1
      ensures !sent ==> log == old(log)
    {
      var threshold := ReachedThreshold(l.expiresOn, l.today);
      sent := threshold.Some? && Reminder(l.courier, l.piece, l.expiresOn, threshold.value) !in log;
      if sent {
        log := log + [Reminder(l.courier, l.piece, l.expiresOn, threshold.value)];
      }
      looks := looks + [l];
      assert looks[..|looks| - 1] == old(looks);
    }

    method RemindCourier(id: nat, c: Courier, today: int) returns (sent: nat)
      requires Valid()
      modifies this
      ensures Valid() && old(log) <= log && sent == |log| - |old(log)|
      ensures old(looks) <= looks && forall k :: |old(looks)| <= k < |looks| ==> looks[k].today == today
      ensures forall p :: Told(log, id, c, today, p)
      ensures c.file == Approved ==> forall r :: r in log && r !in old(log) ==> Warranted(r, map[id := c], today)
    {
      sent := 0;
      for i := 0 to |Papers()|
        invariant Valid() && old(log) <= log && sent == |log| - |old(log)|
        invariant old(looks) <= looks && forall k :: |old(looks)| <= k < |looks| ==> looks[k].today == today
        invariant forall j :: 0 <= j < i ==> Told(log, id, c, today, Papers()[j])
        invariant c.file == Approved ==> forall r :: r in log && r !in old(log) ==> Warranted(r, map[id := c], today)
      {
        var p := Papers()[i];
        if p in c.expiries {
          var isNew := Consign(Look(today, id, p, c.expiries[p]));
          sent := sent + if isNew then 1 else 0;
        }
      }
      forall p ensures Told(log, id, c, today, p) {
        assert p == Papers()[0] || p == Papers()[1] || p == Papers()[2];
      }
    }

    /** One run: afterwards the smallest threshold reached that day by any paper of
        any approved file is in the log, and what was new was counted once. */
    method RemindDocumentExpiry(couriers: map<nat, Courier>, today: int) returns (sent: nat)
      requires Valid()
      modifies this
      ensures Valid() && old(log) <= log && sent == |log| - |old(log)|
      ensures old(looks) <= looks && forall k :: |old(looks)| <= k < |looks| ==> looks[k].today == today
      ensures old(DaysPass(looks) && forall k :: 0 <= k < |looks| ==> looks[k].today <= today) ==> DaysPass(looks) && Falling(log)
      ensures forall id, p :: id in couriers && couriers[id].file == Approved ==> Told(log, id, couriers[id], today, p)
      ensures forall r :: r in log && r !in old(log) ==> Warranted(r, couriers, today)
    {
      sent := 0;
      var todo := set id | id in couriers && Concerned(couriers[id], today);
      while todo != {}
        invariant Valid() && old(log) <= log && sent == |log| - |old(log)|
        invariant old(looks) <= looks && forall k :: |old(looks)| <= k < |looks| ==> looks[k].today == today
        invariant forall id :: id in todo ==> id in couriers
        invariant forall id :: id in todo ==> couriers[id].file == Approved
        invariant forall id, p :: id in couriers && couriers[id].file == Approved && id !in todo ==> Told(log, id, couriers[id], today, p)
        invariant forall r :: r in log && r !in old(log) ==> Warranted(r, couriers, today)
        decreases todo
      {
        var id :| id in todo;
        ghost var before := log;
        var more := RemindCourier(id, couriers[id], today);
        assert forall r :: r in before ==> r in log;
        forall other, p | other in couriers && couriers[other].file == Approved && other !in todo
          ensures Told(log, other, couriers[other], today, p)
        {
          assert Told(before, other, couriers[other], today, p);
        }
        sent := sent + more;
        todo := todo - {id};
      }
      if DaysPass(looks) {
        ThresholdsFall(looks);
      }
    }
  }
}

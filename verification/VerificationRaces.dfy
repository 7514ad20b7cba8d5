/** Verification calls side by side (apps/accounts/services.py): `issue` reads, then
    closes what it sees, then creates and commits, with no lock but those of the
    rows it closes. */
module VerificationRaces {
  import opened Wrappers
  import opened VerificationCodes

  /** An `issue` in course. It found no recent code; its update began, over the rows
      committed by then (`seen` of them, `candidates` active); it got past the locks
      and holds locked those that were still active. */
  datatype Tx =
    | Looked(user: nat, purpose: nat, now: int)
    | Updating(user: nat, purpose: nat, now: int, seen: nat, candidates: set<nat>)
    | Closing(user: nat, purpose: nat, now: int, seen: nat, locked: set<nat>)

  datatype Sys = Sys(store: Store, txs: map<nat, Tx>)

  datatype Action =
    | Look(tx: nat, user: nat, purpose: nat, now: int)
    | StartUpdate(tx: nat)
    | Lock(tx: nat)
    | Create(tx: nat, secret: string, created: int)
    | Abort(tx: nat)
    | Present(user: nat, purpose: nat, code: string, now: int, raises: bool)

  predicate Locked(s: Sys, row: nat) {
    exists t :: t in s.txs && s.txs[t].Closing? && row in s.txs[t].locked
  }

  function ActiveRows(codes: seq<Code>, user: nat, purpose: nat): set<nat> {
    set i | 0 <= i < |codes| && Active(codes[i], user, purpose)
  }

  /** The update's snapshot is that of its start. While a candidate is locked by
      another transaction it waits; then it judges its candidates again, and only
      them: rows committed during the wait stay out of its sight. A code presented
      against a row being closed comes back empty-handed. */
  function Fire(s: Sys, a: Action, c: Settings): Sys {
    match a
    case Look(t, user, purpose, now) =>
      if t in s.txs || Newest(s.store.codes, (k: Code) => Recent(k, user, purpose, now, c)).Some? then s
      else s.(txs := s.txs[t := Looked(user, purpose, now)])
    case StartUpdate(t) =>
      if t !in s.txs || !s.txs[t].Looked? then s
      else
        var x := s.txs[t];
        s.(txs := s.txs[t := Updating(x.user, x.purpose, x.now, |s.store.codes|, ActiveRows(s.store.codes, x.user, x.purpose))])
    case Lock(t) =>
      if t !in s.txs || !s.txs[t].Updating? || (exists i :: i in s.txs[t].candidates && Locked(s, i)) then s
      else
        var x := s.txs[t];
        s.(txs := s.txs[t := Closing(x.user, x.purpose, x.now, x.seen, x.candidates * ActiveRows(s.store.codes, x.user, x.purpose))])
    case Create(t, secret, created) =>
      if t !in s.txs || !s.txs[t].Closing? || |s.store.codes| < s.txs[t].seen then s
      else Sys(Replace(s.store, s.txs[t].seen, s.txs[t].user, s.txs[t].purpose, secret, s.txs[t].now, created, c), s.txs - {t})
    case Abort(t) => s.(txs := s.txs - {t})
    case Present(user, purpose, code, now, raises) =>
      match Newest(s.store.codes, (k: Code) => Presentable(k, user, purpose, now))
      case None => s
      case Some(i) => if Locked(s, i) then s else s.(store := Consume(s.store, user, purpose, code, now, raises, c).0)
  }

  /** The first `n` actions, from any codes committed before. */
  function After(start: Store, actions: seq<Action>, n: nat, c: Settings): Sys
    requires n <= |actions|
  {
    if n == 0 then Sys(start, map[]) else Fire(After(start, actions, n - 1, c), actions[n - 1], c)
  }

  // ----------------------------------------------------- what no interleaving breaks

  /** Everything but the uniqueness of the active code. */
  ghost predicate Accounted(st: Store, c: Settings) {
    && (forall i :: 0 <= i < |st.codes| ==> Coherent(st.codes[i], c))
    && (forall k :: 0 <= k < |st.successes| ==> st.successes[k] < |st.codes|)
    && (forall i :: 0 <= i < |st.codes| ==> (i in st.successes <==> st.codes[i].ending == Some(Succeeded)))
    && (forall k, l :: 0 <= k < l < |st.successes| ==> st.successes[k] != st.successes[l])
  }

  lemma ReplaceAccounted(st: Store, seen: nat, user: nat, purpose: nat, secret: string, now: int, created: int, c: Settings)
    requires Accounted(st, c) && 1 <= c.maxAttempts && seen <= |st.codes|
    ensures Accounted(Replace(st, seen, user, purpose, secret, now, created, c), c)
  {
    var v := Replace(st, seen, user, purpose, secret, now, created, c);
    forall i | 0 <= i < |v.codes| ensures Coherent(v.codes[i], c) && (i in v.successes <==> v.codes[i].ending == Some(Succeeded)) {
      if i < |st.codes| { assert Coherent(st.codes[i], c); }
    }
  }

  lemma MissAccounted(st: Store, i: nat, now: int, c: Settings)
    requires Accounted(st, c) && 1 <= c.maxAttempts && i < |st.codes| && st.codes[i].consumedAt == None
    ensures Accounted(st.(codes := st.codes[i := Missed(st.codes[i], now, c)]), c)
  {
    var v := st.(codes := st.codes[i := Missed(st.codes[i], now, c)]);
    assert Coherent(st.codes[i], c) && i !in st.successes;
    forall j | 0 <= j < |v.codes| ensures Coherent(v.codes[j], c) && (j in v.successes <==> v.codes[j].ending == Some(Succeeded)) {
      assert Coherent(st.codes[j], c);
    }
  }

  lemma HitAccounted(st: Store, i: nat, now: int, c: Settings)
    requires Accounted(st, c) && i < |st.codes| && st.codes[i].consumedAt == None
    ensures Accounted(Store(st.codes[i := st.codes[i].(consumedAt := Some(now), ending := Some(Succeeded))], st.successes + [i]), c)
  {
    var v := Store(st.codes[i := st.codes[i].(consumedAt := Some(now), ending := Some(Succeeded))], st.successes + [i]);
    assert Coherent(st.codes[i], c) && i !in st.successes;
    forall j | 0 <= j < |v.codes| ensures Coherent(v.codes[j], c) && (j in v.successes <==> v.codes[j].ending == Some(Succeeded)) {
      assert Coherent(st.codes[j], c);
      assert j in v.successes <==> j in st.successes || j == i;
    }
  }

  lemma ConsumeAccounted(st: Store, user: nat, purpose: nat, code: string, now: int, raises: bool, c: Settings)
    requires Accounted(st, c) && 1 <= c.maxAttempts
    ensures Accounted(Consume(st, user, purpose, code, now, raises, c).0, c)
  {
    match Newest(st.codes, (k: Code) => Presentable(k, user, purpose, now))
    case None =>
    case Some(i) =>
      if st.codes[i].secret != code {
        MissAccounted(st, i, now, c);
      } else if !raises {
        HitAccounted(st, i, now, c);
      }
  }

  lemma FireAccounted(s: Sys, a: Action, c: Settings)
    requires Accounted(s.store, c) && 1 <= c.maxAttempts
    ensures Accounted(Fire(s, a, c).store, c)
  {
    match a
    case Create(t, secret, created) =>
      if t in s.txs && s.txs[t].Closing? && s.txs[t].seen <= |s.store.codes| {
        ReplaceAccounted(s.store, s.txs[t].seen, s.txs[t].user, s.txs[t].purpose, secret, s.txs[t].now, created, c);
      }
    case Present(user, purpose, code, now, raises) => ConsumeAccounted(s.store, user, purpose, code, now, raises, c);
    case _ =>
  }

  /** Under any interleaving a code tells its whole story and succeeds at most once. */
  lemma {:induction false} AnyInterleavingIsAccounted(start: Store, actions: seq<Action>, n: nat, c: Settings)
    requires Accounted(start, c) && 1 <= c.maxAttempts && n <= |actions|
    ensures Accounted(After(start, actions, n, c).store, c)
  {
    if n > 0 {
      AnyInterleavingIsAccounted(start, actions, n - 1, c);
      FireAccounted(After(start, actions, n - 1, c), actions[n - 1], c);
    }
  }

  lemma FireEvolves(s: Sys, a: Action, c: Settings)
    ensures |s.store.codes| <= |Fire(s, a, c).store.codes|
    ensures forall i :: 0 <= i < |s.store.codes| ==> Evolves(s.store.codes[i], Fire(s, a, c).store.codes[i])
  {
    if a.Present? {
      StepEvolves(s.store, DoConsume(a.user, a.purpose, a.code, a.now, a.raises), c);
    }
  }

  predicate ClosedAt(start: Store, actions: seq<Action>, n: nat, i: nat, c: Settings)
    requires n <= |actions|
  {
    i < |After(start, actions, n, c).store.codes| && After(start, actions, n, c).store.codes[i].consumedAt.Some?
  }

  lemma {:induction false} ClosedStays(start: Store, actions: seq<Action>, m: nat, n: nat, i: nat, c: Settings)
    requires m <= n <= |actions| && ClosedAt(start, actions, m, i, c)
    ensures ClosedAt(start, actions, n, i, c)
  {
    if m < n {
      ClosedStays(start, actions, m, n - 1, i, c);
      FireEvolves(After(start, actions, n - 1, c), actions[n - 1], c);
      assert Evolves(After(start, actions, n - 1, c).store.codes[i], After(start, actions, n, c).store.codes[i]);
    }
  }

  /** What the `k`-th action answers, when it presents a code: one whose row is being
      closed is refused. */
  function Answer(start: Store, actions: seq<Action>, k: nat, c: Settings): Option<Outcome>
    requires k < |actions|
  {
    var s, a := After(start, actions, k, c), actions[k];
    if !a.Present? then None
    else match Newest(s.store.codes, (x: Code) => Presentable(x, a.user, a.purpose, a.now))
      case None => Some(Rejected)
      case Some(i) => Some(if Locked(s, i) then Rejected else Consume(s.store, a.user, a.purpose, a.code, a.now, a.raises, c).1)
  }

  /** What is accepted is closed in the state that follows. */
  lemma AcceptedIsClosed(start: Store, actions: seq<Action>, k: nat, i: nat, c: Settings)
    requires k < |actions| && Answer(start, actions, k, c) == Some(Accepted(i))
    ensures ClosedAt(start, actions, k + 1, i, c)
  {
    var s, a := After(start, actions, k, c), actions[k];
    AcceptedIsConsumed(s.store, a.user, a.purpose, a.code, a.now, a.raises, c);
  }

  /** Under any interleaving of requests and presentations, no two presentations are
      answered by one code. */
  lemma AcceptedOnceUnderInterleaving(start: Store, actions: seq<Action>, k: nat, l: nat, i: nat, c: Settings)
    requires k < l < |actions| && Answer(start, actions, k, c) == Some(Accepted(i))
    ensures Answer(start, actions, l, c) != Some(Accepted(i))
  {
    AcceptedIsClosed(start, actions, k, i, c);
    ClosedStays(start, actions, k + 1, l, i, c);
    ClosedIsRefused(start, actions, l, i, c);
  }

  lemma ClosedIsRefused(start: Store, actions: seq<Action>, l: nat, i: nat, c: Settings)
    requires l < |actions| && ClosedAt(start, actions, l, i, c)
    ensures Answer(start, actions, l, c) != Some(Accepted(i))
  {
    var s, a := After(start, actions, l, c), actions[l];
    if a.Present? {
      AcceptedIsConsumed(s.store, a.user, a.purpose, a.code, a.now, a.raises, c);
    }
  }

  /** A presentation is the call, unless the code it would be judged by is one that some
      `issue` is closing at that moment: then it is refused and nothing moves. */
  lemma PresentMeaning(s: Sys, user: nat, purpose: nat, code: string, now: int, raises: bool, i: nat, c: Settings)
    requires Newest(s.store.codes, (k: Code) => Presentable(k, user, purpose, now)) == Some(i)
    ensures var after := Fire(s, Present(user, purpose, code, now, raises), c);
            && after.txs == s.txs
            && after.store == if exists t :: t in s.txs && s.txs[t].Closing? && i in s.txs[t].locked then s.store
                              else Consume(s.store, user, purpose, code, now, raises, c).0
    ensures Answer(s.store, [Present(user, purpose, code, now, raises)], 0, c) == Some(Consume(s.store, user, purpose, code, now, raises, c).1)
  {
  }

  lemma FireTwo(s: Sys, t: nat, c: Settings)
    requires t in s.txs && s.txs[t].Looked? && forall row :: !Locked(s, row)
    ensures var x := s.txs[t];
            Fire(Fire(s, StartUpdate(t), c), Lock(t), c).store == s.store
            && t in Fire(Fire(s, StartUpdate(t), c), Lock(t), c).txs
            && Fire(Fire(s, StartUpdate(t), c), Lock(t), c).txs[t]
               == Closing(x.user, x.purpose, x.now, |s.store.codes|, ActiveRows(s.store.codes, x.user, x.purpose))
  {
    var active := ActiveRows(s.store.codes, s.txs[t].user, s.txs[t].purpose);
    var u := Fire(s, StartUpdate(t), c);
    assert forall o :: o in u.txs && u.txs[o].Closing? ==> o in s.txs && s.txs[o] == u.txs[o];
    assert forall row :: Locked(u, row) ==> Locked(s, row);
    assert active * active == active;
  }

  /** The steps of an `issue` that nobody crosses are the call. */
  lemma PromptIssueIsIssue(s: Sys, t: nat, user: nat, purpose: nat, secret: string, now: int, created: int, c: Settings)
    requires t !in s.txs && forall row :: !Locked(s, row)
    ensures var looked := Fire(s, Look(t, user, purpose, now), c);
            Fire(Fire(Fire(looked, StartUpdate(t), c), Lock(t), c), Create(t, secret, created), c).store
            == Issue(s.store, user, purpose, secret, now, created, c).0
  {
    var looked := Fire(s, Look(t, user, purpose, now), c);
    if t in looked.txs {
      assert forall o :: o in looked.txs && looked.txs[o].Closing? ==> o in s.txs && s.txs[o] == looked.txs[o];
      assert forall row :: Locked(looked, row) ==> Locked(s, row);
      FireTwo(looked, t, c);
    }
  }

  // ------------------------------------------------------------ one code in force

  /** The guard of the one step that can leave two codes in force. */
  predicate NothingCameBetween(s: Sys, a: Action, user: nat, purpose: nat) {
    a.Create? && a.tx in s.txs && s.txs[a.tx].Closing? && s.txs[a.tx].user == user && s.txs[a.tx].purpose == purpose ==>
      forall i :: s.txs[a.tx].seen <= i < |s.store.codes| ==> !Active(s.store.codes[i], user, purpose)
  }

  lemma CreateKeepsOneIff(s: Sys, a: Action, user: nat, purpose: nat, c: Settings)
    requires a.Create? && a.tx in s.txs && s.txs[a.tx].Closing? && s.txs[a.tx].seen <= |s.store.codes|
    requires OneActive(s.store.codes, user, purpose)
    ensures OneActive(Fire(s, a, c).store.codes, user, purpose) <==> NothingCameBetween(s, a, user, purpose)
  {
    var x, v := s.txs[a.tx], Fire(s, a, c);
    if x.user == user && x.purpose == purpose {
      IssueKeepsOneIffNothingCameBetween(s.store, x.seen, user, purpose, a.secret, x.now, a.created, c);
    } else {
      OneActiveShrinks(s.store.codes, v.store.codes, user, purpose);
    }
  }

  /** Fewer active rows, in the same places. */
  lemma OneActiveShrinks(before: seq<Code>, after: seq<Code>, user: nat, purpose: nat)
    requires OneActive(before, user, purpose)
    requires forall i :: 0 <= i < |after| && Active(after[i], user, purpose) ==> i < |before| && Active(before[i], user, purpose)
    ensures OneActive(after, user, purpose)
  {
  }

  lemma FireKeepsOneIff(s: Sys, a: Action, user: nat, purpose: nat, c: Settings)
    requires OneActive(s.store.codes, user, purpose) && SeenIsThere(s)
    ensures OneActive(Fire(s, a, c).store.codes, user, purpose) <==> NothingCameBetween(s, a, user, purpose)
  {
    match a
    case Create(t, secret, created) =>
      if t in s.txs && s.txs[t].Closing? {
        CreateKeepsOneIff(s, a, user, purpose, c);
      }
    case Present(u, p, code, now, raises) => OneActiveShrinks(s.store.codes, Fire(s, a, c).store.codes, user, purpose);
    case _ =>
  }

  ghost predicate SeenIsThere(s: Sys) {
    forall t :: t in s.txs && (s.txs[t].Updating? || s.txs[t].Closing?) ==> s.txs[t].seen <= |s.store.codes|
  }

  lemma {:induction false} SeenWasThere(start: Store, actions: seq<Action>, n: nat, c: Settings)
    requires n <= |actions|
    ensures SeenIsThere(After(start, actions, n, c))
  {
    if n > 0 {
      SeenWasThere(start, actions, n - 1, c);
      FireKeepsSeen(After(start, actions, n - 1, c), actions[n - 1], c);
    }
  }

  lemma FireKeepsSeen(s: Sys, a: Action, c: Settings)
    requires SeenIsThere(s)
    ensures SeenIsThere(Fire(s, a, c))
  {
  }

  /** At most one code in force before and after each of the first `n` actions. */
  ghost predicate AlwaysOne(start: Store, actions: seq<Action>, n: nat, user: nat, purpose: nat, c: Settings)
    requires n <= |actions|
  {
    OneActive(After(start, actions, n, c).store.codes, user, purpose) && (n > 0 ==> AlwaysOne(start, actions, n - 1, user, purpose, c))
  }

  /** None of the first `n` actions committed over a code it had not seen. */
  ghost predicate NoneBetween(start: Store, actions: seq<Action>, n: nat, user: nat, purpose: nat, c: Settings)
    requires n <= |actions|
  {
    n > 0 ==>
      NoneBetween(start, actions, n - 1, user, purpose, c)
      && NothingCameBetween(After(start, actions, n - 1, c), actions[n - 1], user, purpose)
  }

  lemma NextOneIff(start: Store, actions: seq<Action>, n: nat, user: nat, purpose: nat, c: Settings)
    requires 0 < n <= |actions| && AlwaysOne(start, actions, n - 1, user, purpose, c)
    ensures OneActive(After(start, actions, n, c).store.codes, user, purpose) <==>
            NothingCameBetween(After(start, actions, n - 1, c), actions[n - 1], user, purpose)
  {
    SeenWasThere(start, actions, n - 1, c);
    FireKeepsOneIff(After(start, actions, n - 1, c), actions[n - 1], user, purpose, c);
  }

  /** Over any interleaving, a user has at most one code in force for a purpose after
      every step exactly when no `issue` commits over a code that another one
      committed since its update began, waiting for a lock included. */
  lemma {:induction false} OneCodeIffIssuesDoNotCross(start: Store, actions: seq<Action>, n: nat, user: nat, purpose: nat, c: Settings)
    requires OneActive(start.codes, user, purpose) && n <= |actions|
    ensures AlwaysOne(start, actions, n, user, purpose, c) <==> NoneBetween(start, actions, n, user, purpose, c)
  {
    if n > 0 {
      OneCodeIffIssuesDoNotCross(start, actions, n - 1, user, purpose, c);
      if AlwaysOne(start, actions, n - 1, user, purpose, c) {
        NextOneIff(start, actions, n, user, purpose, c);
      }
    }
  }

  // ----------------------------------------------------------------- two crossings

  const EMPTY := Store([], [])
  const WRITE_FIRST := Create(0, "111111", 11)
  const WRITE_SECOND := Create(1, "222222", 12)

  /** Two requests of one user, both past their reading and their update before
      either has created its code. */
  const CROSSING := [Look(0, 1, 2, 10), Look(1, 1, 2, 10), StartUpdate(0), Lock(0), StartUpdate(1), Lock(1), WRITE_FIRST, WRITE_SECOND]

  lemma TwoIssuesLeaveTwoCodes(c: Settings)
    ensures var codes := After(EMPTY, CROSSING, 8, c).store.codes;
            |codes| == 2 && Active(codes[0], 1, 2) && Active(codes[1], 1, 2) && !OneActive(codes, 1, 2)
  {
    var looked := Looked(1, 2, 10);
    var holding := Closing(1, 2, 10, 0, {});
    var none: set<nat> := {};
    assert ActiveRows(EMPTY.codes, 1, 2) == none && none * none == none;
    assert After(EMPTY, CROSSING, 0, c) == Sys(EMPTY, map[]);
    assert After(EMPTY, CROSSING, 1, c) == Sys(EMPTY, map[0 := looked]);
    assert After(EMPTY, CROSSING, 2, c) == Sys(EMPTY, map[0 := looked, 1 := looked]);
    assert After(EMPTY, CROSSING, 3, c) == Sys(EMPTY, map[0 := Updating(1, 2, 10, 0, {}), 1 := looked]);
    assert After(EMPTY, CROSSING, 4, c) == Sys(EMPTY, map[0 := holding, 1 := looked]);
    assert After(EMPTY, CROSSING, 5, c) == Sys(EMPTY, map[0 := holding, 1 := Updating(1, 2, 10, 0, {})]);
    assert After(EMPTY, CROSSING, 6, c) == Sys(EMPTY, map[0 := holding, 1 := holding]);
    BothCreate(After(EMPTY, CROSSING, 6, c), c);
    assert After(EMPTY, CROSSING, 7, c) == Fire(After(EMPTY, CROSSING, 6, c), CROSSING[6], c);
  }

  lemma BothCreate(s: Sys, c: Settings)
    requires s == Sys(EMPTY, map[0 := Closing(1, 2, 10, 0, {}), 1 := Closing(1, 2, 10, 0, {})])
    ensures var codes := Fire(Fire(s, WRITE_FIRST, c), WRITE_SECOND, c).store.codes;
            |codes| == 2 && Active(codes[0], 1, 2) && Active(codes[1], 1, 2) && !OneActive(codes, 1, 2)
  {
    var s1 := Fire(s, WRITE_FIRST, c);
    assert |s1.store.codes| == 1 && Active(s1.store.codes[0], 1, 2);
    var codes := Fire(s1, WRITE_SECOND, c).store.codes;
    assert |codes| == 2 && codes[0] == s1.store.codes[0];
  }

  /** An old code, never used, and past its cooldown at instant 10. */
  function OldCode(c: Settings): Code {
    Code(1, 2, "000000", 10 - c.cooldown * SECOND, 1000, 0, None, None)
  }

  /** The second update waits for the old code's row; when it gets past, that row is
      closed and the first one's new row was never among its candidates. */
  const WAITING := [Look(0, 1, 2, 10), Look(1, 1, 2, 10), StartUpdate(0), Lock(0), StartUpdate(1), Lock(1), WRITE_FIRST, Lock(1), WRITE_SECOND]

  function SecondWaits(c: Settings): Sys {
    Sys(Store([OldCode(c)], []), map[0 := Closing(1, 2, 10, 1, {0}), 1 := Updating(1, 2, 10, 1, {0})])
  }

  lemma BothHaveLooked(c: Settings)
    ensures After(Store([OldCode(c)], []), WAITING, 2, c) == Sys(Store([OldCode(c)], []), map[0 := Looked(1, 2, 10), 1 := Looked(1, 2, 10)])
  {
    var start, looked := Store([OldCode(c)], []), Looked(1, 2, 10);
    assert !Recent(OldCode(c), 1, 2, 10, c);
    assert After(start, WAITING, 0, c) == Sys(start, map[]);
    assert After(start, WAITING, 1, c) == Sys(start, map[0 := looked]);
  }

  lemma SecondMustWait(c: Settings)
    ensures After(Store([OldCode(c)], []), WAITING, 5, c) == SecondWaits(c)
  {
    var start, looked := Store([OldCode(c)], []), Looked(1, 2, 10);
    var first: set<nat> := {0};
    assert ActiveRows(start.codes, 1, 2) == first && first * first == first;
    BothHaveLooked(c);
    assert After(start, WAITING, 3, c) == Sys(start, map[0 := Updating(1, 2, 10, 1, {0}), 1 := looked]);
    assert After(start, WAITING, 4, c) == Sys(start, map[0 := Closing(1, 2, 10, 1, {0}), 1 := looked]);
  }

  lemma WaitingBehindAnOldCodeLeavesTwoCodes(c: Settings)
    ensures var start := Store([OldCode(c)], []);
            var codes := After(start, WAITING, 9, c).store.codes;
            && OneActive(start.codes, 1, 2) && (1 <= c.maxAttempts ==> Accounted(start, c))
            && After(start, WAITING, 6, c) == After(start, WAITING, 5, c)
            && |codes| == 3 && !Active(codes[0], 1, 2) && Active(codes[1], 1, 2) && Active(codes[2], 1, 2)
  {
    var start, s5 := Store([OldCode(c)], []), SecondWaits(c);
    SecondMustWait(c);
    assert Locked(s5, 0) by { assert 0 in s5.txs && s5.txs[0].Closing? && 0 in s5.txs[0].locked; }
    assert After(start, WAITING, 6, c) == s5;
    SecondGetsPast(s5, c);
    assert After(start, WAITING, 7, c) == Fire(s5, WRITE_FIRST, c);
    assert After(start, WAITING, 8, c) == Fire(Fire(s5, WRITE_FIRST, c), Lock(1), c);
  }

  lemma SecondGetsPast(s: Sys, c: Settings)
    requires s == SecondWaits(c)
    ensures var codes := Fire(Fire(Fire(s, WRITE_FIRST, c), Lock(1), c), WRITE_SECOND, c).store.codes;
            |codes| == 3 && !Active(codes[0], 1, 2) && Active(codes[1], 1, 2) && Active(codes[2], 1, 2)
  {
    var s1 := Fire(s, WRITE_FIRST, c);
    assert |s1.store.codes| == 2 && !Active(s1.store.codes[0], 1, 2) && Active(s1.store.codes[1], 1, 2);
    assert s1.txs == map[1 := Updating(1, 2, 10, 1, {0})];
    var s2 := Fire(s1, Lock(1), c);
    assert {0} * ActiveRows(s1.store.codes, 1, 2) == {};
    assert s2 == s1.(txs := map[1 := Closing(1, 2, 10, 1, {})]);
    var codes := Fire(s2, WRITE_SECOND, c).store.codes;
    assert |codes| == 3 && codes[1] == s1.store.codes[1] && codes[0] == Closed(s1.store.codes[0], 1, 2, 10);
  }
}

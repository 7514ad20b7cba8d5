/** The transactions of the delivery protocol cut into steps, put together again: with
    nobody in between, the steps are the call (apps/delivery/services.py, dispatch.py). */
module InterleavingRules {
  import opened Wrappers
  import opened StateMachines
  import opened DeliveryStates
  import opened DeliveryWorld
  import opened DeliveryInvariants
  import opened Interleaving

  /** What the call does to the rows, on the instance the rows show. */
  function Called(w: World, job: Job, now: int): World
    requires Exists(w, job)
  {
    match job
    case JobOffer(order, courier) => Offer(w, order, courier, now).0
    case JobAccept(course, courier, share) => Accept(w, course, courier, share, now).0
    case JobExpire(course) => Expire(w, course).0
    case JobDecline(course, courier, reason) => Decline(w, course, w.courses[course], courier, reason).0
    case JobAdvance(course, target, reason) => TransitionTo(w, course, target, reason, now).0
    case JobMove(order, target) => MoveOrder(w, order, target).0
  }

  /** The instance of the courier that `offer` and `accept` judge is the row as it is. */
  predicate Current(w: World, job: Job, handed: Courier) {
    match job
    case JobOffer(_, courier) => courier in w.couriers && w.couriers[courier] == handed
    case JobAccept(_, courier, _) => courier in w.couriers && w.couriers[courier] == handed
    case _ => true
  }

  function UpToCommit(t: nat, job: Job, handed: Courier): seq<Action> {
    [Begin(t, job, handed), Lock(t), ReadRows(t), CheckCourier(t)]
  }

  /** Where a transaction alone stands before it commits. */
  function LastPhase(w: World, job: Job): Phase
    requires Exists(w, job)
  {
    var read := Rows(w, job);
    if (job.JobOffer? && !IsEngaged(w.courses, job.courier) && !HasActive(w.courses, job.order))
       || (job.JobAccept? && !IsEngaged(w.courses, job.courier))
    then Clear(read.seen, read.orderSeen) else read
  }

  lemma FourSteps(s: Sys, a: Action, b: Action, c: Action, d: Action)
    ensures FireAll(s, [a, b, c, d]) == Fire(Fire(Fire(Fire(s, a), b), c), d)
  {
    assert [a, b, c, d][..3] == [a, b, c];
    FireThree(s, a, b, c);
  }

  lemma LockedAndRead(s: Sys, t: nat, job: Job, handed: Courier)
    requires s.txs == map[] && s.locks == map[] && Exists(s.db, job)
    ensures var u := Fire(Fire(Fire(s, Begin(t, job, handed)), Lock(t)), ReadRows(t));
            && u.db == s.db && u.txs == map[t := Tx(job, handed, Rows(s.db, job))]
  {
    var begun := Fire(s, Begin(t, job, handed));
    assert begun.txs == map[t := Tx(job, handed, if job.JobDecline? then Rows(s.db, job) else Started)];
    if !job.JobDecline? {
      var held := Fire(begun, Lock(t));
      assert held.txs == map[t := Tx(job, handed, Holding)];
    }
  }

  lemma ReadyAlone(s: Sys, t: nat, job: Job, handed: Courier)
    requires s.txs == map[] && s.locks == map[] && Exists(s.db, job)
    ensures var u := FireAll(s, UpToCommit(t, job, handed));
            u.db == s.db && u.txs == map[t := Tx(job, handed, LastPhase(s.db, job))]
  {
    FourSteps(s, Begin(t, job, handed), Lock(t), ReadRows(t), CheckCourier(t));
    LockedAndRead(s, t, job, handed);
  }

  lemma WritesWhatIsCalled(w: World, job: Job, handed: Courier, now: int)
    requires Linked(w) && Constraints(w.courses) && Exists(w, job) && Current(w, job, handed)
    requires job.JobAccept? ==> job.courier in w.couriers
    ensures var written := Written(w, Tx(job, handed, LastPhase(w, job)), now);
            (if written.Some? then written.value else w) == Called(w, job, now)
  {
    if job.JobAccept? && job.courier == w.courses[job.course].courier {
      assert w.couriers[job.courier] == handed;
    }
  }

  /** A transaction with nobody in between leaves the rows that the call leaves, whether
      it succeeds or is refused, and is over. */
  lemma AloneIsTheCall(s: Sys, t: nat, job: Job, handed: Courier, now: int)
    requires s.txs == map[] && s.locks == map[] && Linked(s.db) && Constraints(s.db.courses)
    requires Exists(s.db, job) && Current(s.db, job, handed)
    ensures var u := FireAll(s, UpToCommit(t, job, handed) + [Commit(t, now)]);
            u.db == Called(s.db, job, now) && u.txs == map[]
  {
    var acts := UpToCommit(t, job, handed) + [Commit(t, now)];
    assert acts[..4] == UpToCommit(t, job, handed) && acts[4] == Commit(t, now);
    var ready := FireAll(s, UpToCommit(t, job, handed));
    ReadyAlone(s, t, job, handed);
    assert FireAll(s, acts) == Fire(ready, Commit(t, now));
    NobodyHoldsTheRow(ready, t, job, handed);
    WritesWhatIsCalled(s.db, job, handed, now);
  }

  lemma NobodyHoldsTheRow(s: Sys, t: nat, job: Job, handed: Courier)
    requires Exists(s.db, job) && s.txs == map[t := Tx(job, handed, LastPhase(s.db, job))]
    ensures !Waits(s, t)
  {
  }

  /** A commit goes through at once, unless it is that of a decline whose very course
      some step has read and holds. */
  lemma CommitWaitsIff(s: Sys, t: nat, now: int)
    requires t in s.txs && Exists(s.db, s.txs[t].job)
    ensures t in Fire(s, Commit(t, now)).txs <==>
            && s.txs[t].job.JobDecline?
            && exists u :: u in s.txs && s.txs[u].job.JobAdvance? && s.txs[u].job.course == s.txs[t].job.course && s.txs[u].phase.Read?
  {
  }

  /** A transaction aborted, or committed, writes no more and holds no lock. */
  lemma AbortForgets(s: Sys, t: nat)
    ensures var e := Fire(s, Abort(t));
            && e.db == s.db && e.effects == s.effects && t !in e.txs
            && (t in s.txs ==> forall o :: o in e.locks <==> o in s.locks && s.locks[o] != t)
            && (forall u :: u in s.txs && u != t ==> u in e.txs && e.txs[u] == s.txs[u])
  {
  }
}

/** Delivery transactions interleaved step by step.

    `offer`, `accept`, `expire`, `transition_to` and order moves take the lock of
    the order row, read, check and write; `decline` takes none and trusts the
    instance it was handed; the courier checked by `offer` and `accept` is the
    instance the request loaded earlier. The database aborts a commit that breaks
    a unique constraint. `transition_to` also holds the row of its course. */
module Interleaving {
  import opened Wrappers
  import opened Moneys
  import opened StateMachines
  import opened DeliveryStates
  import opened DeliveryWorld
  import opened DeliveryInvariants

  datatype Job =
    | JobOffer(order: nat, courier: nat)
    | JobAccept(course: nat, courier: nat, sharePercent: nat)
    | JobExpire(course: nat)
    | JobDecline(course: nat, courier: nat, reason: string)
    | JobAdvance(course: nat, target: DeliveryStatus, reason: string)
    | JobMove(order: nat, to: OrderStatus)

  /** `seen` and `orderSeen`: the statuses the transaction read. */
  datatype Phase =
    | Started
    | Holding
    | Read(seen: DeliveryStatus, orderSeen: OrderStatus)
    | Clear(seen: DeliveryStatus, orderSeen: OrderStatus)

  datatype Tx = Tx(job: Job, handed: Courier, phase: Phase)

  /** One commit that rewrote a course: what the row was and what it became. */
  datatype Effect = Effect(job: Job, course: nat, from: DeliveryStatus, to: DeliveryStatus)

  datatype Sys = Sys(db: World, locks: map<nat, nat>, txs: map<nat, Tx>, effects: seq<Effect>)

  datatype Action =
    | Begin(tx: nat, job: Job, handed: Courier)
    | Lock(tx: nat)
    | ReadRows(tx: nat)
    | CheckCourier(tx: nat)
    | Commit(tx: nat, now: int)
    | Abort(tx: nat)
    | Other(op: Op)

  // ------------------------------------------------------------------- the steps

  predicate OnCourse(job: Job) {
    !job.JobOffer? && !job.JobMove?
  }

  predicate Exists(w: World, job: Job) {
    if OnCourse(job) then job.course < |w.courses| && w.courses[job.course].order in w.orders && w.courses[job.course].courier in w.couriers
    else job.order in w.orders && (job.JobOffer? ==> job.courier in w.couriers)
  }

  function OrderOf(w: World, job: Job): nat
    requires Exists(w, job)
  {
    if OnCourse(job) then w.courses[job.course].order else job.order
  }

  function Rows(w: World, job: Job): Phase
    requires Exists(w, job)
  {
    Read(if OnCourse(job) then w.courses[job.course].status else Offered, w.orders[OrderOf(w, job)].status)
  }

  /** Transactions that hold the row of a course itself. */
  predicate RowHeld(s: Sys, course: nat) {
    exists t :: t in s.txs && s.txs[t].job.JobAdvance? && s.txs[t].job.course == course && s.txs[t].phase.Read?
  }

  function Saved(w: World, courses: seq<Course>): Option<World> {
    if Constraints(courses) then Some(w.(courses := courses)) else None
  }

  /** What the transaction writes on the rows as they are now, given what it read
      earlier; None when a check or a constraint stops it. */
  function Written(w: World, tx: Tx, now: int): Option<World>
    requires Exists(w, tx.job)
  {
    match tx.job
    case JobOffer(order, courier) =>
      if tx.phase.Clear? && tx.phase.orderSeen == Ready && CanAcceptOrders(tx.handed)
         && tx.handed.kitchen == w.orders[order].kitchen && ServesZone(tx.handed, w.orders[order].zone)
      then Saved(w, w.courses + [NewCourse(order, courier, now)]) else None
    case JobAccept(course, courier, share) =>
      var a := w.courses[course];
      if tx.phase.Clear? && a.courier == courier && tx.phase.orderSeen != OrderCancelled
         && CanAcceptOrders(tx.handed) && Accepted in DELIVERY_MACHINE[tx.phase.seen]
      then Saved(w, w.courses[course := Taken(w, course, share, now)])
      else None
    case JobExpire(course) =>
      if tx.phase.Read? && tx.phase.seen == Offered
      then Saved(w, w.courses[course := w.courses[course].(status := Declined, reason := EXPIRED_OFFER_REASON)])
      else None
    case JobDecline(course, courier, reason) =>
      if tx.phase.Read? && w.courses[course].courier == courier && Declined in DELIVERY_MACHINE[tx.phase.seen]
      then Saved(w, w.courses[course := w.courses[course].(status := Declined, reason := reason)])
      else None
    case JobAdvance(course, target, reason) =>
      if tx.phase.Read? && tx.phase.seen != target && target in DELIVERY_MACHINE[tx.phase.seen]
         && !(tx.phase.orderSeen == OrderCancelled && target != Cancelled) && OrderFollows(tx.phase.orderSeen, target)
      then Advanced(w, course, target, reason, now) else None
    case JobMove(order, target) =>
      if tx.phase.Read? && tx.phase.orderSeen != target && target in ORDER_MACHINE[tx.phase.orderSeen]
      then
        var moved := w.(orders := w.orders[order := w.orders[order].(status := target)]);
        Some(if target == OrderCancelled then moved.(courses := CloseOpen(w.courses, order, CANCELLED_ORDER_REASON)) else moved)
      else None
  }

  function Advanced(w: World, course: nat, target: DeliveryStatus, reason: string, now: int): Option<World>
    requires course < |w.courses| && w.courses[course].order in w.orders && w.courses[course].courier in w.couriers
  {
    var a := w.courses[course];
    var settled := Settled(w.couriers[a.courier], a, target);
    var courses := w.courses[course := Stamp(a, target, reason, now)];
    if !Constraints(courses) || settled.Failure? then None
    else Some(w.(courses := courses,
                 orders := w.orders[a.order := Projected(w.orders[a.order], target)],
                 couriers := w.couriers[a.courier := settled.value]))
  }

  function Taken(w: World, course: nat, share: nat, now: int): Course
    requires course < |w.courses| && w.courses[course].order in w.orders
  {
    w.courses[course].(status := Accepted, acceptedAt := Some(now), fee := Some(CourierFee(w.orders[w.courses[course].order], share)))
  }

  function Ended(s: Sys, t: nat): Sys {
    s.(txs := s.txs - {t}, locks := map o | o in s.locks && s.locks[o] != t :: s.locks[o])
  }

  function WithPhase(s: Sys, t: nat, phase: Phase): Sys
    requires t in s.txs
  {
    s.(txs := s.txs[t := s.txs[t].(phase := phase)])
  }

  predicate Harmless(op: Op) {
    op.DoReview? || op.DoSetOnline? || op.DoReplaceDocuments? || op.PlaceOrder? || op.Enrol? || op.SetAccount? || op.SetZones?
  }

  /** One action; an action that is not possible changes nothing. */
  function Fire(s: Sys, a: Action): Sys {
    match a
    case Begin(t, job, handed) =>
      if t in s.txs || !Exists(s.db, job) then s
      else s.(txs := s.txs[t := Tx(job, handed, if job.JobDecline? then Rows(s.db, job) else Started)])
    case Lock(t) =>
      if t !in s.txs || !s.txs[t].phase.Started? || !Exists(s.db, s.txs[t].job) || OrderOf(s.db, s.txs[t].job) in s.locks then s
      else WithPhase(s, t, Holding).(locks := s.locks[OrderOf(s.db, s.txs[t].job) := t])
    case ReadRows(t) =>
      if t !in s.txs || !s.txs[t].phase.Holding? || !Exists(s.db, s.txs[t].job) then s
      else WithPhase(s, t, Rows(s.db, s.txs[t].job))
    case CheckCourier(t) =>
      if t !in s.txs || !s.txs[t].phase.Read? then s
      else
        var tx := s.txs[t];
        var clear := match tx.job
                     case JobOffer(order, courier) => !IsEngaged(s.db.courses, courier) && !HasActive(s.db.courses, order)
                     case JobAccept(_, courier, _) => !IsEngaged(s.db.courses, courier)
                     case _ => false;
        if clear then WithPhase(s, t, Clear(tx.phase.seen, tx.phase.orderSeen)) else s
    case Commit(t, now) =>
      if t !in s.txs || !Exists(s.db, s.txs[t].job) || Waits(s, t) then s
      else
        var written := Written(s.db, s.txs[t], now);
        if written == None then Ended(s, t)
        else Ended(s, t).(db := written.value, effects := s.effects + EffectOf(s.db, written.value, s.txs[t].job))
    case Abort(t) => if t in s.txs then Ended(s, t) else s
    case Other(op) => if Harmless(op) then s.(db := Step(s.db, op)) else s
  }

  /** A decline waits for whoever holds the row of its course. */
  predicate Waits(s: Sys, t: nat)
    requires t in s.txs
  {
    s.txs[t].job.JobDecline? && RowHeld(s, s.txs[t].job.course)
  }

  function EffectOf(w: World, v: World, job: Job): seq<Effect> {
    if OnCourse(job) && job.course < |w.courses| && job.course < |v.courses|
    then [Effect(job, job.course, w.courses[job.course].status, v.courses[job.course].status)]
    else []
  }

  function FireAll(s: Sys, actions: seq<Action>): Sys {
    if actions == [] then s else Fire(FireAll(s, actions[..|actions| - 1]), actions[|actions| - 1])
  }

  function Idle(w: World): Sys {
    Sys(w, map[], map[], [])
  }

  // --------------------------------------------------------- what locks guarantee

  ghost predicate LocksHeld(s: Sys) {
    && (forall o :: o in s.locks ==>
          var t := s.locks[o];
          t in s.txs && !s.txs[t].phase.Started? && !s.txs[t].job.JobDecline?
          && Exists(s.db, s.txs[t].job) && OrderOf(s.db, s.txs[t].job) == o)
    && (forall t :: t in s.txs ==>
          && Exists(s.db, s.txs[t].job)
          && (s.txs[t].phase.Clear? ==> s.txs[t].job.JobOffer? || s.txs[t].job.JobAccept?)
          && (s.txs[t].job.JobDecline? ==> s.txs[t].phase.Read?)
          && (!s.txs[t].job.JobDecline? && !s.txs[t].phase.Started? ==>
                var o := OrderOf(s.db, s.txs[t].job); o in s.locks && s.locks[o] == t))
  }

  /** What a lock holder read is still true, except that an unlocked decline may
      have slipped under `accept` and `expire`. */
  predicate StillSeen(w: World, tx: Tx)
    requires Exists(w, tx.job)
  {
    !tx.job.JobDecline? && (tx.phase.Read? || tx.phase.Clear?) ==>
      && w.orders[OrderOf(w, tx.job)].status == tx.phase.orderSeen
      && (OnCourse(tx.job) ==>
            var now := w.courses[tx.job.course].status;
            now == tx.phase.seen || (now == Declined && !tx.job.JobAdvance?))
  }

  ghost predicate Sound(s: Sys) {
    && Linked(s.db)
    && Constraints(s.db.courses)
    && LocksHeld(s)
    && forall t :: t in s.txs ==> StillSeen(s.db, s.txs[t])
  }

  /** The committing transaction would read again what it read. */
  predicate Fresh(s: Sys, t: nat)
    requires t in s.txs && Exists(s.db, s.txs[t].job)
  {
    var tx := s.txs[t];
    OnCourse(tx.job) && (tx.phase.Read? || tx.phase.Clear?) ==> s.db.courses[tx.job.course].status == tx.phase.seen
  }

  // ------------------------------------------------------------- what a write does

  /** A write keeps every row where it is, touches only its own order's rows, and
      satisfies the constraints. */
  ghost predicate WriteShape(w: World, v: World, job: Job)
    requires Exists(w, job)
  {
    && v.orders.Keys == w.orders.Keys && v.couriers.Keys == w.couriers.Keys
    && |w.courses| <= |v.courses|
    && (forall i :: 0 <= i < |w.courses| ==> v.courses[i].order == w.courses[i].order && v.courses[i].courier == w.courses[i].courier)
    && (forall i :: 0 <= i < |w.courses| && w.courses[i].order != OrderOf(w, job) ==> v.courses[i] == w.courses[i])
    && (forall o :: o in w.orders && o != OrderOf(w, job) ==> v.orders[o] == w.orders[o])
    && (job.JobDecline? ==>
          v.orders == w.orders && |v.courses| == |w.courses|
          && forall i :: 0 <= i < |w.courses| ==>
               if i == job.course then v.courses[i].status == Declined else v.courses[i] == w.courses[i])
    && (forall i :: 0 <= i < |w.courses| ==> v.courses[i].status == Offered ==> w.courses[i].status == Offered)
    && Linked(v) && Constraints(v.courses)
  }

  lemma OneRowShape(w: World, v: World, course: nat, b: Course, job: Job)
    requires Linked(w) && OnCourse(job) && Exists(w, job) && job.course == course && Constraints(v.courses)
    requires v.courses == w.courses[course := b] && b.order == w.courses[course].order && b.courier == w.courses[course].courier
    requires b.status != Offered && v.couriers.Keys == w.couriers.Keys && v.orders.Keys == w.orders.Keys
    requires forall o :: o in w.orders && o != b.order ==> v.orders[o] == w.orders[o]
    requires job.JobDecline? ==> v.orders == w.orders && b.status == Declined
    ensures WriteShape(w, v, job)
  {
    UpdatedMembers(w.courses, course, b);
  }

  lemma CloseKeepsUnique(courses: seq<Course>, order: nat, reason: string)
    requires Constraints(courses)
    ensures Constraints(CloseOpen(courses, order, reason))
  {
    var closed := CloseOpen(courses, order, reason);
    assert forall i :: 0 <= i < |courses| ==>
      && closed[i].order == courses[i].order && closed[i].courier == courses[i].courier
      && (closed[i].status == courses[i].status || closed[i].status == Cancelled);
  }

  lemma MoveShape(w: World, order: nat, target: OrderStatus, v: World)
    requires Linked(w) && Constraints(w.courses) && order in w.orders
    requires v == w.(orders := v.orders, courses := v.courses)
    requires v.orders == w.orders[order := w.orders[order].(status := target)]
    requires v.courses == (if target == OrderCancelled then CloseOpen(w.courses, order, CANCELLED_ORDER_REASON) else w.courses)
    ensures WriteShape(w, v, JobMove(order, target))
  {
    if target == OrderCancelled {
      CloseKeepsUnique(w.courses, order, CANCELLED_ORDER_REASON);
      ClosedMembers(w.courses, order, CANCELLED_ORDER_REASON);
    }
  }

  lemma OfferShape(w: World, v: World, order: nat, courier: nat, now: int)
    requires Linked(w) && order in w.orders && courier in w.couriers && Constraints(v.courses)
    requires v == w.(courses := w.courses + [NewCourse(order, courier, now)])
    ensures WriteShape(w, v, JobOffer(order, courier))
  {
    var a := NewCourse(order, courier, now);
    assert forall x :: x in v.courses ==> x == a || x in w.courses;
  }

  lemma WrittenShape(w: World, tx: Tx, now: int)
    requires Linked(w) && Constraints(w.courses) && Exists(w, tx.job)
    requires Written(w, tx, now).Some?
    ensures WriteShape(w, Written(w, tx, now).value, tx.job)
  {
    var v := Written(w, tx, now).value;
    match tx.job
    case JobOffer(order, courier) => OfferShape(w, v, order, courier, now);
    case JobMove(order, target) => MoveShape(w, order, target, v);
    case _ => OneRowShape(w, v, tx.job.course, v.courses[tx.job.course], tx.job);
  }

  // ----------------------------------------------------------- soundness of a step

  lemma EndedKeeps(s: Sys, t: nat)
    requires Sound(s)
    ensures Sound(Ended(s, t))
  {
    var e := Ended(s, t);
    forall u | u in e.txs && !e.txs[u].job.JobDecline? && !e.txs[u].phase.Started?
      ensures var o := OrderOf(e.db, e.txs[u].job); o in e.locks && e.locks[o] == u
    {
      assert e.txs[u] == s.txs[u];
    }
  }

  /** Whoever else holds a lock is on another order; whoever holds none and is
      not a decline has read nothing. */
  lemma OthersStillSee(s: Sys, t: nat, v: World, u: nat)
    requires Sound(s) && t in s.txs && u in s.txs && u != t
    requires WriteShape(s.db, v, s.txs[t].job)
    requires !s.txs[t].phase.Started? && !s.txs[t].phase.Holding? && !Waits(s, t)
    ensures Exists(v, s.txs[u].job) && OrderOf(v, s.txs[u].job) == OrderOf(s.db, s.txs[u].job)
    ensures StillSeen(v, s.txs[u])
  {
    var x, y := s.txs[t], s.txs[u];
    if !y.job.JobDecline? && (y.phase.Read? || y.phase.Clear?) {
      var o := OrderOf(s.db, y.job);
      assert o in s.locks && s.locks[o] == u;
      assert StillSeen(s.db, y);
      if !x.job.JobDecline? {
        assert OrderOf(s.db, x.job) != o;
      } else {
        assert !RowHeld(s, x.job.course);
        assert u in s.txs;
      }
    }
  }

  /** The rows a transaction writes leave everybody else with locks and readings as
      they were. */
  lemma WriteKeepsSound(s: Sys, t: nat, e: Sys)
    requires Sound(s) && t in s.txs && !Waits(s, t) && !s.txs[t].phase.Started? && !s.txs[t].phase.Holding?
    requires WriteShape(s.db, e.db, s.txs[t].job) && Sound(Ended(s, t))
    requires e.txs == Ended(s, t).txs && e.locks == Ended(s, t).locks
    ensures Sound(e)
  {
    forall u | u in e.txs ensures u in s.txs && e.txs[u] == s.txs[u] && Exists(e.db, e.txs[u].job) && StillSeen(e.db, e.txs[u])
                                  && OrderOf(e.db, e.txs[u].job) == OrderOf(s.db, e.txs[u].job) {
      OthersStillSee(s, t, e.db, u);
    }
  }

  lemma OnlyReadersWrite(w: World, tx: Tx, now: int)
    requires Exists(w, tx.job) && Written(w, tx, now).Some?
    ensures !tx.phase.Started? && !tx.phase.Holding?
  {
  }

  lemma CommitKeepsSound(s: Sys, t: nat, now: int)
    requires Sound(s)
    ensures Sound(Fire(s, Commit(t, now)))
  {
    if t in s.txs && Exists(s.db, s.txs[t].job) && !Waits(s, t) {
      EndedKeeps(s, t);
      if Written(s.db, s.txs[t], now).Some? {
        WrittenShape(s.db, s.txs[t], now);
        OnlyReadersWrite(s.db, s.txs[t], now);
        WriteKeepsSound(s, t, Fire(s, Commit(t, now)));
      }
    }
  }

  lemma HarmlessKeeps(w: World, op: Op)
    requires Linked(w) && Harmless(op)
    ensures var v := Step(w, op);
            && v.courses == w.courses && w.orders.Keys <= v.orders.Keys && w.couriers.Keys <= v.couriers.Keys
            && Linked(v) && forall o :: o in w.orders ==> v.orders[o] == w.orders[o]
  {
  }

  lemma OtherKeepsSound(s: Sys, op: Op)
    requires Sound(s) && Harmless(op)
    ensures Sound(Fire(s, Other(op)))
  {
    HarmlessKeeps(s.db, op);
    var e := Fire(s, Other(op));
    forall t | t in e.txs ensures Exists(e.db, e.txs[t].job) && StillSeen(e.db, e.txs[t])
                                  && OrderOf(e.db, e.txs[t].job) == OrderOf(s.db, e.txs[t].job) {
      assert StillSeen(s.db, s.txs[t]);
    }
  }

  lemma LockKeepsSound(s: Sys, t: nat)
    requires Sound(s)
    ensures Sound(Fire(s, Lock(t)))
  {
    var e := Fire(s, Lock(t));
    if e != s {
      forall u | u in e.txs ensures StillSeen(e.db, e.txs[u]) {
        if u != t { assert StillSeen(s.db, s.txs[u]); }
      }
    }
  }

  lemma PhaseKeepsSound(s: Sys, t: nat, phase: Phase)
    requires Sound(s) && t in s.txs && !s.txs[t].phase.Started? && !phase.Started?
    requires s.txs[t].job.JobDecline? ==> phase.Read?
    requires phase.Clear? ==> s.txs[t].job.JobOffer? || s.txs[t].job.JobAccept?
    requires StillSeen(s.db, s.txs[t].(phase := phase))
    ensures Sound(WithPhase(s, t, phase))
  {
    var e := WithPhase(s, t, phase);
    forall u | u in e.txs ensures StillSeen(e.db, e.txs[u]) {
      if u != t { assert StillSeen(s.db, s.txs[u]); }
    }
  }

  lemma BeginKeepsSound(s: Sys, t: nat, job: Job, handed: Courier)
    requires Sound(s)
    ensures Sound(Fire(s, Begin(t, job, handed)))
  {
    var e := Fire(s, Begin(t, job, handed));
    if e != s {
      forall u | u in e.txs ensures StillSeen(e.db, e.txs[u]) {
        if u != t { assert StillSeen(s.db, s.txs[u]); }
      }
    }
  }

  lemma FireKeepsSound(s: Sys, a: Action)
    requires Sound(s)
    ensures Sound(Fire(s, a))
  {
    match a
    case Begin(t, job, handed) => BeginKeepsSound(s, t, job, handed);
    case Lock(t) => LockKeepsSound(s, t);
    case ReadRows(t) =>
      if Fire(s, a) != s {
        PhaseKeepsSound(s, t, Rows(s.db, s.txs[t].job));
      }
    case CheckCourier(t) =>
      if Fire(s, a) != s {
        assert StillSeen(s.db, s.txs[t]);
        PhaseKeepsSound(s, t, Clear(s.txs[t].phase.seen, s.txs[t].phase.orderSeen));
      }
    case Commit(t, now) => CommitKeepsSound(s, t, now);
    case Abort(t) => EndedKeeps(s, t);
    case Other(op) => if Harmless(op) { OtherKeepsSound(s, op); }
  }

  /** Under any interleaving whatever, stale declines included: at most one open
      course per order and one engaged course per courier at every commit. */
  lemma {:induction false} AnyInterleavingIsSound(w: World, actions: seq<Action>)
    requires Linked(w) && Constraints(w.courses)
    ensures Sound(FireAll(Idle(w), actions))
  {
    if actions != [] {
      AnyInterleavingIsSound(w, actions[..|actions| - 1]);
      FireKeepsSound(FireAll(Idle(w), actions[..|actions| - 1]), actions[|actions| - 1]);
    }
  }

  // --------------------------------------------------- accept and expire exclude

  predicate Decides(job: Job) {
    job.JobAccept? || job.JobExpire?
  }

  predicate Decided(effects: seq<Effect>, course: nat) {
    exists k :: 0 <= k < |effects| && effects[k].course == course && Decides(effects[k].job)
  }

  predicate AtMostOneDecision(effects: seq<Effect>) {
    forall k, l :: 0 <= k < l < |effects| && effects[k].course == effects[l].course ==>
                     !Decides(effects[k].job) || !Decides(effects[l].job)
  }

  /** About to decide on a course it still believes offered. */
  predicate Believes(tx: Tx) {
    Decides(tx.job) && (tx.phase.Read? || tx.phase.Clear?) && tx.phase.seen == Offered
  }

  /** A decided course is offered no more, and nobody still believes it is. */
  ghost predicate Exclusive(s: Sys) {
    && AtMostOneDecision(s.effects)
    && (forall i :: 0 <= i < |s.db.courses| && s.db.courses[i].status == Offered ==> !Decided(s.effects, i))
    && (forall k :: 0 <= k < |s.effects| ==> s.effects[k].course < |s.db.courses|)
    && (forall t :: t in s.txs && Believes(s.txs[t]) ==> !Decided(s.effects, s.txs[t].job.course))
  }

  lemma DecidedAppend(effects: seq<Effect>, e: Effect, course: nat)
    ensures Decided(effects + [e], course) <==> Decided(effects, course) || (e.course == course && Decides(e.job))
  {
    var all := effects + [e];
    assert all[|effects|] == e;
    if k :| 0 <= k < |effects| && effects[k].course == course && Decides(effects[k].job) {
      assert all[k] == effects[k];
    }
  }

  lemma OnlyKnownCoursesAreDecided(s: Sys, i: nat)
    requires Exclusive(s) && Decided(s.effects, i)
    ensures i < |s.db.courses|
  {
  }

  /** No course becomes offered again; new ones may appear. */
  predicate OffersOnlyShrink(before: seq<Course>, after: seq<Course>) {
    && |before| <= |after|
    && forall i :: 0 <= i < |before| && after[i].status == Offered ==> before[i].status == Offered
  }

  lemma OneMoreEffect(s: Sys, e: Sys, effect: Effect)
    requires Exclusive(s) && e.effects == s.effects + [effect] && effect.course < |s.db.courses|
    requires OffersOnlyShrink(s.db.courses, e.db.courses)
    requires forall u :: u in e.txs ==> u in s.txs && e.txs[u] == s.txs[u]
    requires Decides(effect.job) ==>
               && !Decided(s.effects, effect.course) && e.db.courses[effect.course].status != Offered
               && forall u :: u in e.txs && Believes(e.txs[u]) ==> e.txs[u].job.course != effect.course
    ensures Exclusive(e)
  {
    forall i ensures Decided(e.effects, i) <==> Decided(s.effects, i) || (i == effect.course && Decides(effect.job)) {
      DecidedAppend(s.effects, effect, i);
    }
    forall i | 0 <= i < |e.db.courses| && e.db.courses[i].status == Offered ensures !Decided(e.effects, i) {
      if Decided(s.effects, i) {
        OnlyKnownCoursesAreDecided(s, i);
      }
    }
  }

  lemma NoMoreEffect(s: Sys, e: Sys)
    requires Exclusive(s) && e.effects == s.effects
    requires OffersOnlyShrink(s.db.courses, e.db.courses)
    requires forall u :: u in e.txs ==> u in s.txs && e.txs[u] == s.txs[u]
    ensures Exclusive(e)
  {
    forall i | 0 <= i < |e.db.courses| && e.db.courses[i].status == Offered ensures !Decided(e.effects, i) {
      if Decided(s.effects, i) {
        OnlyKnownCoursesAreDecided(s, i);
      }
    }
  }

  /** `accept` and `expire` both pass only on a course they read as offered. */
  lemma DeciderReadOffered(w: World, tx: Tx, now: int)
    requires Exists(w, tx.job) && Decides(tx.job) && Written(w, tx, now).Some?
    ensures Believes(tx) && Written(w, tx, now).value.courses[tx.job.course].status != Offered
  {
  }

  lemma CommitKeepsExclusive(s: Sys, t: nat, now: int)
    requires Sound(s) && Exclusive(s)
    ensures Exclusive(Fire(s, Commit(t, now)))
  {
    if t in s.txs && Exists(s.db, s.txs[t].job) && !Waits(s, t) && Written(s.db, s.txs[t], now).Some? {
      var x, v := s.txs[t], Written(s.db, s.txs[t], now).value;
      WrittenShape(s.db, x, now);
      var e := Ended(s, t).(db := v, effects := s.effects + EffectOf(s.db, v, x.job));
      assert OffersOnlyShrink(s.db.courses, v.courses);
      if OnCourse(x.job) {
        if Decides(x.job) {
          DeciderReadOffered(s.db, x, now);
          DecisionIsAlone(s, t, e);
        }
        OneMoreEffect(s, e, EffectOf(s.db, v, x.job)[0]);
      } else {
        NoMoreEffect(s, e);
      }
    }
  }

  /** While one decision commits, no other transaction holds the course's order. */
  lemma DecisionIsAlone(s: Sys, t: nat, e: Sys)
    requires Sound(s) && t in s.txs && Decides(s.txs[t].job) && (s.txs[t].phase.Read? || s.txs[t].phase.Clear?)
    requires e.txs == s.txs - {t}
    ensures forall u :: u in e.txs && Decides(e.txs[u].job) && (e.txs[u].phase.Read? || e.txs[u].phase.Clear?) ==>
                          e.txs[u].job.course != s.txs[t].job.course
  {
    forall u | u in e.txs && Decides(e.txs[u].job) && (e.txs[u].phase.Read? || e.txs[u].phase.Clear?)
      ensures e.txs[u].job.course != s.txs[t].job.course
    {
      assert e.txs[u] == s.txs[u];
      assert s.locks[OrderOf(s.db, s.txs[u].job)] == u && s.locks[OrderOf(s.db, s.txs[t].job)] == t;
    }
  }

  /** Only transaction `t` moves, if it is still there, and writes nothing. */
  lemma OneTxKeepsExclusive(s: Sys, e: Sys, t: nat)
    requires Exclusive(s) && e.db == s.db && e.effects == s.effects
    requires forall u :: u in e.txs && u != t ==> u in s.txs && e.txs[u] == s.txs[u]
    requires t in e.txs && Believes(e.txs[t]) ==> !Decided(s.effects, e.txs[t].job.course)
    ensures Exclusive(e)
  {
  }

  lemma StepKeepsExclusive(s: Sys, a: Action)
    requires Exclusive(s) && (a.Begin? || a.Lock? || a.Abort?)
    ensures Exclusive(Fire(s, a))
  {
    OneTxKeepsExclusive(s, Fire(s, a), a.tx);
  }

  lemma ReadKeepsExclusive(s: Sys, a: Action)
    requires Sound(s) && Exclusive(s) && (a.ReadRows? || a.CheckCourier?)
    ensures Exclusive(Fire(s, a))
  {
    OneTxKeepsExclusive(s, Fire(s, a), a.tx);
  }

  lemma OtherKeepsExclusive(s: Sys, op: Op)
    requires Sound(s) && Exclusive(s) && Harmless(op)
    ensures Exclusive(Fire(s, Other(op)))
  {
    HarmlessKeeps(s.db, op);
  }

  lemma FireKeepsExclusive(s: Sys, a: Action)
    requires Sound(s) && Exclusive(s)
    ensures Exclusive(Fire(s, a))
  {
    match a
    case Commit(t, now) => CommitKeepsExclusive(s, t, now);
    case Other(op) => if Harmless(op) { OtherKeepsExclusive(s, op); }
    case ReadRows(_) => ReadKeepsExclusive(s, a);
    case CheckCourier(_) => ReadKeepsExclusive(s, a);
    case _ => StepKeepsExclusive(s, a);
  }

  /** `accept` and `expire` never both take effect on one offer, nor either of
      them twice, under any interleaving whatever. */
  lemma {:induction false} DecisionsExclude(w: World, actions: seq<Action>)
    requires Linked(w) && Constraints(w.courses)
    ensures Exclusive(FireAll(Idle(w), actions))
    ensures AtMostOneDecision(FireAll(Idle(w), actions).effects)
    ensures var effects := FireAll(Idle(w), actions).effects;
            forall k, l :: 0 <= k < l < |effects| && effects[k].course == effects[l].course ==>
                             !(effects[k].job.JobAccept? || effects[k].job.JobExpire?) || !(effects[l].job.JobAccept? || effects[l].job.JobExpire?)
  {
    if actions != [] {
      var init := actions[..|actions| - 1];
      DecisionsExclude(w, init);
      AnyInterleavingIsSound(w, init);
      FireKeepsExclusive(FireAll(Idle(w), init), actions[|actions| - 1]);
    }
  }

  // ---------------------------------------------------------- fresh commits are safe

  /** Staleness is the only way out of the machine: a commit moves its course by a
      declared transition exactly when the row still has the status it read. */
  lemma LegalIffFresh(s: Sys, t: nat, now: int)
    requires Sound(s) && t in s.txs && OnCourse(s.txs[t].job) && Written(s.db, s.txs[t], now).Some?
    ensures var course := s.txs[t].job.course;
            && course < |Written(s.db, s.txs[t], now).value.courses|
            && (Fresh(s, t) <==>
                Edge(DELIVERY_MACHINE, s.db.courses[course].status, Written(s.db, s.txs[t], now).value.courses[course].status))
  {
    assert StillSeen(s.db, s.txs[t]);
  }

  /** A fresh commit of an unhurried transaction is the sequential call itself,
      up to the courier's eligibility, which `offer` and `accept` judge on the
      instance they were handed. */
  lemma FreshCommitIsSequential(s: Sys, t: nat, now: int)
    requires Sound(s) && t in s.txs && Fresh(s, t) && Written(s.db, s.txs[t], now).Some?
    ensures var w, v := s.db, Written(s.db, s.txs[t], now).value;
            match s.txs[t].job
            case JobOffer(order, courier) =>
              (v == Offer(w, order, courier, now).0 <==> CourierRefusal(w, w.orders[order], courier) == None)
            case JobAccept(course, courier, share) =>
              (v == Accept(w, course, courier, share, now).0 <==> CanAcceptOrders(w.couriers[courier]))
            case JobExpire(course) => (v, true) == Expire(w, course)
            case JobDecline(course, courier, reason) => (v, Success(course)) == Decline(w, course, w.courses[course], courier, reason)
            case JobAdvance(course, target, reason) => (v, Success(course)) == TransitionTo(w, course, target, reason, now)
            case JobMove(order, target) => (v, Success(order)) == MoveOrder(w, order, target)
  {
    var w, v, x := s.db, Written(s.db, s.txs[t], now).value, s.txs[t];
    assert StillSeen(w, x);
    match x.job
    case JobOffer(order, courier) => OfferWasFree(w, order, courier, now);
    case JobAccept(course, courier, share) => AcceptWasFree(w, course, Taken(w, course, share, now));
    case _ =>
  }

  lemma OfferWasFree(w: World, order: nat, courier: nat, now: int)
    requires Constraints(w.courses + [NewCourse(order, courier, now)])
    ensures !HasActive(w.courses, order)
  {
    var all := w.courses + [NewCourse(order, courier, now)];
    assert forall i :: 0 <= i < |w.courses| ==> all[i] == w.courses[i];
    assert all[|w.courses|] == NewCourse(order, courier, now);
  }

  lemma AcceptWasFree(w: World, course: nat, b: Course)
    requires course < |w.courses| && w.courses[course].status == Offered && Constraints(w.courses[course := b])
    requires b.courier == w.courses[course].courier && b.status == Accepted
    ensures !IsEngaged(w.courses, b.courier)
  {
    var all := w.courses[course := b];
    assert forall i :: 0 <= i < |w.courses| && i != course ==> all[i] == w.courses[i];
    assert all[course] == b;
  }

  lemma FreshOfferKeepsInv(w: World, tx: Tx, now: int)
    requires Inv(w) && Exists(w, tx.job) && tx.job.JobOffer? && Written(w, tx, now).Some?
    requires w.orders[tx.job.order].status == tx.phase.orderSeen
    ensures Inv(Written(w, tx, now).value)
  {
    CourseAddedKeeps(w, tx.job.order, tx.job.courier, now);
  }

  lemma FreshAcceptKeepsInv(w: World, tx: Tx, now: int)
    requires Inv(w) && Exists(w, tx.job) && tx.job.JobAccept? && Written(w, tx, now).Some?
    requires w.courses[tx.job.course].status == tx.phase.seen && w.orders[OrderOf(w, tx.job)].status == tx.phase.orderSeen
    ensures Inv(Written(w, tx, now).value)
  {
    TakenKeeps(w, tx.job.course, Taken(w, tx.job.course, tx.job.sharePercent, now));
  }

  lemma SequentialKeepsInv(w: World, job: Job, now: int)
    requires Inv(w) && Exists(w, job)
    ensures match job
            case JobExpire(course) => Inv(Expire(w, course).0)
            case JobDecline(course, courier, reason) => Inv(Decline(w, course, w.courses[course], courier, reason).0)
            case JobAdvance(course, target, reason) => Inv(TransitionTo(w, course, target, reason, now).0)
            case JobMove(order, target) => Inv(MoveOrder(w, order, target).0)
            case _ => true
  {
    match job
    case JobExpire(course) => ExpireKeeps(w, course);
    case JobDecline(course, courier, reason) => DeclineKeeps(w, course, courier, reason);
    case JobAdvance(course, target, reason) => TransitionKeeps(w, course, target, reason, now);
    case JobMove(order, target) => MoveOrderKeeps(w, order, target);
    case _ =>
  }

  lemma FreshCommitKeepsInv(s: Sys, t: nat, now: int)
    requires Sound(s) && Inv(s.db) && t in s.txs && Fresh(s, t) && Written(s.db, s.txs[t], now).Some?
    ensures Inv(Written(s.db, s.txs[t], now).value)
  {
    var w, x := s.db, s.txs[t];
    assert StillSeen(w, x);
    if x.job.JobOffer? {
      FreshOfferKeepsInv(w, x, now);
    } else if x.job.JobAccept? {
      FreshAcceptKeepsInv(w, x, now);
    } else {
      FreshCommitIsSequential(s, t, now);
      SequentialKeepsInv(w, x.job, now);
    }
  }

  /** No decline in sight, and every lock holder's reading is current. */
  ghost predicate Quiet(s: Sys) {
    forall t :: t in s.txs ==> !s.txs[t].job.JobDecline? && Exists(s.db, s.txs[t].job) && Fresh(s, t)
  }

  lemma CommitKeepsQuiet(s: Sys, t: nat, now: int)
    requires Sound(s) && Quiet(s)
    ensures Quiet(Fire(s, Commit(t, now)))
  {
    var e := Fire(s, Commit(t, now));
    if t in s.txs && !Waits(s, t) && Written(s.db, s.txs[t], now).Some? {
      var v := Written(s.db, s.txs[t], now).value;
      WrittenShape(s.db, s.txs[t], now);
      forall u | u in e.txs ensures !e.txs[u].job.JobDecline? && Exists(v, e.txs[u].job) && Fresh(e, u) {
        assert e.txs[u] == s.txs[u] && Fresh(s, u);
        OthersStillSee(s, t, v, u);
        var y := s.txs[u];
        if OnCourse(y.job) && (y.phase.Read? || y.phase.Clear?) {
          assert s.locks[OrderOf(s.db, y.job)] == u && s.locks[OrderOf(s.db, s.txs[t].job)] == t;
        }
      }
    }
  }

  predicate BeginsDecline(a: Action) {
    a.Begin? && a.job.JobDecline?
  }

  /** Only transaction `t` moves, if it is still there. */
  lemma OneTxKeepsQuiet(s: Sys, e: Sys, t: nat)
    requires Quiet(s) && e.db == s.db
    requires forall u :: u in e.txs && u != t ==> u in s.txs && e.txs[u] == s.txs[u]
    requires t in e.txs ==> !e.txs[t].job.JobDecline? && Exists(e.db, e.txs[t].job) && Fresh(e, t)
    ensures Quiet(e)
  {
    forall u | u in e.txs ensures !e.txs[u].job.JobDecline? && Exists(e.db, e.txs[u].job) && Fresh(e, u) {
      if u != t { assert Fresh(s, u); }
    }
  }

  lemma OtherKeepsQuiet(s: Sys, op: Op)
    requires Sound(s) && Quiet(s) && Harmless(op)
    ensures Quiet(Fire(s, Other(op)))
  {
    HarmlessKeeps(s.db, op);
    var e := Fire(s, Other(op));
    forall t | t in e.txs ensures !e.txs[t].job.JobDecline? && Exists(e.db, e.txs[t].job) && Fresh(e, t) {
      assert Fresh(s, t);
    }
  }

  lemma BeginKeepsQuiet(s: Sys, t: nat, job: Job, handed: Courier)
    requires Quiet(s) && !job.JobDecline?
    ensures Quiet(Fire(s, Begin(t, job, handed)))
  {
    OneTxKeepsQuiet(s, Fire(s, Begin(t, job, handed)), t);
  }

  lemma StepKeepsQuiet(s: Sys, a: Action)
    requires Quiet(s) && (a.Lock? || a.ReadRows? || a.CheckCourier? || a.Abort?)
    ensures Quiet(Fire(s, a))
  {
    assert a.tx in s.txs ==> Fresh(s, a.tx);
    OneTxKeepsQuiet(s, Fire(s, a), a.tx);
  }

  lemma FireKeepsQuiet(s: Sys, a: Action)
    requires Sound(s) && Quiet(s) && !BeginsDecline(a)
    ensures Quiet(Fire(s, a))
  {
    match a
    case Commit(t, now) => CommitKeepsQuiet(s, t, now);
    case Other(op) => if Harmless(op) { OtherKeepsQuiet(s, op); }
    case Begin(t, job, handed) => BeginKeepsQuiet(s, t, job, handed);
    case _ => StepKeepsQuiet(s, a);
  }

  lemma FireKeepsInv(s: Sys, a: Action)
    requires Sound(s) && Quiet(s) && Inv(s.db)
    ensures Inv(Fire(s, a).db)
  {
    match a
    case Commit(t, now) =>
      if t in s.txs && !Waits(s, t) && Written(s.db, s.txs[t], now).Some? {
        FreshCommitKeepsInv(s, t, now);
      }
    case Other(op) => StepKeeps(s.db, op);
    case _ =>
  }

  /** Without stale declines, every interleaving keeps the whole delivery
      invariant at every commit: the order lock is enough. */
  lemma {:induction false} LocksKeepInv(w: World, actions: seq<Action>)
    requires Inv(w) && forall k :: 0 <= k < |actions| ==> !BeginsDecline(actions[k])
    ensures Inv(FireAll(Idle(w), actions).db) && Quiet(FireAll(Idle(w), actions))
  {
    if actions != [] {
      var init := actions[..|actions| - 1];
      LocksKeepInv(w, init);
      AnyInterleavingIsSound(w, init);
      FireKeepsQuiet(FireAll(Idle(w), init), actions[|actions| - 1]);
      FireKeepsInv(FireAll(Idle(w), init), actions[|actions| - 1]);
    }
  }

  /** Every commit finds the status it read, declines included. */
  ghost predicate AllFresh(w: World, actions: seq<Action>) {
    forall k | 0 <= k < |actions| && actions[k].Commit? ::
      var s := FireAll(Idle(w), actions[..k]);
      actions[k].tx in s.txs && Exists(s.db, s.txs[actions[k].tx].job) ==> Fresh(s, actions[k].tx)
  }

  lemma FreshFireKeepsInv(s: Sys, a: Action)
    requires Sound(s) && Inv(s.db)
    requires a.Commit? && a.tx in s.txs && Exists(s.db, s.txs[a.tx].job) ==> Fresh(s, a.tx)
    ensures Inv(Fire(s, a).db)
  {
    match a
    case Commit(t, now) =>
      if t in s.txs && Exists(s.db, s.txs[t].job) && !Waits(s, t) && Written(s.db, s.txs[t], now).Some? {
        FreshCommitKeepsInv(s, t, now);
      }
    case Other(op) => StepKeeps(s.db, op);
    case _ =>
  }

  lemma AllFreshBefore(w: World, actions: seq<Action>)
    requires actions != [] && AllFresh(w, actions)
    ensures AllFresh(w, actions[..|actions| - 1])
  {
    var init := actions[..|actions| - 1];
    forall k | 0 <= k < |init| && init[k].Commit?
      ensures var s := FireAll(Idle(w), init[..k]);
              init[k].tx in s.txs && Exists(s.db, s.txs[init[k].tx].job) ==> Fresh(s, init[k].tx)
    {
      assert init[..k] == actions[..k] && init[k] == actions[k];
    }
  }

  /** The whole invariant survives any interleaving, declines included, in which
      every commit finds the status it read. */
  lemma {:induction false} FreshRunsKeepInv(w: World, actions: seq<Action>)
    requires Inv(w) && AllFresh(w, actions)
    ensures Inv(FireAll(Idle(w), actions).db)
  {
    if actions != [] {
      var n := |actions| - 1;
      AllFreshBefore(w, actions);
      FreshRunsKeepInv(w, actions[..n]);
      AnyInterleavingIsSound(w, actions[..n]);
      FreshFireKeepsInv(FireAll(Idle(w), actions[..n]), actions[n]);
    }
  }

  // ---------------------------------------------------------- the race of decline

  const WILLING := Courier(0, true, Approved, "", true, {}, map[], 0, 0, None)
  const WAITING := Order(Ready, 0, None, Money(1000, "XOF"), None, 0)

  /** One ready order offered to one eligible courier. */
  function OneOffer(): World {
    World(map[0 := WAITING], map[0 := WILLING], [NewCourse(0, 0, 0)], {})
  }

  lemma OneOfferIsSound()
    ensures Inv(OneOffer())
  {
    var w := OneOffer();
    assert TallyOf(w.courses, 0) == Tally(0, 0, 0) by {
      assert TallyOf(w.courses[..0], 0) == Tally(0, 0, 0);
    }
  }

  lemma FireLast(s: Sys, actions: seq<Action>, a: Action)
    ensures FireAll(s, actions + [a]) == Fire(FireAll(s, actions), a)
  {
    assert (actions + [a])[..|actions|] == actions;
  }

  lemma {:induction false} FireSplit(s: Sys, first: seq<Action>, second: seq<Action>)
    ensures FireAll(s, first + second) == FireAll(FireAll(s, first), second)
    decreases |second|
  {
    if second == [] {
      assert first + second == first;
    } else {
      var init, last := second[..|second| - 1], second[|second| - 1];
      FireSplit(s, first, init);
      FireLast(s, first + init, last);
      FireLast(FireAll(s, first), init, last);
      assert second == init + [last] && first + second == (first + init) + [last];
    }
  }

  lemma FireTwo(s: Sys, a: Action, b: Action)
    ensures FireAll(s, [a]) == Fire(s, a)
    ensures FireAll(s, [a, b]) == Fire(Fire(s, a), b)
  {
    assert [a, b][..1] == [a] && [a][..0] == [];
    assert FireAll(s, [a]) == Fire(s, a);
  }

  lemma FireThree(s: Sys, a: Action, b: Action, c: Action)
    ensures FireAll(s, [a, b, c]) == Fire(Fire(Fire(s, a), b), c)
  {
    assert [a, b, c][..2] == [a, b];
    FireTwo(s, a, b);
  }

  const DECLINE_IT := JobDecline(0, 0, "")
  const ACCEPT_IT := JobAccept(0, 0, 70)
  const DECLINING := Tx(DECLINE_IT, WILLING, Read(Offered, Ready))
  const ACCEPTING := Tx(ACCEPT_IT, WILLING, Clear(Offered, Ready))

  const BOTH_BEGIN := [Begin(0, DECLINE_IT, WILLING), Begin(1, ACCEPT_IT, WILLING)]
  const ACCEPT_BEGINS := [Begin(1, ACCEPT_IT, WILLING)]
  const ACCEPT_CHECKS := [Lock(1), ReadRows(1), CheckCourier(1)]
  const DECLINE_LAST := [Commit(1, 5), Commit(0, 6)]
  const DECLINE_BETWEEN := [Begin(0, DECLINE_IT, WILLING), Commit(0, 5), Commit(1, 6)]

  /** Both pending, or the accept alone, just before the accept writes. */
  function BothReady(): Sys {
    Idle(OneOffer()).(txs := map[0 := DECLINING, 1 := ACCEPTING], locks := map[0 := 1])
  }

  function AcceptReady(): Sys {
    Idle(OneOffer()).(txs := map[1 := ACCEPTING], locks := map[0 := 1])
  }

  lemma SingleCourseIsUnique(courses: seq<Course>)
    requires |courses| == 1
    ensures Constraints(courses)
  {
  }

  /** The steps of the accept up to its commit, whatever else is pending. */
  lemma AcceptGetsReady(s: Sys)
    requires s.db == OneOffer() && 0 !in s.locks && 1 in s.txs && s.txs[1] == Tx(ACCEPT_IT, WILLING, Started)
    ensures FireAll(s, ACCEPT_CHECKS) == s.(txs := s.txs[1 := ACCEPTING], locks := s.locks[0 := 1])
  {
    FireThree(s, Lock(1), ReadRows(1), CheckCourier(1));
    AcceptReads(s);
    var s2 := Fire(Fire(s, Lock(1)), ReadRows(1));
    assert !IsEngaged(s2.db.courses, 0);
  }

  lemma AcceptReads(s: Sys)
    requires s.db == OneOffer() && 0 !in s.locks && 1 in s.txs && s.txs[1] == Tx(ACCEPT_IT, WILLING, Started)
    ensures Fire(Fire(s, Lock(1)), ReadRows(1)) == s.(txs := s.txs[1 := Tx(ACCEPT_IT, WILLING, Read(Offered, Ready))], locks := s.locks[0 := 1])
  {
    var s1 := Fire(s, Lock(1));
    assert s1 == s.(txs := s.txs[1 := Tx(ACCEPT_IT, WILLING, Holding)], locks := s.locks[0 := 1]);
  }

  lemma BothGetReady()
    ensures FireAll(Idle(OneOffer()), BOTH_BEGIN + ACCEPT_CHECKS) == BothReady()
  {
    var s := Idle(OneOffer());
    FireTwo(s, BOTH_BEGIN[0], BOTH_BEGIN[1]);
    var s1 := Fire(s, BOTH_BEGIN[0]);
    assert s1 == s.(txs := map[0 := DECLINING]);
    AcceptGetsReady(FireAll(s, BOTH_BEGIN));
    FireSplit(s, BOTH_BEGIN, ACCEPT_CHECKS);
  }

  lemma AcceptAloneGetsReady()
    ensures FireAll(Idle(OneOffer()), ACCEPT_BEGINS + ACCEPT_CHECKS) == AcceptReady()
  {
    var s := Idle(OneOffer());
    FireTwo(s, ACCEPT_BEGINS[0], ACCEPT_BEGINS[0]);
    AcceptGetsReady(FireAll(s, ACCEPT_BEGINS));
    FireSplit(s, ACCEPT_BEGINS, ACCEPT_CHECKS);
  }

  /** An accept that read an offer commits, whatever the course has become. */
  lemma AcceptCommits(s: Sys, course: Course, now: int)
    requires s.db == OneOffer().(courses := [course]) && course.order == 0 && course.courier == 0
    requires 1 in s.txs && s.txs[1] == ACCEPTING
    ensures var end := Fire(s, Commit(1, now));
            && end.effects == s.effects + [Effect(ACCEPT_IT, 0, course.status, Accepted)]
            && end.txs == s.txs - {1} && |end.db.courses| == 1
            && end.db == s.db.(courses := end.db.courses)
            && end.db.courses[0] == course.(status := Accepted, acceptedAt := Some(now), fee := end.db.courses[0].fee)
            && end.db.courses[0].fee.Some?
  {
    SingleCourseIsUnique(s.db.courses[0 := Taken(s.db, 0, 70, now)]);
    assert Accepted in DELIVERY_MACHINE[Offered];
  }

  lemma DeclineCommits(s: Sys, course: Course, now: int)
    requires s.db == OneOffer().(courses := [course]) && course.order == 0 && course.courier == 0
    requires 0 in s.txs && s.txs[0] == DECLINING && !RowHeld(s, 0)
    ensures Fire(s, Commit(0, now))
            == Ended(s, 0).(db := s.db.(courses := [course.(status := Declined, reason := "")]),
                            effects := s.effects + [Effect(DECLINE_IT, 0, course.status, Declined)])
  {
    SingleCourseIsUnique(s.db.courses[0 := course.(status := Declined, reason := "")]);
    assert Declined in DELIVERY_MACHINE[Offered];
    assert s.db.courses[0 := course.(status := Declined, reason := "")] == [course.(status := Declined, reason := "")];
  }

  lemma LateDeclineEnds()
    ensures var end := FireAll(BothReady(), DECLINE_LAST);
            && end.effects == [Effect(ACCEPT_IT, 0, Offered, Accepted), Effect(DECLINE_IT, 0, Accepted, Declined)]
            && !FeesWellKept(end.db.courses)
  {
    var s := BothReady();
    FireTwo(s, Commit(1, 5), Commit(0, 6));
    AcceptCommits(s, NewCourse(0, 0, 0), 5);
    var s1 := Fire(s, Commit(1, 5));
    assert s1.db.courses == [s1.db.courses[0]];
    DeclineCommits(s1, s1.db.courses[0], 6);
    var end := Fire(s1, Commit(0, 6));
    assert end.db.courses[0] in end.db.courses;
  }

  lemma EarlyDeclineEnds()
    ensures FireAll(AcceptReady(), DECLINE_BETWEEN).effects
            == [Effect(DECLINE_IT, 0, Offered, Declined), Effect(ACCEPT_IT, 0, Declined, Accepted)]
  {
    var s := AcceptReady();
    FireThree(s, DECLINE_BETWEEN[0], Commit(0, 5), Commit(1, 6));
    var s1 := Fire(s, DECLINE_BETWEEN[0]);
    assert s1 == s.(txs := s.txs[0 := DECLINING]);
    DeclineCommits(s1, NewCourse(0, 0, 0), 5);
    var s2 := Fire(s1, Commit(0, 5));
    assert s2.txs == map[1 := ACCEPTING];
    AcceptCommits(s2, NewCourse(0, 0, 0).(status := Declined), 6);
  }

  /** Without the lock and the second reading, a late `decline` ends an accepted
      course (a transition the machine refuses) and leaves its fee frozen on it. */
  lemma LateDeclineEndsAnAcceptedCourse()
    ensures Inv(OneOffer()) && !Edge(DELIVERY_MACHINE, Accepted, Declined)
    ensures var end := FireAll(Idle(OneOffer()), BOTH_BEGIN + ACCEPT_CHECKS + DECLINE_LAST);
            && end.effects == [Effect(ACCEPT_IT, 0, Offered, Accepted), Effect(DECLINE_IT, 0, Accepted, Declined)]
            && !FeesWellKept(end.db.courses)
  {
    OneOfferIsSound();
    BothGetReady();
    LateDeclineEnds();
    FireSplit(Idle(OneOffer()), BOTH_BEGIN + ACCEPT_CHECKS, DECLINE_LAST);
  }

  /** ... and an early one is overwritten: `accept` revives a declined course. */
  lemma AcceptRevivesADeclinedCourse()
    ensures !Edge(DELIVERY_MACHINE, Declined, Accepted)
    ensures FireAll(Idle(OneOffer()), ACCEPT_BEGINS + ACCEPT_CHECKS + DECLINE_BETWEEN).effects
            == [Effect(DECLINE_IT, 0, Offered, Declined), Effect(ACCEPT_IT, 0, Declined, Accepted)]
  {
    AcceptAloneGetsReady();
    EarlyDeclineEnds();
    FireSplit(Idle(OneOffer()), ACCEPT_BEGINS + ACCEPT_CHECKS, DECLINE_BETWEEN);
  }
}

/** The instants written on courses (apps/delivery/models.py): over any run whose
    clocks do not go back they are in order, each is there exactly when its step was
    taken, and none ever changes. */
module DeliveryClock {
  import opened Wrappers
  import opened StateMachines
  import opened DeliveryStates
  import opened DeliveryWorld
  import opened DeliveryInvariants
  import opened DeliveryHistory
  import opened DeliveryRules
  import opened Dispatch

  predicate NotAfter(a: Option<int>, b: Option<int>) {
    a.Some? && b.Some? ==> a.value <= b.value
  }

  /** Offered, accepted, picked up, delivered: in that order, wherever present. */
  predicate InOrder(a: Course) {
    && NotAfter(Some(a.offeredAt), a.acceptedAt) && NotAfter(Some(a.offeredAt), a.pickedUpAt)
    && NotAfter(a.acceptedAt, a.pickedUpAt) && NotAfter(a.pickedUpAt, a.deliveredAt)
  }

  /** The last two instants are there exactly when their step was taken, and the
      second when there is a frozen fee. */
  predicate StampedAsTaken(a: Course) {
    && (a.pickedUpAt.Some? <==> a.status == PickedUp || a.status == OnTheWay || a.status == Delivered)
    && (a.deliveredAt.Some? <==> a.status == Delivered)
    && (a.acceptedAt.Some? <==> a.fee.Some?)
    && (a.acceptedAt.Some? ==> a.status != Offered)
  }

  predicate Past(a: Course, now: int) {
    a.offeredAt <= now && NotAfter(a.acceptedAt, Some(now)) && NotAfter(a.pickedUpAt, Some(now)) && NotAfter(a.deliveredAt, Some(now))
  }

  predicate WellTimed(a: Course, now: int) {
    InOrder(a) && StampedAsTaken(a) && Past(a, now)
  }

  ghost predicate Timed(w: World, now: int) {
    forall i :: 0 <= i < |w.courses| ==> WellTimed(w.courses[i], now)
  }

  /** What was stamped stays as it was. */
  predicate StampsStay(a: Course, b: Course) {
    && b.order == a.order && b.courier == a.courier && b.offeredAt == a.offeredAt
    && (a.acceptedAt.Some? ==> b.acceptedAt == a.acceptedAt)
    && (a.pickedUpAt.Some? ==> b.pickedUpAt == a.pickedUpAt)
    && (a.deliveredAt.Some? ==> b.deliveredAt == a.deliveredAt)
  }

  ghost predicate AllStay(before: seq<Course>, after: seq<Course>) {
    |before| <= |after| && forall i :: 0 <= i < |before| ==> StampsStay(before[i], after[i])
  }

  /** The clock a call reads, if any. */
  function ClockOf(op: Op): Option<int> {
    match op
    case DoOffer(_, _, now) => Some(now)
    case DoAccept(_, _, _, now) => Some(now)
    case DoTransition(_, _, _, now) => Some(now)
    case _ => None
  }

  /** The last clock read, or the one a run starts at. */
  function Now(ops: seq<Op>, start: int): int {
    if ops == [] then start
    else if ClockOf(ops[|ops| - 1]).Some? then ClockOf(ops[|ops| - 1]).value
    else Now(ops[..|ops| - 1], start)
  }

  ghost predicate ClocksGoOn(ops: seq<Op>, start: int) {
    forall k :: 0 <= k < |ops| && ClockOf(ops[k]).Some? ==> Now(ops[..k], start) <= ClockOf(ops[k]).value
  }

  lemma Later(a: Course, before: int, now: int)
    requires WellTimed(a, before) && before <= now
    ensures WellTimed(a, now)
  {
  }

  /** One course becomes another, which is in time if it was. */
  lemma OneMoves(w: World, v: World, i: nat, before: int, now: int)
    requires Timed(w, before) && before <= now && OnlyCourse(w, v, i)
    requires WellTimed(v.courses[i], now) && StampsStay(w.courses[i], v.courses[i])
    ensures Timed(v, now) && AllStay(w.courses, v.courses)
  {
    forall j | 0 <= j < |v.courses| ensures WellTimed(v.courses[j], now) && StampsStay(w.courses[j], v.courses[j]) {
      if j != i { Later(w.courses[j], before, now); }
    }
  }

  lemma NobodyMoves(w: World, v: World, before: int, now: int)
    requires Timed(w, before) && before <= now && v.courses == w.courses
    ensures Timed(v, now) && AllStay(w.courses, v.courses)
  {
    forall j | 0 <= j < |v.courses| ensures WellTimed(v.courses[j], now) {
      Later(w.courses[j], before, now);
    }
  }

  lemma OfferInTime(w: World, order: nat, courier: nat, before: int, now: int)
    requires Timed(w, before) && before <= now
    ensures var v := Offer(w, order, courier, now).0; Timed(v, now) && AllStay(w.courses, v.courses)
  {
    var (v, r) := Offer(w, order, courier, now);
    if r.Success? {
      OfferedCourse(w, order, courier, now);
      forall j | 0 <= j < |w.courses| ensures WellTimed(v.courses[j], now) {
        Later(w.courses[j], before, now);
      }
    } else {
      NobodyMoves(w, v, before, now);
    }
  }

  lemma AcceptInTime(w: World, course: nat, courier: nat, share: nat, before: int, now: int)
    requires Timed(w, before) && before <= now
    ensures var v := Accept(w, course, courier, share, now).0; Timed(v, now) && AllStay(w.courses, v.courses)
  {
    var (v, r) := Accept(w, course, courier, share, now);
    if r.Success? {
      assert WellTimed(w.courses[course], before);
      OneMoves(w, v, course, before, now);
    } else {
      NobodyMoves(w, v, before, now);
    }
  }

  lemma TransitionInTime(w: World, course: nat, target: DeliveryStatus, reason: string, before: int, now: int)
    requires Timed(w, before) && before <= now
    ensures var v := TransitionTo(w, course, target, reason, now).0; Timed(v, now) && AllStay(w.courses, v.courses)
  {
    var (v, r) := TransitionTo(w, course, target, reason, now);
    if r.Success? && w.courses[course].status != target {
      TransitionMeaning(w, course, target, reason, now);
      TransitionWrites(w, course, target, reason, now);
      TransitionShape(w, course, target, reason, now);
      assert WellTimed(w.courses[course], before);
      StampInTime(w.courses[course], target, reason, before, now);
      OneMoves(w, w.(courses := v.courses), course, before, now);
    } else {
      NobodyMoves(w, v, before, now);
    }
  }

  lemma StampInTime(a: Course, target: DeliveryStatus, reason: string, before: int, now: int)
    requires WellTimed(a, before) && before <= now && target in DELIVERY_MACHINE[a.status]
    ensures WellTimed(Stamp(a, target, reason, now), now) && StampsStay(a, Stamp(a, target, reason, now))
  {
  }

  lemma CloseInTime(a: Course, order: nat, reason: string, now: int)
    requires WellTimed(a, now)
    ensures WellTimed(CloseOne(a, order, reason), now) && StampsStay(a, CloseOne(a, order, reason))
  {
  }

  lemma MoveInTime(w: World, order: nat, target: OrderStatus, now: int)
    requires Timed(w, now)
    ensures var v := MoveOrder(w, order, target).0; Timed(v, now) && AllStay(w.courses, v.courses)
  {
    var v := MoveOrder(w, order, target).0;
    forall j | 0 <= j < |w.courses| ensures |v.courses| == |w.courses| && WellTimed(v.courses[j], now) && StampsStay(w.courses[j], v.courses[j]) {
      CloseInTime(w.courses[j], order, CANCELLED_ORDER_REASON, now);
    }
  }

  lemma DeclinedInTime(w: World, v: World, i: nat, reason: string, now: int)
    requires Timed(w, now) && i < |w.courses| && w.courses[i].status == Offered
    requires v == w.(courses := w.courses[i := w.courses[i].(status := Declined, reason := reason)])
    ensures Timed(v, now) && AllStay(w.courses, v.courses)
  {
    assert WellTimed(w.courses[i], now);
    OneMoves(w, v, i, now, now);
  }

  lemma StepInTime(w: World, op: Op, before: int)
    requires Timed(w, before) && (ClockOf(op).Some? ==> before <= ClockOf(op).value)
    ensures Timed(Step(w, op), Now([op], before)) && AllStay(w.courses, Step(w, op).courses)
  {
    assert [op][..0] == [];
    match op
    case DoOffer(order, courier, now) => OfferInTime(w, order, courier, before, now);
    case DoAccept(course, courier, share, now) => AcceptInTime(w, course, courier, share, before, now);
    case DoTransition(course, target, reason, now) => TransitionInTime(w, course, target, reason, before, now);
    case DoMoveOrder(order, target) => MoveInTime(w, order, target, before);
    case DoDecline(course, courier, reason) =>
      if Step(w, op) != w { DeclinedInTime(w, Step(w, op), course, reason, before); }
    case DoExpire(course) =>
      if Step(w, op) != w { DeclinedInTime(w, Step(w, op), course, EXPIRED_OFFER_REASON, before); }
    case _ => NobodyMoves(w, Step(w, op), before, before);
  }

  lemma {:induction false} NowOfLast(ops: seq<Op>, start: int)
    requires ops != []
    ensures Now(ops, start) == Now([ops[|ops| - 1]], Now(ops[..|ops| - 1], start))
  {
    assert [ops[|ops| - 1]][..0] == [];
  }

  lemma AllStayOn(a: seq<Course>, b: seq<Course>, c: seq<Course>)
    requires AllStay(a, b) && AllStay(b, c)
    ensures AllStay(a, c)
  {
    forall i | 0 <= i < |a| ensures StampsStay(a[i], c[i]) {
      assert StampsStay(a[i], b[i]) && StampsStay(b[i], c[i]);
    }
  }

  /** Over any run whose clocks do not go back: the instants of every course are in
      order and in the past, each is there exactly when its step was taken, and what
      was once stamped stays. */
  lemma {:induction false} StampsInOrder(w: World, ops: seq<Op>, start: int)
    requires Timed(w, start) && ClocksGoOn(ops, start)
    ensures Timed(Run(w, ops), Now(ops, start)) && AllStay(w.courses, Run(w, ops).courses)
  {
    if ops != [] {
      var init, op := ops[..|ops| - 1], ops[|ops| - 1];
      assert ClocksGoOn(init, start) by {
        assert forall k :: 0 <= k < |init| ==> init[..k] == ops[..k];
      }
      StampsInOrder(w, init, start);
      StepInTime(Run(w, init), op, Now(init, start));
      NowOfLast(ops, start);
      AllStayOn(w.courses, Run(w, init).courses, Run(w, ops).courses);
    }
  }

  lemma EmptyWorldIsTimed(autoKitchens: set<nat>, start: int)
    ensures Timed(EmptyWorld(autoKitchens), start)
  {
  }

  // -------------------------------------------------------------- how long an offer lives

  lemma OfferedAtStays(w: World, op: Op)
    ensures |w.courses| <= |Step(w, op).courses|
    ensures forall i :: 0 <= i < |w.courses| ==> Step(w, op).courses[i].offeredAt == w.courses[i].offeredAt
  {
    if op.DoTransition? && TransitionTo(w, op.course, op.target, op.reason, op.now).1.Success? {
      TransitionMeaning(w, op.course, op.target, op.reason, op.now);
      if w.courses[op.course].status != op.target { TransitionShape(w, op.course, op.target, op.reason, op.now); }
    }
  }

  lemma {:induction false} OfferedAtIsForever(w: World, ops: seq<Op>, i: nat)
    requires i < |w.courses|
    ensures i < |Run(w, ops).courses| && Run(w, ops).courses[i].offeredAt == w.courses[i].offeredAt
  {
    if ops != [] {
      OfferedAtIsForever(w, ops[..|ops| - 1], i);
      OfferedAtStays(Run(w, ops[..|ops| - 1]), ops[|ops| - 1]);
    }
  }

  /** A fresh offer of a dispatching kitchen is stale for a limit exactly when the limit
      is after the instant it was made at. */
  lemma FreshOfferIsStaleIff(w: World, order: nat, courier: nat, now: int, limit: int)
    requires Offer(w, order, courier, now).1.Success? && order in w.orders && w.orders[order].kitchen in w.autoKitchens
    ensures var (v, r) := Offer(w, order, courier, now); IsStale(v, r.value, limit) <==> now < limit
  {
    OfferedCourse(w, order, courier, now);
  }

  /** An offer made at `now` is closed by no expiry round whose limit is at most `now`,
      whatever happened in between. */
  lemma NoRoundClosesItEarly(w: World, order: nat, courier: nat, now: int, ops: seq<Op>, stale: seq<nat>, limit: int)
    requires Inv(w) && Offer(w, order, courier, now).1.Success? && limit <= now && Distinct(stale)
    requires var u := Run(Offer(w, order, courier, now).0, ops); forall i :: i in stale ==> IsStale(u, i, limit)
    ensures var (v, r) := Offer(w, order, courier, now);
            var u := Run(v, ops);
            && r.value < |u.courses| && r.value !in stale
            && r.value < |ExpireRound(u, stale).0.courses| && ExpireRound(u, stale).0.courses[r.value] == u.courses[r.value]
  {
    var (v, r) := Offer(w, order, courier, now);
    OfferedCourse(w, order, courier, now);
    OfferedAtIsForever(v, ops, r.value);
    OfferKeeps(w, order, courier, now);
    RunKeeps(v, ops);
    ExpireRoundCloses(Run(v, ops), stale);
  }
}

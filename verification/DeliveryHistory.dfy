/** What whole runs of the delivery protocol cannot do. */
module DeliveryHistory {
  import opened Wrappers
  import opened Rounding
  import opened Moneys
  import opened StateMachines
  import opened DeliveryStates
  import opened DeliveryWorld
  import opened DeliveryInvariants

  // ------------------------------------------------- reading the invariant aloud

  /** A delivered course means a delivered order, two courses of one order never
      both leave the kitchen, and a cancelled order leaves no open course. */
  lemma CourseAndOrderAgree(w: World, i: nat, j: nat)
    requires Inv(w) && i < |w.courses| && j < |w.courses|
    ensures var a, b := w.courses[i], w.courses[j];
            && a.order in w.orders
            && (a.status == Delivered ==> w.orders[a.order].status == OrderDelivered)
            && (w.orders[a.order].status == OrderCancelled ==> Terminal(a.status))
            && (i != j && a.order == b.order && PastPickup(a.status) ==> !PastPickup(b.status))
  {
    assert w.courses[i] in w.courses && w.courses[j] in w.courses;
    assert PastPickup(Delivered);
  }

  /** The courier's counters are the courses themselves: deliveries, frozen fees
      of deliveries, and courses struck off by `transition_to` alone. */
  lemma CountersAreCourses(w: World, courier: nat)
    requires Inv(w) && courier in w.couriers
    ensures TallyOf(w.courses, courier) ==
            Tally(w.couriers[courier].completed, w.couriers[courier].cancelled, Earned(w.couriers[courier].earnings))
  {
    assert Balanced(w.courses, courier, w.couriers[courier]);
  }

  lemma StampArrives(a: Course, target: DeliveryStatus, reason: string, now: int)
    ensures var b := Stamp(a, target, reason, now); b.status == target && b.order == a.order && b.courier == a.courier
  {
  }

  lemma RowsStay(w: World, course: nat, target: DeliveryStatus, reason: string, now: int)
    requires TransitionTo(w, course, target, reason, now).1.Success?
    ensures var v := TransitionTo(w, course, target, reason, now).0;
            && v.orders.Keys == w.orders.Keys && v.couriers.Keys == w.couriers.Keys
            && course < |w.courses| && w.courses[course].order in w.orders && w.courses[course].courier in w.couriers
            && TransitionTo(w, course, target, reason, now).1 == Success(course)
            && (w.courses[course].status == target ==> v == w)
  {
  }

  /** Replaying a step that was taken changes nothing and is not an error. */
  lemma ReplayChangesNothing(w: World, course: nat, target: DeliveryStatus, reason: string, now: int, again: string, later: int)
    requires Inv(w) && TransitionTo(w, course, target, reason, now).1.Success?
    ensures var v := TransitionTo(w, course, target, reason, now).0;
            TransitionTo(v, course, target, again, later) == (v, Success(course))
  {
    var v := TransitionTo(w, course, target, reason, now).0;
    if w.courses[course].status != target {
      TransitionShape(w, course, target, reason, now);
    }
    StampArrives(w.courses[course], target, reason, now);
    RowsStay(w, course, target, reason, now);
  }

  // -------------------------------------------------------------------- evolution

  predicate CourseStep(a: Course, b: Course) {
    && b.order == a.order && b.courier == a.courier && b.offeredAt == a.offeredAt
    && (b.status == a.status || Edge(DELIVERY_MACHINE, a.status, b.status))
    && (a.fee.Some? || Engaged(a.status) ==> b.fee == a.fee)
    && (a.struckOff ==> b.struckOff)
  }

  /** A step that projects takes its order along, and a delivery is credited in
      the courier's currency. */
  predicate CarriesOrder(w: World, a: Course, b: Course, after: OrderStatus)
    requires a.order in w.orders && a.courier in w.couriers
  {
    b.status != a.status && PastPickup(b.status) ==>
      && OrderFollows(w.orders[a.order].status, b.status)
      && after == Projection(b.status).value
      && (b.status == Delivered ==> Payable(a, w.couriers[a.courier]))
  }

  predicate Payable(a: Course, c: Courier) {
    a.fee.Some? && c.earnings.Some? ==> a.fee.value.currency == c.earnings.value.currency
  }

  ghost predicate CoursesEvolve(w: World, v: World)
    requires Linked(w)
  {
    && |w.courses| <= |v.courses|
    && (forall i :: 0 <= i < |w.courses| ==> CourseStep(w.courses[i], v.courses[i]))
    && (forall i :: |w.courses| <= i < |v.courses| ==> v.courses[i].status == Offered)
    && (forall i :: 0 <= i < |w.courses| ==>
          w.courses[i] in w.courses && w.courses[i].order in v.orders
          && CarriesOrder(w, w.courses[i], v.courses[i], v.orders[w.courses[i].order].status))
  }

  ghost predicate OrdersEvolve(w: World, v: World) {
    forall o :: o in w.orders ==>
      o in v.orders && (v.orders[o].status == w.orders[o].status || Edge(ORDER_MACHINE, w.orders[o].status, v.orders[o].status))
  }

  ghost predicate PaidBy(w: World, v: World, courier: nat, i: nat) {
    i < |w.courses| && i < |v.courses| && w.courses[i].courier == courier
    && w.courses[i].status == OnTheWay && v.courses[i].status == Delivered
  }

  ghost predicate CourierEvolves(w: World, v: World, c: nat)
    requires c in w.couriers && c in v.couriers
  {
    && (v.couriers[c].file == w.couriers[c].file || Edge(VERIFICATION_MACHINE, w.couriers[c].file, v.couriers[c].file))
    && (v.couriers[c].earnings == w.couriers[c].earnings || exists i :: PaidBy(w, v, c, i))
  }

  ghost predicate Evolves(w: World, v: World)
    requires Linked(w)
  {
    && CoursesEvolve(w, v)
    && OrdersEvolve(w, v)
    && (forall c :: c in w.couriers ==> c in v.couriers && CourierEvolves(w, v, c))
  }

  lemma CoursesStill(w: World, v: World)
    requires Linked(w) && v.courses == w.courses && w.orders.Keys <= v.orders.Keys
    ensures CoursesEvolve(w, v)
  {
  }

  lemma OneCourseMoves(w: World, v: World, i: nat, b: Course)
    requires Linked(w) && i < |w.courses| && v.courses == w.courses[i := b] && w.orders.Keys <= v.orders.Keys
    requires w.courses[i] in w.courses && CourseStep(w.courses[i], b)
    requires CarriesOrder(w, w.courses[i], b, v.orders[w.courses[i].order].status)
    ensures CoursesEvolve(w, v)
  {
  }

  /** One course moves by itself: no order, no courier. */
  lemma CourseAloneEvolves(w: World, v: World, i: nat, b: Course)
    requires Linked(w) && i < |w.courses| && v == w.(courses := w.courses[i := b])
    requires CourseStep(w.courses[i], b) && (PastPickup(b.status) ==> b.status == w.courses[i].status)
    ensures Evolves(w, v)
  {
    assert w.courses[i] in w.courses;
    OneCourseMoves(w, v, i, b);
  }

  lemma AcceptEvolves(w: World, course: nat, courier: nat, share: nat, now: int)
    requires Linked(w) && FeesWellKept(w.courses)
    ensures Evolves(w, Accept(w, course, courier, share, now).0)
  {
    var (v, r) := Accept(w, course, courier, share, now);
    if r.Success? {
      assert FeeWellKept(w.courses[course]) by { assert w.courses[course] in w.courses; }
      CourseAloneEvolves(w, v, course, v.courses[course]);
    } else {
      CoursesStill(w, v);
    }
  }

  lemma DeclineEvolves(w: World, course: nat, courier: nat, reason: string)
    requires Linked(w) && FeesWellKept(w.courses) && course < |w.courses|
    ensures Evolves(w, Decline(w, course, w.courses[course], courier, reason).0)
  {
    var (v, r) := Decline(w, course, w.courses[course], courier, reason);
    if r.Success? {
      CourseAloneEvolves(w, v, course, v.courses[course]);
    } else {
      CoursesStill(w, v);
    }
  }

  lemma ExpireEvolves(w: World, course: nat)
    requires Linked(w) && FeesWellKept(w.courses)
    ensures Evolves(w, Expire(w, course).0)
  {
    var (v, closed) := Expire(w, course);
    if closed {
      CourseAloneEvolves(w, v, course, v.courses[course]);
    } else {
      CoursesStill(w, v);
    }
  }

  lemma TransitionCarries(w: World, course: nat, target: DeliveryStatus, reason: string, now: int)
    requires Linked(w) && FeesWellKept(w.courses) && course < |w.courses| && w.courses[course] in w.courses
    requires w.courses[course].status != target && TransitionTo(w, course, target, reason, now).1.Success?
    ensures var v, a := TransitionTo(w, course, target, reason, now).0, w.courses[course];
            && v.courses == w.courses[course := Stamp(a, target, reason, now)]
            && v.orders.Keys == w.orders.Keys && v.couriers.Keys == w.couriers.Keys
            && CourseStep(a, Stamp(a, target, reason, now))
            && CarriesOrder(w, a, Stamp(a, target, reason, now), v.orders[a.order].status)
  {
    assert FeeWellKept(w.courses[course]);
  }

  lemma TransitionMovesRows(w: World, course: nat, target: DeliveryStatus, reason: string, now: int)
    requires Linked(w) && course < |w.courses| && w.courses[course] in w.courses
    requires w.courses[course].status != target && TransitionTo(w, course, target, reason, now).1.Success?
    ensures var v := TransitionTo(w, course, target, reason, now).0;
            OrdersEvolve(w, v) && forall c :: c in w.couriers ==> c in v.couriers && CourierEvolves(w, v, c)
  {
    var v, a := TransitionTo(w, course, target, reason, now).0, w.courses[course];
    if target == Delivered {
      assert PaidBy(w, v, a.courier, course);
    }
  }

  lemma TransitionEvolves(w: World, course: nat, target: DeliveryStatus, reason: string, now: int)
    requires Linked(w) && FeesWellKept(w.courses)
    ensures Evolves(w, TransitionTo(w, course, target, reason, now).0)
  {
    var (v, r) := TransitionTo(w, course, target, reason, now);
    if r.Success? && w.courses[course].status != target {
      assert w.courses[course] in w.courses;
      TransitionCarries(w, course, target, reason, now);
      TransitionMovesRows(w, course, target, reason, now);
      OneCourseMoves(w, v, course, v.courses[course]);
    } else {
      CoursesStill(w, v);
    }
  }

  lemma ClosingIsAStep(a: Course, order: nat, reason: string)
    ensures CourseStep(a, CloseOne(a, order, reason)) && (PastPickup(CloseOne(a, order, reason).status) ==> CloseOne(a, order, reason) == a)
  {
  }

  lemma ClosingEvolves(w: World, v: World, order: nat, reason: string)
    requires Linked(w) && v.courses == CloseOpen(w.courses, order, reason) && w.orders.Keys <= v.orders.Keys
    ensures CoursesEvolve(w, v)
  {
    forall i | 0 <= i < |w.courses|
      ensures CourseStep(w.courses[i], v.courses[i]) && w.courses[i] in w.courses && w.courses[i].order in v.orders
              && CarriesOrder(w, w.courses[i], v.courses[i], v.orders[w.courses[i].order].status)
    {
      assert w.courses[i] in w.courses;
      ClosingIsAStep(w.courses[i], order, reason);
    }
  }

  lemma MoveOrderEvolves(w: World, order: nat, target: OrderStatus)
    requires Linked(w) && FeesWellKept(w.courses)
    ensures Evolves(w, MoveOrder(w, order, target).0)
  {
    var (v, r) := MoveOrder(w, order, target);
    if r.Success? && w.orders[order].status != target && target == OrderCancelled {
      ClosingEvolves(w, v, order, CANCELLED_ORDER_REASON);
    } else {
      CoursesStill(w, v);
    }
  }

  lemma OneCourseMore(w: World, v: World, a: Course)
    requires Linked(w) && v.courses == w.courses + [a] && a.status == Offered && v.orders == w.orders
    ensures CoursesEvolve(w, v)
  {
    forall i | 0 <= i < |w.courses| ensures v.courses[i] == w.courses[i] && w.courses[i] in w.courses {
    }
    forall i | |w.courses| <= i < |v.courses| ensures v.courses[i] == a {
    }
  }

  lemma OfferEvolves(w: World, order: nat, courier: nat, now: int)
    requires Linked(w) && FeesWellKept(w.courses)
    ensures Evolves(w, Offer(w, order, courier, now).0)
  {
    var (v, r) := Offer(w, order, courier, now);
    if r.Success? {
      OneCourseMore(w, v, NewCourse(order, courier, now));
    } else {
      CoursesStill(w, v);
    }
  }

  lemma CourierRowEvolves(w: World, courier: nat, c: Courier)
    requires Linked(w) && FeesWellKept(w.courses) && courier in w.couriers
    requires c.file == w.couriers[courier].file || Edge(VERIFICATION_MACHINE, w.couriers[courier].file, c.file)
    requires c.earnings == w.couriers[courier].earnings
    ensures Evolves(w, WithCourier(w, courier, c))
  {
    CoursesStill(w, WithCourier(w, courier, c));
  }

  lemma CourierCallEvolves(w: World, op: Op)
    requires Linked(w) && FeesWellKept(w.courses)
    requires op.DoReview? || op.DoSetOnline? || op.DoReplaceDocuments? || op.SetAccount? || op.SetZones?
    ensures Evolves(w, Step(w, op))
  {
    var v := Step(w, op);
    CoursesStill(w, w);
    if op.courier in w.couriers && v != w {
      assert v == WithCourier(w, op.courier, v.couriers[op.courier]);
      CourierRowEvolves(w, op.courier, v.couriers[op.courier]);
    }
  }

  lemma CourseCallEvolves(w: World, op: Op)
    requires Linked(w) && FeesWellKept(w.courses)
    requires op.DoOffer? || op.DoAccept? || op.DoDecline? || op.DoExpire? || op.DoTransition?
    ensures Evolves(w, Step(w, op))
  {
    match op
    case DoOffer(order, courier, now) => OfferEvolves(w, order, courier, now);
    case DoAccept(course, courier, share, now) => AcceptEvolves(w, course, courier, share, now);
    case DoDecline(course, courier, reason) =>
      if course < |w.courses| { DeclineEvolves(w, course, courier, reason); } else { CoursesStill(w, w); }
    case DoExpire(course) => ExpireEvolves(w, course);
    case DoTransition(course, target, reason, now) => TransitionEvolves(w, course, target, reason, now);
  }

  lemma ArrivalEvolves(w: World, op: Op)
    requires Linked(w) && (op.PlaceOrder? || op.Enrol?)
    ensures Evolves(w, Step(w, op))
  {
    CoursesStill(w, Step(w, op));
  }

  /** Every call moves every course, order and file at most one legal step, adds
      only offers, and leaves frozen fees alone. */
  lemma StepEvolves(w: World, op: Op)
    requires Inv(w)
    ensures Evolves(w, Step(w, op))
  {
    match op
    case DoMoveOrder(order, target) => MoveOrderEvolves(w, order, target);
    case PlaceOrder(_, _) => ArrivalEvolves(w, op);
    case Enrol(_, _) => ArrivalEvolves(w, op);
    case DoOffer(_, _, _) => CourseCallEvolves(w, op);
    case DoAccept(_, _, _, _) => CourseCallEvolves(w, op);
    case DoDecline(_, _, _) => CourseCallEvolves(w, op);
    case DoExpire(_) => CourseCallEvolves(w, op);
    case DoTransition(_, _, _, _) => CourseCallEvolves(w, op);
    case _ => CourierCallEvolves(w, op);
  }

  ghost predicate CourseLater(a: Course, b: Course) {
    && b.order == a.order && b.courier == a.courier
    && (b.status == a.status || Reaches(DELIVERY_MACHINE, a.status, b.status))
    && (a.fee.Some? ==> b.fee == a.fee)
  }

  ghost predicate OrderLater(s: OrderStatus, t: OrderStatus) {
    s == t || Reaches(ORDER_MACHINE, s, t)
  }

  ghost predicate Later(w: World, v: World) {
    && |w.courses| <= |v.courses|
    && (forall i :: 0 <= i < |w.courses| ==> CourseLater(w.courses[i], v.courses[i]))
    && (forall o :: o in w.orders ==> o in v.orders && OrderLater(w.orders[o].status, v.orders[o].status))
  }

  lemma LaterStep(w: World, v: World, u: World)
    requires Linked(v) && Later(w, v) && Evolves(v, u)
    ensures Later(w, u)
  {
    forall i | 0 <= i < |w.courses| ensures CourseLater(w.courses[i], u.courses[i]) {
      assert CourseStep(v.courses[i], u.courses[i]);
      if u.courses[i].status != v.courses[i].status {
        ReachesStep(DELIVERY_MACHINE, w.courses[i].status, v.courses[i].status, u.courses[i].status);
      }
    }
    forall o | o in w.orders ensures o in u.orders && OrderLater(w.orders[o].status, u.orders[o].status) {
      if u.orders[o].status != v.orders[o].status {
        ReachesStep(ORDER_MACHINE, w.orders[o].status, v.orders[o].status, u.orders[o].status);
      }
    }
  }

  /** Along a run every course and order only goes forward in its machine, and a
      fee once frozen is frozen for good. */
  lemma {:induction false} RunEvolves(w: World, ops: seq<Op>)
    requires Inv(w)
    ensures Later(w, Run(w, ops))
  {
    if ops != [] {
      var init := ops[..|ops| - 1];
      RunEvolves(w, init);
      RunKeeps(w, init);
      StepEvolves(Run(w, init), ops[|ops| - 1]);
      LaterStep(w, Run(w, init), Run(w, ops));
    }
  }

  lemma {:induction false} RunConcat(w: World, first: seq<Op>, next: seq<Op>)
    ensures Run(w, first + next) == Run(Run(w, first), next)
  {
    if next == [] {
      assert first + next == first;
    } else {
      var init := next[..|next| - 1];
      assert (first + next)[..|first + next| - 1] == first + init;
      RunConcat(w, first, init);
    }
  }

  /** A status left is never entered again: in particular no course is delivered,
      and so credited, twice. */
  lemma NeverReenters(w: World, first: seq<Op>, next: seq<Op>, i: nat)
    requires Inv(w) && i < |w.courses|
    ensures i < |Run(w, first).courses| && i < |Run(w, first + next).courses|
    ensures Run(w, first).courses[i].status != w.courses[i].status ==>
              Run(w, first + next).courses[i].status != w.courses[i].status
  {
    RunConcat(w, first, next);
    RunEvolves(w, first);
    RunKeeps(w, first);
    var v := Run(w, first);
    RunEvolves(v, next);
    var u := Run(v, next);
    assert CourseLater(w.courses[i], v.courses[i]) && CourseLater(v.courses[i], u.courses[i]);
    ReachesRaisesRank(w.courses[i].status, v.courses[i].status);
    ReachesRaisesRank(v.courses[i].status, u.courses[i].status);
  }

  lemma ReachesRaisesRank(s: DeliveryStatus, t: DeliveryStatus)
    ensures Reaches(DELIVERY_MACHINE, s, t) ==> CourseRank(s) < CourseRank(t)
  {
    if Reaches(DELIVERY_MACHINE, s, t) {
      var p :| WalkBetween(DELIVERY_MACHINE, p, s, t);
      WalkRaisesRank(DELIVERY_MACHINE, CourseRank, p);
    }
  }

  // --------------------------------------------- the door that `accept` does not guard

  /** `transition_to` takes `accepted` as a target: a courier who may not take
      orders is engaged all the same, and no fee is frozen. */
  lemma TransitionAcceptsTheIneligible(w: World, course: nat, now: int)
    requires Inv(w) && course < |w.courses|
    requires w.courses[course].status == Offered
    ensures var (v, r) := TransitionTo(w, course, Accepted, "", now);
            && (r.Success? <==> !IsEngaged(w.courses, w.courses[course].courier))
            && (r.Success? ==> v.courses[course].status == Accepted && v.courses[course].fee == None)
            && (r.Failure? ==> r.error == IntegrityError && v == w)
  {
    var a := w.courses[course];
    assert a in w.courses && InStep(a, w.orders[a.order].status);
    var b := a.(status := Accepted);
    var courses := w.courses[course := b];
    if IsEngaged(w.courses, a.courier) {
      var i :| 0 <= i < |w.courses| && w.courses[i].courier == a.courier && Engaged(w.courses[i].status);
      assert courses[i].courier == courses[course].courier && i != course;
      assert !OneEngagedPerCourier(courses);
    } else {
      assert OneEngagedPerCourier(courses);
      assert OneActivePerOrder(courses);
    }
  }

  const WAITING_MEAL := Order(Ready, 0, None, Money(1000, "XOF"), None, 0)
  const SUSPENDED_COURIER := Courier(0, false, Suspended, "", true, {}, map[], 0, 0, None)

  /** An offer pending with a courier suspended since: `accept` refuses them,
      `transition_to` engages them. */
  lemma SuspendedCourierIsEngaged(now: int)
    ensures var w := World(map[0 := WAITING_MEAL], map[0 := SUSPENDED_COURIER], [NewCourse(0, 0, 0)], {});
            && Inv(w) && !CanAcceptOrders(w.couriers[0])
            && Accept(w, 0, 0, 70, now) == (w, Failure(NotEligible))
            && TransitionTo(w, 0, Accepted, "", now).1.Success?
  {
    var w := World(map[0 := WAITING_MEAL], map[0 := SUSPENDED_COURIER], [NewCourse(0, 0, 0)], {});
    assert TallyOf(w.courses, 0) == Tally(0, 0, 0) by {
      assert TallyOf(w.courses[..0], 0) == Tally(0, 0, 0);
    }
    assert Inv(w);
    assert !IsEngaged(w.courses, 0);
    TransitionAcceptsTheIneligible(w, 0, now);
  }

  lemma OtherCallsAcceptNothing(w: World, op: Op, i: nat)
    requires !op.DoAccept? && !op.DoTransition? && i < |w.courses| && i < |Step(w, op).courses|
    requires Step(w, op).courses[i].status == Accepted
    ensures w.courses[i].status == Accepted
  {
  }

  lemma TransitionAccepts(w: World, op: Op, i: nat)
    requires op.DoTransition? && i < |w.courses| && i < |Step(w, op).courses|
    requires FeeWellKept(w.courses[i]) && w.courses[i].status != Accepted && Step(w, op).courses[i].status == Accepted
    ensures op.course == i && op.target == Accepted && w.courses[i].status == Offered && Step(w, op).courses[i].fee == None
  {
  }

  /** The two ways into `accepted`: `accept`, by an eligible courier and with a
      frozen fee, or that door. */
  lemma AcceptedByOneOfTwoDoors(w: World, op: Op, i: nat)
    requires Inv(w) && i < |w.courses| && i < |Step(w, op).courses|
    requires w.courses[i].status != Accepted && Step(w, op).courses[i].status == Accepted
    ensures var a, b := w.courses[i], Step(w, op).courses[i];
            && a.status == Offered && a.courier in w.couriers
            && ((op.DoAccept? && op.course == i && op.courier == a.courier && CanAcceptOrders(w.couriers[a.courier]) && b.fee.Some?)
                || (op.DoTransition? && op.course == i && op.target == Accepted && b.fee == None))
  {
    assert w.courses[i] in w.courses;
    if op.DoTransition? {
      TransitionAccepts(w, op, i);
    } else if !op.DoAccept? {
      OtherCallsAcceptNothing(w, op, i);
    }
  }

  predicate Approves(op: Op, courier: nat) {
    op.DoReview? && op.courier == courier && op.decision == Approved
  }

  lemma FileStaysUnapproved(w: World, op: Op, courier: nat)
    requires courier in w.couriers && w.couriers[courier].file != Approved && !Approves(op, courier)
    ensures courier in Step(w, op).couriers && Step(w, op).couriers[courier].file != Approved
  {
  }

  lemma {:induction false} UnapprovedUntilReviewed(w: World, ops: seq<Op>, courier: nat)
    requires courier in w.couriers && w.couriers[courier].file != Approved
    requires forall k :: 0 <= k < |ops| ==> !Approves(ops[k], courier)
    ensures courier in Run(w, ops).couriers && Run(w, ops).couriers[courier].file != Approved
  {
    if ops != [] {
      UnapprovedUntilReviewed(w, ops[..|ops| - 1], courier);
      FileStaysUnapproved(Run(w, ops[..|ops| - 1]), ops[|ops| - 1], courier);
    }
  }

  predicate WithoutApproval(ops: seq<Op>, courier: nat) {
    forall k :: 0 <= k < |ops| ==> !Approves(ops[k], courier)
  }

  /** New papers on an approved file escape review: the file was approved after the
      instance handed to the call was loaded. */
  predicate PapersEscape(row: Courier, handed: Courier) {
    row.file == Approved && !Reopens(handed.file)
  }

  /** Replacing a paper closes the door until someone approves the file again, in
      every later run, exactly when the file was not approved behind the back of the
      instance the call judged. */
  lemma NewPapersCloseTheDoorIff(w: World, courier: nat, handed: Courier, pieces: set<Piece>)
    requires courier in w.couriers
    ensures var v := ReplaceDocumentsFrom(w, courier, handed, pieces).0;
            (forall ops | WithoutApproval(ops, courier) :: FileIsNotApproved(Run(v, ops), courier)) <==>
            !PapersEscape(w.couriers[courier], handed)
  {
    var v := ReplaceDocumentsFrom(w, courier, handed, pieces).0;
    if PapersEscape(w.couriers[courier], handed) {
      assert WithoutApproval([], courier) && Run(v, []) == v;
      assert !FileIsNotApproved(Run(v, []), courier);
    } else {
      forall ops | WithoutApproval(ops, courier) ensures FileIsNotApproved(Run(v, ops), courier) {
        UnapprovedUntilReviewed(v, ops, courier);
      }
    }
  }

  predicate FileIsNotApproved(w: World, courier: nat) {
    courier in w.couriers && w.couriers[courier].file != Approved
  }

  /** With the door closed, neither `accept` nor `offer` takes the courier. */
  lemma NewPapersCloseTheDoor(w: World, courier: nat, handed: Courier, pieces: set<Piece>, ops: seq<Op>,
                              course: nat, share: nat, order: nat, now: int)
    requires courier in w.couriers && !PapersEscape(w.couriers[courier], handed) && WithoutApproval(ops, courier)
    ensures var v := Run(ReplaceDocumentsFrom(w, courier, handed, pieces).0, ops);
            Accept(v, course, courier, share, now).1.Failure? && Offer(v, order, courier, now).1.Failure?
  {
    UnapprovedUntilReviewed(ReplaceDocumentsFrom(w, courier, handed, pieces).0, ops, courier);
  }

  /** The stale instance can also lift a suspension, which the machine forbids: the
      file moves along the machine, or not at all, exactly unless it was suspended
      since an instance that was approved or rejected was loaded. */
  lemma StalePapersLiftSuspensionIff(w: World, courier: nat, handed: Courier, pieces: set<Piece>)
    requires courier in w.couriers
    ensures var before, after := w.couriers[courier].file, ReplaceDocumentsFrom(w, courier, handed, pieces).0.couriers[courier].file;
            (after == before || Edge(VERIFICATION_MACHINE, before, after)) <==> !(before == Suspended && Reopens(handed.file))
  {
  }

  /** A delivery pays exactly when the course went through `accept`. */
  lemma DeliveryPaysIffAccepted(w: World, course: nat, now: int)
    requires Inv(w) && course < |w.courses| && w.courses[course].status == OnTheWay
    requires TransitionTo(w, course, Delivered, "", now).1.Success?
    ensures var a, v := w.courses[course], TransitionTo(w, course, Delivered, "", now).0;
            var before, after := w.couriers[a.courier], v.couriers[a.courier];
            && after.completed == before.completed + 1
            && (a.acceptedAt == None ==> after.earnings == before.earnings)
            && (a.acceptedAt.Some? ==> a.fee.Some? && Earned(after.earnings) == Earned(before.earnings) + a.fee.value.minor)
  {
    assert FeeWellKept(w.courses[course]) by {
      assert w.courses[course] in w.courses;
    }
  }

  // ----------------------------------------------------------- can it still arrive?

  /** The order is where this course, or its next step, can meet it. */
  predicate OrderInReach(s: DeliveryStatus, o: OrderStatus) {
    match s
    case Accepted => o == Ready || o == OrderPickedUp
    case PickedUp => o == OrderPickedUp || o == OrderOnTheWay
    case OnTheWay => o == OrderOnTheWay || o == OrderDelivered
    case _ => false
  }

  predicate CanFinish(w: World, a: Course)
    requires a.courier in w.couriers && a.order in w.orders
  {
    OrderInReach(a.status, w.orders[a.order].status) && Payable(a, w.couriers[a.courier])
  }

  predicate IsDelivered(w: World, i: nat) {
    i < |w.courses| && w.courses[i].status == Delivered
  }

  predicate Arrives(w: World, i: nat, ops: seq<Op>) {
    IsDelivered(Run(w, ops), i)
  }

  ghost predicate EngagedCourse(w: World, i: nat) {
    i < |w.courses| && w.courses[i] in w.courses && Engaged(w.courses[i].status)
  }

  lemma EngagedStepIsSaved(courses: seq<Course>, i: nat, b: Course)
    requires Constraints(courses) && i < |courses| && Engaged(courses[i].status)
    requires b.order == courses[i].order && b.courier == courses[i].courier
    ensures Constraints(courses[i := b])
  {
  }

  function NextStop(s: DeliveryStatus): DeliveryStatus {
    if s == Accepted then PickedUp else if s == PickedUp then OnTheWay else Delivered
  }

  lemma NextStopIsReached(w: World, i: nat)
    requires Linked(w) && Constraints(w.courses) && EngagedCourse(w, i) && CanFinish(w, w.courses[i])
    requires InStep(w.courses[i], w.orders[w.courses[i].order].status)
    ensures var (v, r) := TransitionTo(w, i, NextStop(w.courses[i].status), "", 0);
            && r.Success? && |v.courses| == |w.courses| && v.courses[i] in v.courses
            && v.courses[i].status == NextStop(w.courses[i].status)
  {
    EngagedStepIsSaved(w.courses, i, Stamp(w.courses[i], NextStop(w.courses[i].status), "", 0));
    var v := TransitionTo(w, i, NextStop(w.courses[i].status), "", 0).0;
    assert v.courses[i] == Stamp(w.courses[i], NextStop(w.courses[i].status), "", 0);
  }

  lemma NextStopLeadsOn(w: World, v: World, i: nat)
    requires Linked(w) && EngagedCourse(w, i) && CanFinish(w, w.courses[i])
    requires v == TransitionTo(w, i, NextStop(w.courses[i].status), "", 0).0
    requires TransitionTo(w, i, NextStop(w.courses[i].status), "", 0).1.Success?
    requires Linked(v) && |v.courses| == |w.courses| && v.courses[i] in v.courses
    ensures StepsOn(w, v, i)
  {
  }

  ghost predicate StepsOn(w: World, v: World, i: nat)
    requires Linked(v) && i < |w.courses|
  {
    && i < |v.courses| && v.courses[i] in v.courses
    && CourseRank(v.courses[i].status) == CourseRank(w.courses[i].status) + 1
    && (v.courses[i].status == Delivered || (EngagedCourse(v, i) && CanFinish(v, v.courses[i])))
  }

  /** A course that can finish takes its next step. */
  lemma NextStopKeeps(w: World, i: nat)
    requires Inv(w) && EngagedCourse(w, i) && CanFinish(w, w.courses[i])
    ensures var v := TransitionTo(w, i, NextStop(w.courses[i].status), "", 0).0; Inv(v) && StepsOn(w, v, i)
  {
    var v := TransitionTo(w, i, NextStop(w.courses[i].status), "", 0).0;
    assert Inv(v) by { TransitionKeeps(w, i, NextStop(w.courses[i].status), "", 0); }
    NextStopIsReached(w, i);
    NextStopLeadsOn(w, v, i);
  }

  lemma RunOne(w: World, op: Op)
    ensures Run(w, [op]) == Step(w, op)
  {
    assert [op][..0] == [];
    assert Run(w, []) == w;
  }

  lemma RunTransition(w: World, i: nat, target: DeliveryStatus)
    ensures Run(w, [DoTransition(i, target, "", 0)]) == TransitionTo(w, i, target, "", 0).0
  {
    RunOne(w, DoTransition(i, target, "", 0));
  }

  lemma {:induction false} FinishPlan(w: World, i: nat) returns (ops: seq<Op>)
    requires Inv(w) && EngagedCourse(w, i) && CanFinish(w, w.courses[i])
    ensures IsDelivered(Run(w, ops), i)
    decreases 4 - CourseRank(w.courses[i].status)
  {
    var next := NextStop(w.courses[i].status);
    var v := TransitionTo(w, i, next, "", 0).0;
    NextStopKeeps(w, i);
    RunTransition(w, i, next);
    ops := [DoTransition(i, next, "", 0)];
    if !IsDelivered(v, i) {
      var rest := FinishPlan(v, i);
      RunConcat(w, ops, rest);
      ops := ops + rest;
    }
  }

  ghost predicate Hopeless(w: World, i: nat)
    requires Linked(w)
  {
    i < |w.courses| && w.courses[i] in w.courses
    && (w.courses[i].status == Cancelled || (Engaged(w.courses[i].status) && !CanFinish(w, w.courses[i])))
  }

  /** While a course is engaged, no other delivery pays its courier. */
  lemma UnpayableStays(w: World, v: World, i: nat)
    requires Linked(w) && OneEngagedPerCourier(w.courses) && EngagedCourse(w, i) && i < |v.courses|
    requires var a := w.courses[i];
             && CourseStep(a, v.courses[i]) && a.order in v.orders
             && CarriesOrder(w, a, v.courses[i], v.orders[a.order].status)
             && a.courier in v.couriers && CourierEvolves(w, v, a.courier)
    requires !Payable(w.courses[i], w.couriers[w.courses[i].courier])
    ensures v.courses[i].status != Delivered
    ensures !Payable(v.courses[i], v.couriers[w.courses[i].courier])
  {
    var courier := w.courses[i].courier;
    if j :| PaidBy(w, v, courier, j) {
      assert j == i;
    }
  }

  /** An order gone past its course stays past it. */
  lemma OvertakenStays(w: World, a: Course, b: Course, after: OrderStatus)
    requires a.order in w.orders && a.courier in w.couriers
    requires CourseStep(a, b) && CarriesOrder(w, a, b, after)
    requires var o := w.orders[a.order].status;
             && InStep(a, o) && InStep(b, after) && (after == o || Edge(ORDER_MACHINE, o, after))
             && Engaged(a.status) && !OrderInReach(a.status, o)
    ensures b.status == Cancelled || (Engaged(b.status) && !OrderInReach(b.status, after))
  {
  }

  /** No call brings a course that cannot finish back in reach: it stays as it
      is, moves on without hope, or is cancelled. */
  lemma HopelessStays(w: World, i: nat, op: Op)
    requires Inv(w) && Hopeless(w, i)
    ensures Inv(Step(w, op)) && Hopeless(Step(w, op), i)
  {
    StepKeeps(w, op);
    StepEvolves(w, op);
    HopelessMoves(w, Step(w, op), i);
  }

  lemma HopelessMoves(w: World, v: World, i: nat)
    requires Linked(w) && Simulates(w) && OneEngagedPerCourier(w.courses) && Hopeless(w, i)
    requires Linked(v) && Simulates(v) && Evolves(w, v)
    ensures Hopeless(v, i)
  {
    var a, b := w.courses[i], v.courses[i];
    assert b in v.courses && CourseStep(a, b) && CarriesOrder(w, a, b, v.orders[a.order].status);
    if a.status != Cancelled {
      assert InStep(a, w.orders[a.order].status) && InStep(b, v.orders[b.order].status);
      if Payable(a, w.couriers[a.courier]) {
        OvertakenStays(w, a, b, v.orders[a.order].status);
      } else {
        UnpayableStays(w, v, i);
      }
    }
  }

  lemma {:induction false} HopelessForever(w: World, i: nat, ops: seq<Op>)
    requires Inv(w) && Hopeless(w, i)
    ensures Inv(Run(w, ops)) && Hopeless(Run(w, ops), i)
  {
    if ops != [] {
      HopelessForever(w, i, ops[..|ops| - 1]);
      HopelessStays(Run(w, ops[..|ops| - 1]), i, ops[|ops| - 1]);
    }
  }

  /** An engaged course can still be delivered exactly when its order is where it
      can be met and its fee is in the courier's currency. */
  lemma CanStillArrive(w: World, i: nat)
    requires Inv(w) && EngagedCourse(w, i)
    ensures CanFinish(w, w.courses[i]) <==> exists ops :: Arrives(w, i, ops)
  {
    if CanFinish(w, w.courses[i]) {
      var plan := FinishPlan(w, i);
      assert Arrives(w, i, plan);
    } else {
      forall ops ensures !Arrives(w, i, ops) {
        HopelessForever(w, i, ops);
      }
    }
  }

  ghost predicate Overtaken(w: World, i: nat)
    requires Linked(w)
  {
    i < |w.courses| && w.courses[i] in w.courses
    && w.courses[i].status == PickedUp && w.orders[w.courses[i].order].status == OrderDelivered
  }

  lemma MovedByHand(w: World, order: nat, target: OrderStatus)
    requires Inv(w) && order in w.orders && target in ORDER_MACHINE[w.orders[order].status] && target != OrderCancelled
    requires target != w.orders[order].status
    ensures var v := Run(w, [DoMoveOrder(order, target)]);
            Inv(v) && v.courses == w.courses && order in v.orders && v.orders[order].status == target
  {
    RunOne(w, DoMoveOrder(order, target));
    MoveOrderKeeps(w, order, target);
  }

  /** Two moves of the order by hand are enough to overtake a course. */
  lemma StaffCanOvertake(w: World, i: nat)
    requires Inv(w) && i < |w.courses| && w.courses[i] in w.courses
    requires w.courses[i].status == PickedUp && w.orders[w.courses[i].order].status == OrderPickedUp
    ensures var order := w.courses[i].order;
            var v := Run(w, [DoMoveOrder(order, OrderOnTheWay)] + [DoMoveOrder(order, OrderDelivered)]);
            Linked(v) && Overtaken(v, i)
  {
    var order := w.courses[i].order;
    MovedByHand(w, order, OrderOnTheWay);
    MovedByHand(Run(w, [DoMoveOrder(order, OrderOnTheWay)]), order, OrderDelivered);
    RunConcat(w, [DoMoveOrder(order, OrderOnTheWay)], [DoMoveOrder(order, OrderDelivered)]);
  }

  lemma OvertakenMoves(w: World, v: World, i: nat)
    requires Linked(w) && Overtaken(w, i) && Linked(v) && Evolves(w, v)
    ensures Overtaken(v, i) && v.courses[i].courier == w.courses[i].courier
  {
    var a, b := w.courses[i], v.courses[i];
    assert b in v.courses && CourseStep(a, b) && CarriesOrder(w, a, b, v.orders[a.order].status);
  }

  lemma {:induction false} OvertakenForever(w: World, i: nat, ops: seq<Op>)
    requires Inv(w) && Overtaken(w, i)
    ensures Inv(Run(w, ops)) && Overtaken(Run(w, ops), i)
    ensures Run(w, ops).courses[i].courier == w.courses[i].courier
  {
    if ops != [] {
      OvertakenForever(w, i, ops[..|ops| - 1]);
      var u, op := Run(w, ops[..|ops| - 1]), ops[|ops| - 1];
      StepKeeps(u, op);
      StepEvolves(u, op);
      OvertakenMoves(u, Step(u, op), i);
    }
  }

  /** If staff deliver the order by hand while its course is still at `picked_up`,
      the course can neither advance nor be cancelled, and its courier is engaged
      for ever: no order whatever can be offered to them again. */
  lemma CourierIsLost(w: World, i: nat, ops: seq<Op>, order: nat, now: int)
    requires Inv(w) && Overtaken(w, i)
    ensures Offer(Run(w, ops), order, w.courses[i].courier, now).1.Failure?
  {
    OvertakenForever(w, i, ops);
    assert IsEngaged(Run(w, ops).courses, w.courses[i].courier);
  }
}

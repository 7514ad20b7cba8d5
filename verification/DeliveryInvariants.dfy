/** What every run of service calls keeps. */
module DeliveryInvariants {
  import opened Wrappers
  import opened Rounding
  import opened Moneys
  import opened StateMachines
  import opened DeliveryStates
  import opened DeliveryWorld

  // --------------------------------------------------------------- the invariant

  ghost predicate Linked(w: World) {
    forall a :: a in w.courses ==> a.order in w.orders && a.courier in w.couriers
  }

  predicate PastPickup(s: DeliveryStatus) {
    Projection(s).Some?
  }

  /** A course and its order agree: an order under a course is ready or later
      unless cancelled; past pickup the order has reached the projected status;
      and a cancelled order has only terminal courses. */
  predicate InStep(a: Course, o: OrderStatus) {
    && (o == OrderCancelled || Stage(o) >= 4)
    && (PastPickup(a.status) ==> Stage(o) >= Stage(Projection(a.status).value))
    && (o == OrderCancelled ==> Terminal(a.status))
  }

  ghost predicate Simulates(w: World)
    requires Linked(w)
  {
    forall a :: a in w.courses ==> InStep(a, w.orders[a.order].status)
  }

  /** Once a course is past pickup, every other course of the order has come to nothing. */
  ghost predicate AlonePastPickup(courses: seq<Course>) {
    forall i, j | 0 <= i < |courses| && 0 <= j < |courses| && i != j && courses[i].order == courses[j].order ::
      PastPickup(courses[i].status) ==> courses[j].status == Declined || courses[j].status == Cancelled
  }

  /** The fee is frozen by `accept` and by nothing else. */
  predicate FeeWellKept(a: Course) {
    && (a.fee.Some? <==> a.acceptedAt.Some?)
    && (a.status == Offered || a.status == Declined ==> a.fee == None)
    && (a.struckOff ==> a.status == Cancelled)
  }

  ghost predicate FeesWellKept(courses: seq<Course>) {
    forall a :: a in courses ==> FeeWellKept(a)
  }

  datatype Tally = Tally(completed: nat, cancelled: nat, earned: int)

  /** What one course adds to a courier's counters. */
  function Weight(a: Course, courier: nat): Tally {
    if a.courier != courier then Tally(0, 0, 0)
    else Tally(if a.status == Delivered then 1 else 0,
               if a.struckOff then 1 else 0,
               if a.status == Delivered && a.fee.Some? then a.fee.value.minor else 0)
  }

  function TallyOf(courses: seq<Course>, courier: nat): Tally {
    if courses == [] then Tally(0, 0, 0)
    else
      var t, x := TallyOf(courses[..|courses| - 1], courier), Weight(courses[|courses| - 1], courier);
      Tally(t.completed + x.completed, t.cancelled + x.cancelled, t.earned + x.earned)
  }

  function Earned(earnings: Option<Money>): int {
    if earnings.Some? then earnings.value.minor else 0
  }

  predicate SameCurrency(a: Course, courier: nat, earnings: Option<Money>) {
    a.courier == courier && a.status == Delivered && a.fee.Some? ==>
      earnings.Some? && a.fee.value.currency == earnings.value.currency
  }

  ghost predicate Balanced(courses: seq<Course>, courier: nat, c: Courier) {
    && TallyOf(courses, courier) == Tally(c.completed, c.cancelled, Earned(c.earnings))
    && forall a :: a in courses ==> SameCurrency(a, courier, c.earnings)
  }

  ghost predicate Ledger(w: World) {
    forall c :: c in w.couriers ==> Balanced(w.courses, c, w.couriers[c])
  }

  ghost predicate Inv(w: World) {
    && Linked(w)
    && Simulates(w)
    && Constraints(w.courses)
    && AlonePastPickup(w.courses)
    && FeesWellKept(w.courses)
    && Ledger(w)
  }

  // --------------------------------------------------------------------- tallies

  lemma TallyAppend(courses: seq<Course>, a: Course, courier: nat)
    ensures var t, x := TallyOf(courses, courier), Weight(a, courier);
            TallyOf(courses + [a], courier) == Tally(t.completed + x.completed, t.cancelled + x.cancelled, t.earned + x.earned)
  {
    assert (courses + [a])[..|courses|] == courses;
  }

  lemma {:induction false} TallyUpdate(courses: seq<Course>, i: nat, a: Course, courier: nat)
    requires i < |courses|
    ensures var t, u := TallyOf(courses, courier), TallyOf(courses[i := a], courier);
            var x, y := Weight(courses[i], courier), Weight(a, courier);
            && u.completed == t.completed - x.completed + y.completed
            && u.cancelled == t.cancelled - x.cancelled + y.cancelled
            && u.earned == t.earned - x.earned + y.earned
  {
    var n := |courses| - 1;
    if i == n {
      assert courses[i := a][..n] == courses[..n];
    } else {
      assert courses[i := a][..n] == courses[..n][i := a];
      TallyUpdate(courses[..n], i, a, courier);
    }
  }

  lemma {:induction false} TallySame(courses: seq<Course>, others: seq<Course>, courier: nat)
    requires |courses| == |others|
    requires forall i :: 0 <= i < |courses| ==> Weight(courses[i], courier) == Weight(others[i], courier)
    ensures TallyOf(courses, courier) == TallyOf(others, courier)
  {
    if courses != [] {
      TallySame(courses[..|courses| - 1], others[..|others| - 1], courier);
    }
  }

  lemma UpdatedMembers(courses: seq<Course>, i: nat, b: Course)
    requires i < |courses|
    ensures forall a :: a in courses[i := b] ==> a == b || a in courses
    ensures b in courses[i := b] && courses[i] in courses
  {
    assert courses[i := b][i] == b;
  }

  /** Rewriting one course without touching what it weighs leaves every ledger balanced. */
  lemma WeightlessUpdateKeepsLedger(w: World, i: nat, b: Course)
    requires Ledger(w) && i < |w.courses|
    requires forall c :: Weight(b, c) == Weight(w.courses[i], c)
    requires b.status != Delivered
    ensures Ledger(w.(courses := w.courses[i := b]))
  {
    UpdatedMembers(w.courses, i, b);
    forall c | c in w.couriers ensures Balanced(w.courses[i := b], c, w.couriers[c]) {
      TallyUpdate(w.courses, i, b, c);
    }
  }

  // ------------------------------------------------------------ one call at a time

  lemma ReadyOrderIsBeforePickup(w: World, i: nat)
    requires Inv(w) && i < |w.courses| && w.orders[w.courses[i].order].status == Ready
    ensures !PastPickup(w.courses[i].status)
  {
    assert w.courses[i] in w.courses;
  }

  lemma OfferKeepsAlone(w: World, order: nat, courier: nat, now: int)
    requires Inv(w) && order in w.orders && w.orders[order].status == Ready
    ensures AlonePastPickup(w.courses + [NewCourse(order, courier, now)])
  {
    var courses := w.courses + [NewCourse(order, courier, now)];
    forall i, j | 0 <= i < |courses| && 0 <= j < |courses| && i != j && courses[i].order == courses[j].order && PastPickup(courses[i].status)
      ensures courses[j].status == Declined || courses[j].status == Cancelled
    {
      assert i < |w.courses| && courses[i] == w.courses[i];
      if courses[i].order == order {
        ReadyOrderIsBeforePickup(w, i);
      }
      assert j < |w.courses| && courses[j] == w.courses[j];
    }
  }

  lemma OfferKeepsLedger(w: World, a: Course)
    requires Ledger(w) && a.status == Offered && !a.struckOff
    ensures Ledger(w.(courses := w.courses + [a]))
  {
    assert forall x :: x in w.courses + [a] ==> x == a || x in w.courses;
    forall c | c in w.couriers ensures Balanced(w.courses + [a], c, w.couriers[c]) {
      TallyAppend(w.courses, a, c);
    }
  }

  /** A new offer is safe whoever it is for, as long as its order is ready and the
      constraints hold. */
  lemma CourseAddedKeeps(w: World, order: nat, courier: nat, now: int)
    requires Inv(w) && order in w.orders && courier in w.couriers && w.orders[order].status == Ready
    requires Constraints(w.courses + [NewCourse(order, courier, now)])
    ensures Inv(w.(courses := w.courses + [NewCourse(order, courier, now)]))
  {
    var a := NewCourse(order, courier, now);
    OfferKeepsAlone(w, order, courier, now);
    OfferKeepsLedger(w, a);
    assert forall x :: x in w.courses + [a] ==> x == a || x in w.courses;
  }

  lemma OfferKeeps(w: World, order: nat, courier: nat, now: int)
    requires Inv(w)
    ensures Inv(Offer(w, order, courier, now).0)
  {
    var (v, r) := Offer(w, order, courier, now);
    if r.Success? {
      CourseAddedKeeps(w, order, courier, now);
    }
  }

  /** The application checks are enough: an offer never meets a constraint, so
      its refusals are always the readable ones. */
  lemma OfferNeverHitsConstraint(w: World, order: nat, courier: nat, now: int)
    requires Inv(w)
    ensures Offer(w, order, courier, now).1 != Failure(IntegrityError)
  {
  }

  /** Taking an offer on a live order is safe as long as the constraints hold. */
  lemma TakenKeeps(w: World, course: nat, b: Course)
    requires Inv(w) && course < |w.courses| && w.courses[course].order in w.orders
    requires w.courses[course].status == Offered && w.orders[w.courses[course].order].status != OrderCancelled
    requires b == w.courses[course].(status := Accepted, acceptedAt := b.acceptedAt, fee := b.fee)
    requires b.acceptedAt.Some? && b.fee.Some? && Constraints(w.courses[course := b])
    ensures Inv(w.(courses := w.courses[course := b]))
  {
    assert FeeWellKept(w.courses[course]) by {
      assert w.courses[course] in w.courses;
    }
    UpdatedMembers(w.courses, course, b);
    WeightlessUpdateKeepsLedger(w, course, b);
  }

  lemma AcceptKeeps(w: World, course: nat, courier: nat, share: nat, now: int)
    requires Inv(w)
    ensures Inv(Accept(w, course, courier, share, now).0)
  {
    var (v, r) := Accept(w, course, courier, share, now);
    if r.Success? {
      TakenKeeps(w, course, v.courses[course]);
    }
  }

  lemma AcceptNeverHitsConstraint(w: World, course: nat, courier: nat, share: nat, now: int)
    requires Inv(w)
    ensures Accept(w, course, courier, share, now).1 != Failure(IntegrityError)
  {
    if course < |w.courses| && courier in w.couriers {
      var a := w.courses[course];
      if a.status == Offered && a.courier == courier && !IsEngaged(w.courses, courier) {
        var b := a.(status := Accepted);
        assert Constraints(w.courses[course := b]);
      }
    }
  }

  /** Closing a course that may be declined touches no other. */
  lemma DeclinedKeeps(w: World, course: nat, reason: string, v: World)
    requires Inv(w) && course < |w.courses| && Declined in DELIVERY_MACHINE[w.courses[course].status]
    requires v == w.(courses := w.courses[course := w.courses[course].(status := Declined, reason := reason)])
    ensures Inv(v)
  {
    var b := w.courses[course].(status := Declined, reason := reason);
    UpdatedMembers(w.courses, course, b);
    WeightlessUpdateKeepsLedger(w, course, b);
    TransitionKeepsAlone(w, course, Declined, b);
  }

  lemma DeclineKeeps(w: World, course: nat, courier: nat, reason: string)
    requires Inv(w) && course < |w.courses|
    ensures Inv(Decline(w, course, w.courses[course], courier, reason).0)
  {
    var (v, r) := Decline(w, course, w.courses[course], courier, reason);
    if r.Success? {
      DeclinedKeeps(w, course, reason, v);
    }
  }

  lemma ExpireKeeps(w: World, course: nat)
    requires Inv(w)
    ensures Inv(Expire(w, course).0)
  {
    var (v, closed) := Expire(w, course);
    if closed {
      DeclinedKeeps(w, course, EXPIRED_OFFER_REASON, v);
    }
  }

  // ------------------------------------------------------------------ transitions

  /** The courier's counters follow the one course that moved. */
  lemma SettledStaysBalanced(courses: seq<Course>, course: nat, target: DeliveryStatus, reason: string, now: int, c: Courier)
    requires course < |courses|
    requires var a := courses[course];
             && FeeWellKept(a) && target in DELIVERY_MACHINE[a.status]
             && Balanced(courses, a.courier, c) && Settled(c, a, target).Success?
    ensures var a := courses[course];
            Balanced(courses[course := Stamp(a, target, reason, now)], a.courier, Settled(c, a, target).value)
  {
    var a := courses[course];
    var b, d := Stamp(a, target, reason, now), Settled(c, a, target).value;
    TallyUpdate(courses, course, b, a.courier);
    UpdatedMembers(courses, course, b);
    assert c.earnings.Some? ==> d.earnings.Some? && d.earnings.value.currency == c.earnings.value.currency;
    assert SameCurrency(b, a.courier, d.earnings);
    assert Earned(d.earnings) == Earned(c.earnings) + Weight(b, a.courier).earned;
    assert a.struckOff == false && Weight(a, a.courier) == Tally(0, 0, 0);
    forall x | x in courses[course := b] ensures SameCurrency(x, a.courier, d.earnings) {
      assert x == b || SameCurrency(x, a.courier, c.earnings);
    }
  }

  lemma OthersStayBalanced(courses: seq<Course>, course: nat, b: Course, courier: nat, c: Courier)
    requires course < |courses| && courses[course].courier == b.courier != courier
    requires Balanced(courses, courier, c)
    ensures Balanced(courses[course := b], courier, c)
  {
    TallyUpdate(courses, course, b, courier);
    UpdatedMembers(courses, course, b);
  }

  lemma TransitionKeepsLedger(w: World, course: nat, target: DeliveryStatus, reason: string, now: int)
    requires Inv(w) && course < |w.courses|
    requires w.courses[course].status != target && TransitionTo(w, course, target, reason, now).1.Success?
    ensures Ledger(TransitionTo(w, course, target, reason, now).0)
  {
    var v := TransitionTo(w, course, target, reason, now).0;
    var a, b := w.courses[course], Stamp(w.courses[course], target, reason, now);
    assert a in w.courses;
    forall c | c in v.couriers ensures Balanced(v.courses, c, v.couriers[c]) {
      assert Balanced(w.courses, c, w.couriers[c]);
      if c == a.courier {
        SettledStaysBalanced(w.courses, course, target, reason, now, w.couriers[c]);
      } else {
        OthersStayBalanced(w.courses, course, b, c, w.couriers[c]);
      }
    }
  }

  lemma TransitionKeepsAlone(w: World, course: nat, target: DeliveryStatus, b: Course)
    requires Inv(w) && course < |w.courses|
    requires target in DELIVERY_MACHINE[w.courses[course].status]
    requires b.order == w.courses[course].order && b.status == target
    ensures AlonePastPickup(w.courses[course := b])
  {
    var courses := w.courses[course := b];
    forall i, j | 0 <= i < |courses| && 0 <= j < |courses| && i != j && courses[i].order == courses[j].order && PastPickup(courses[i].status)
      ensures courses[j].status == Declined || courses[j].status == Cancelled
    {
      if i == course {
        assert !Terminal(w.courses[i].status);
        assert PastPickup(Delivered);
        assert Terminal(w.courses[j].status);
      }
    }
  }

  /** Beside an active course, every other course of the order has come to nothing. */
  lemma CompanionsAreDone(courses: seq<Course>, course: nat, i: nat)
    requires Constraints(courses) && AlonePastPickup(courses)
    requires course < |courses| && i < |courses| && i != course && courses[i].order == courses[course].order
    requires !Terminal(courses[course].status)
    ensures courses[i].status == Declined || courses[i].status == Cancelled
  {
    assert Terminal(courses[i].status);
    assert PastPickup(Delivered);
  }

  lemma CompanionStaysInStep(x: Course, before: OrderStatus, after: OrderStatus)
    requires InStep(x, before) && (x.status == Declined || x.status == Cancelled)
    requires after == OrderCancelled || Stage(after) >= 4
    ensures InStep(x, after)
  {
  }

  /** The order receives what the course projects on it, and nothing else moves it. */
  lemma MoverStaysInStep(a: Course, o: Order, target: DeliveryStatus, reason: string, now: int)
    requires InStep(a, o.status) && target in DELIVERY_MACHINE[a.status]
    requires !(o.status == OrderCancelled && target != Cancelled) && OrderFollows(o.status, target)
    ensures InStep(Stamp(a, target, reason, now), Projected(o, target).status)
    ensures Projected(o, target).status == OrderCancelled || Stage(Projected(o, target).status) >= 4
  {
  }

  lemma TransitionKeepsStep(w: World, course: nat, target: DeliveryStatus, reason: string, now: int)
    requires Linked(w) && Simulates(w) && Constraints(w.courses) && AlonePastPickup(w.courses) && course < |w.courses|
    requires w.courses[course].status != target && TransitionTo(w, course, target, reason, now).1.Success?
    ensures var v := TransitionTo(w, course, target, reason, now).0; Linked(v) && Simulates(v)
  {
    var v := TransitionTo(w, course, target, reason, now).0;
    var a := w.courses[course];
    UpdatedMembers(w.courses, course, Stamp(a, target, reason, now));
    MoverStaysInStep(a, w.orders[a.order], target, reason, now);
    forall i | 0 <= i < |v.courses| ensures InStep(v.courses[i], v.orders[v.courses[i].order].status) {
      assert w.courses[i] in w.courses;
      if i != course && w.courses[i].order == a.order {
        CompanionsAreDone(w.courses, course, i);
        CompanionStaysInStep(w.courses[i], w.orders[a.order].status, v.orders[a.order].status);
      }
    }
  }

  lemma TransitionKeepsFees(w: World, course: nat, target: DeliveryStatus, reason: string, now: int)
    requires FeesWellKept(w.courses) && course < |w.courses| && target in DELIVERY_MACHINE[w.courses[course].status]
    ensures FeesWellKept(w.courses[course := Stamp(w.courses[course], target, reason, now)])
  {
    var a := w.courses[course];
    UpdatedMembers(w.courses, course, Stamp(a, target, reason, now));
    assert FeeWellKept(a);
  }

  lemma TransitionShape(w: World, course: nat, target: DeliveryStatus, reason: string, now: int)
    requires course < |w.courses|
    requires w.courses[course].status != target && TransitionTo(w, course, target, reason, now).1.Success?
    ensures target in DELIVERY_MACHINE[w.courses[course].status]
    ensures TransitionTo(w, course, target, reason, now).0.courses == w.courses[course := Stamp(w.courses[course], target, reason, now)]
    ensures Constraints(TransitionTo(w, course, target, reason, now).0.courses)
  {
  }

  lemma TransitionKeepsCourses(w: World, course: nat, target: DeliveryStatus, reason: string, now: int, courses: seq<Course>)
    requires Inv(w) && course < |w.courses| && target in DELIVERY_MACHINE[w.courses[course].status]
    requires courses == w.courses[course := Stamp(w.courses[course], target, reason, now)]
    ensures AlonePastPickup(courses) && FeesWellKept(courses)
  {
    TransitionKeepsAlone(w, course, target, Stamp(w.courses[course], target, reason, now));
    TransitionKeepsFees(w, course, target, reason, now);
  }

  lemma TransitionKeeps(w: World, course: nat, target: DeliveryStatus, reason: string, now: int)
    requires Inv(w)
    ensures Inv(TransitionTo(w, course, target, reason, now).0)
  {
    var (v, r) := TransitionTo(w, course, target, reason, now);
    if r.Success? && w.courses[course].status != target {
      TransitionShape(w, course, target, reason, now);
      TransitionKeepsStep(w, course, target, reason, now);
      TransitionKeepsCourses(w, course, target, reason, now, v.courses);
      TransitionKeepsLedger(w, course, target, reason, now);
    }
  }

  // ------------------------------------------------------------------------ orders

  lemma ClosedMembers(courses: seq<Course>, order: nat, reason: string)
    ensures forall x :: x in CloseOpen(courses, order, reason) ==>
              exists a :: a in courses && x == CloseOne(a, order, reason)
  {
    var closed := CloseOpen(courses, order, reason);
    forall x | x in closed ensures exists a :: a in courses && x == CloseOne(a, order, reason) {
      var i :| 0 <= i < |closed| && closed[i] == x;
      assert courses[i] in courses;
    }
  }

  lemma CloseKeepsConstraints(courses: seq<Course>, order: nat, reason: string)
    requires Constraints(courses) && AlonePastPickup(courses)
    ensures Constraints(CloseOpen(courses, order, reason)) && AlonePastPickup(CloseOpen(courses, order, reason))
  {
    var closed := CloseOpen(courses, order, reason);
    assert forall i :: 0 <= i < |courses| ==>
      && closed[i].order == courses[i].order && closed[i].courier == courses[i].courier
      && (closed[i].status == courses[i].status || closed[i].status == Cancelled);
  }

  lemma CloseKeepsLedger(w: World, order: nat, reason: string)
    requires Ledger(w)
    ensures Ledger(w.(courses := CloseOpen(w.courses, order, reason)))
  {
    var closed := CloseOpen(w.courses, order, reason);
    ClosedMembers(w.courses, order, reason);
    forall c | c in w.couriers ensures Balanced(closed, c, w.couriers[c]) {
      TallySame(w.courses, closed, c);
    }
  }

  /** A cancelled order leaves only terminal courses behind it. */
  lemma CloseKeepsStep(w: World, order: nat, o: Order, reason: string)
    requires Linked(w) && Simulates(w) && order in w.orders
    requires o.status == OrderCancelled && OrderCancelled in ORDER_MACHINE[w.orders[order].status]
    ensures var v := w.(courses := CloseOpen(w.courses, order, reason), orders := w.orders[order := o]);
            Linked(v) && Simulates(v)
  {
    ClosedMembers(w.courses, order, reason);
    var v := w.(courses := CloseOpen(w.courses, order, reason), orders := w.orders[order := o]);
    forall x | x in v.courses ensures InStep(x, v.orders[x.order].status) {
      var a :| a in w.courses && x == CloseOne(a, order, reason);
      assert InStep(a, w.orders[a.order].status);
    }
  }

  lemma CloseKeepsFees(courses: seq<Course>, order: nat, reason: string)
    requires FeesWellKept(courses)
    ensures FeesWellKept(CloseOpen(courses, order, reason))
  {
    ClosedMembers(courses, order, reason);
  }

  /** Closing the open courses of any order keeps the invariant. */
  lemma ClosingKeeps(w: World, order: nat, reason: string)
    requires Inv(w)
    ensures Inv(w.(courses := CloseOpen(w.courses, order, reason)))
  {
    CloseKeepsConstraints(w.courses, order, reason);
    CloseKeepsLedger(w, order, reason);
    CloseKeepsFees(w.courses, order, reason);
    ClosingKeepsStep(w, order, reason);
  }

  lemma ClosingKeepsStep(w: World, order: nat, reason: string)
    requires Linked(w) && Simulates(w)
    ensures var v := w.(courses := CloseOpen(w.courses, order, reason)); Linked(v) && Simulates(v)
  {
    ClosedMembers(w.courses, order, reason);
    var v := w.(courses := CloseOpen(w.courses, order, reason));
    forall x | x in v.courses ensures x.order in v.orders && x.courier in v.couriers && InStep(x, v.orders[x.order].status) {
      var a :| a in w.courses && x == CloseOne(a, order, reason);
      assert InStep(a, w.orders[a.order].status);
    }
  }

  /** An order that only moves forward stays ahead of its courses. */
  lemma ForwardKeepsStep(w: World, order: nat, o: Order)
    requires Linked(w) && Simulates(w) && order in w.orders
    requires o.status != OrderCancelled && o.status in ORDER_MACHINE[w.orders[order].status]
    ensures var v := w.(orders := w.orders[order := o]); Linked(v) && Simulates(v)
  {
    assert forall a :: a in w.courses ==> InStep(a, w.orders[a.order].status);
  }

  lemma MoveOrderKeeps(w: World, order: nat, target: OrderStatus)
    requires Inv(w)
    ensures Inv(MoveOrder(w, order, target).0)
  {
    var (v, r) := MoveOrder(w, order, target);
    if r.Success? && w.orders[order].status != target {
      if target == OrderCancelled {
        CloseKeepsStep(w, order, v.orders[order], CANCELLED_ORDER_REASON);
        CloseKeepsConstraints(w.courses, order, CANCELLED_ORDER_REASON);
        CloseKeepsLedger(w, order, CANCELLED_ORDER_REASON);
        CloseKeepsFees(w.courses, order, CANCELLED_ORDER_REASON);
      } else {
        ForwardKeepsStep(w, order, v.orders[order]);
      }
    }
  }

  // ---------------------------------------------------------------------- couriers

  lemma CourierUpdateKeeps(w: World, courier: nat, c: Courier)
    requires Inv(w) && courier in w.couriers
    requires var b := w.couriers[courier]; c.completed == b.completed && c.cancelled == b.cancelled && c.earnings == b.earnings
    ensures Inv(WithCourier(w, courier, c))
  {
    assert Balanced(w.courses, courier, w.couriers[courier]);
  }

  lemma {:induction false} NoCourseNoTally(courses: seq<Course>, courier: nat)
    requires forall a :: a in courses ==> a.courier != courier
    ensures TallyOf(courses, courier) == Tally(0, 0, 0)
  {
    if courses != [] {
      NoCourseNoTally(courses[..|courses| - 1], courier);
    }
  }

  lemma EnrolKeeps(w: World, courier: nat, kitchen: nat)
    requires Inv(w)
    ensures Inv(Step(w, Enrol(courier, kitchen)))
  {
    if courier !in w.couriers {
      NoCourseNoTally(w.courses, courier);
    }
  }

  // -------------------------------------------------------------------------- runs

  /** Files, presence, accounts and zones are none of its business. */
  lemma CourierCallKeeps(w: World, op: Op)
    requires Inv(w) && (op.DoReview? || op.DoSetOnline? || op.DoReplaceDocuments? || op.SetAccount? || op.SetZones?)
    ensures Inv(Step(w, op))
  {
    if op.courier in w.couriers && Step(w, op) != w {
      OnlyTheCourier(w, op);
      CourierUpdateKeeps(w, op.courier, Step(w, op).couriers[op.courier]);
    }
  }

  lemma OnlyTheCourier(w: World, op: Op)
    requires op.DoReview? || op.DoSetOnline? || op.DoReplaceDocuments? || op.SetAccount? || op.SetZones?
    requires op.courier in w.couriers && Step(w, op) != w
    ensures op.courier in Step(w, op).couriers && Step(w, op) == WithCourier(w, op.courier, Step(w, op).couriers[op.courier])
    ensures var b, c := w.couriers[op.courier], Step(w, op).couriers[op.courier];
            c.completed == b.completed && c.cancelled == b.cancelled && c.earnings == b.earnings
  {
  }

  lemma PlaceKeeps(w: World, order: nat, row: Order)
    requires Inv(w)
    ensures Inv(Step(w, PlaceOrder(order, row)))
  {
  }

  lemma CourseCallKeeps(w: World, op: Op)
    requires Inv(w) && (op.DoOffer? || op.DoAccept? || op.DoDecline? || op.DoExpire? || op.DoTransition?)
    ensures Inv(Step(w, op))
  {
    match op
    case DoOffer(order, courier, now) => OfferKeeps(w, order, courier, now);
    case DoAccept(course, courier, share, now) => AcceptKeeps(w, course, courier, share, now);
    case DoDecline(course, courier, reason) => if course < |w.courses| { DeclineKeeps(w, course, courier, reason); }
    case DoExpire(course) => ExpireKeeps(w, course);
    case DoTransition(course, target, reason, now) => TransitionKeeps(w, course, target, reason, now);
  }

  lemma StepKeeps(w: World, op: Op)
    requires Inv(w)
    ensures Inv(Step(w, op))
  {
    match op
    case DoMoveOrder(order, target) => MoveOrderKeeps(w, order, target);
    case PlaceOrder(order, row) => PlaceKeeps(w, order, row);
    case Enrol(courier, kitchen) => EnrolKeeps(w, courier, kitchen);
    case DoOffer(_, _, _) => CourseCallKeeps(w, op);
    case DoAccept(_, _, _, _) => CourseCallKeeps(w, op);
    case DoDecline(_, _, _) => CourseCallKeeps(w, op);
    case DoExpire(_) => CourseCallKeeps(w, op);
    case DoTransition(_, _, _, _) => CourseCallKeeps(w, op);
    case _ => CourierCallKeeps(w, op);
  }

  /** The invariant holds after any sequence of calls whatever. */
  lemma {:induction false} RunKeeps(w: World, ops: seq<Op>)
    requires Inv(w)
    ensures Inv(Run(w, ops))
  {
    if ops != [] {
      RunKeeps(w, ops[..|ops| - 1]);
      StepKeeps(Run(w, ops[..|ops| - 1]), ops[|ops| - 1]);
    }
  }

  lemma EmptyWorldIsSound(autoKitchens: set<nat>)
    ensures Inv(EmptyWorld(autoKitchens))
  {
  }
}

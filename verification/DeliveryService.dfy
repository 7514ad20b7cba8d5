/** The delivery services as the program writes them: rows re-read, checked and
    rewritten in place. Each method is proved to do what DeliveryWorld says. */
module DeliveryServices {
  import opened Wrappers
  import opened Moneys
  import opened DeliveryStates
  import W = DeliveryWorld
  import I = DeliveryInvariants

  class DeliveryDatabase {
    var orders: map<nat, W.Order>
    var couriers: map<nat, W.Courier>
    var courses: seq<W.Course>
    const autoKitchens: set<nat>

    function World(): W.World
      reads this
    {
      W.World(orders, couriers, courses, autoKitchens)
    }

    /** The invariant of every run, on these rows. */
    ghost predicate Valid()
      reads this
    {
      I.Inv(World())
    }

    constructor (autoKitchens: set<nat>)
      ensures World() == W.EmptyWorld(autoKitchens) && Valid()
    {
      this.autoKitchens := autoKitchens;
      orders, couriers, courses := map[], map[], [];
      new;
      I.EmptyWorldIsSound(autoKitchens);
    }

    /** A row written back; the constraints decide. */
    method SaveCourses(next: seq<W.Course>) returns (saved: bool)
      modifies this`courses
      ensures saved == W.Constraints(next)
      ensures courses == if saved then next else old(courses)
    {
      saved := W.Constraints(next);
      if saved {
        courses := next;
      }
    }

    method Offer(order: nat, courier: nat, now: int) returns (r: W.Reply)
      modifies this`courses
      ensures (World(), r) == W.Offer(old(World()), order, courier, now)
      ensures old(Valid()) ==> Valid()
    {
      if Valid() { I.OfferKeeps(World(), order, courier, now); }
      if order !in orders || courier !in couriers {
        return Failure(W.NoSuchRow);
      }
      var locked, row := orders[order], couriers[courier];
      if locked.status != Ready {
        return Failure(W.OrderNotReady(locked.status));
      }
      if !W.CanAcceptOrders(row) {
        return Failure(W.NotEligible);
      }
      if row.kitchen != locked.kitchen {
        return Failure(W.OtherKitchen);
      }
      if !W.ServesZone(row, locked.zone) {
        return Failure(W.OutOfZone);
      }
      if W.IsEngaged(courses, courier) {
        return Failure(W.CourierEngaged);
      }
      if W.HasActive(courses, order) {
        return Failure(W.OrderHasCourse);
      }
      var created := |courses|;
      var saved := SaveCourses(courses + [W.NewCourse(order, courier, now)]);
      r := if saved then Success(created) else Failure(W.IntegrityError);
    }

    method Accept(course: nat, courier: nat, sharePercent: nat, now: int) returns (r: W.Reply)
      modifies this`courses
      ensures (World(), r) == W.Accept(old(World()), course, courier, sharePercent, now)
      ensures old(Valid()) ==> Valid()
    {
      if Valid() { I.AcceptKeeps(World(), course, courier, sharePercent, now); }
      if course >= |courses| || courier !in couriers || courses[course].order !in orders {
        return Failure(W.NoSuchRow);
      }
      var current := courses[course];
      var order := orders[current.order];
      if current.courier != courier {
        return Failure(W.NotYours);
      }
      if order.status == OrderCancelled {
        return Failure(W.OrderWasCancelled);
      }
      if !W.CanAcceptOrders(couriers[courier]) {
        return Failure(W.NotEligible);
      }
      if W.IsEngaged(courses, courier) {
        return Failure(W.CourierEngaged);
      }
      if Accepted !in DELIVERY_MACHINE[current.status] {
        return Failure(W.Illegal(current.status, Accepted));
      }
      current := current.(status := Accepted);
      current := current.(acceptedAt := Some(now));
      current := current.(fee := Some(W.CourierFee(order, sharePercent)));
      var saved := SaveCourses(courses[course := current]);
      r := if saved then Success(course) else Failure(W.IntegrityError);
    }

    /** The instance is checked as the caller holds it, and never read again. */
    method Decline(course: nat, handed: W.Course, courier: nat, reason: string) returns (r: W.Reply)
      modifies this`courses
      ensures (World(), r) == W.Decline(old(World()), course, handed, courier, reason)
      ensures old(Valid()) && course < |old(courses)| && handed.status == old(courses)[course].status ==> Valid()
    {
      if Valid() && course < |courses| { I.DeclineKeeps(World(), course, courses[course].courier, reason); }
      if course >= |courses| {
        return Failure(W.NoSuchRow);
      }
      if handed.courier != courier {
        return Failure(W.NotYours);
      }
      if Declined !in DELIVERY_MACHINE[handed.status] {
        return Failure(W.Illegal(handed.status, Declined));
      }
      var saved := SaveCourses(courses[course := courses[course].(status := Declined, reason := reason)]);
      r := if saved then Success(course) else Failure(W.IntegrityError);
    }

    method Expire(course: nat) returns (closed: bool)
      modifies this`courses
      ensures (World(), closed) == W.Expire(old(World()), course)
      ensures old(Valid()) ==> Valid()
    {
      if Valid() { I.ExpireKeeps(World(), course); }
      if course >= |courses| {
        return false;
      }
      if courses[course].status != Offered {
        return false;
      }
      courses := courses[course := courses[course].(status := Declined, reason := W.EXPIRED_OFFER_REASON)];
      closed := true;
    }

    method TransitionTo(course: nat, target: DeliveryStatus, reason: string, now: int) returns (r: W.Reply)
      modifies this
      ensures (World(), r) == W.TransitionTo(old(World()), course, target, reason, now)
      ensures old(Valid()) ==> Valid()
    {
      if Valid() { I.TransitionKeeps(World(), course, target, reason, now); }
      r := Advance(course, target, reason, now);
    }

    /** Course, order and counters move in one transaction: a credit in the wrong
        currency undoes what was already written. */
    method Advance(course: nat, target: DeliveryStatus, reason: string, now: int) returns (r: W.Reply)
      modifies this
      ensures (World(), r) == W.TransitionTo(old(World()), course, target, reason, now)
    {
      if course >= |courses| || courses[course].order !in orders || courses[course].courier !in couriers {
        return Failure(W.NoSuchRow);
      }
      var before := courses;
      var locked := courses[course];
      var order := orders[locked.order];
      if locked.status == target {
        return Success(course);
      }
      if target !in DELIVERY_MACHINE[locked.status] {
        return Failure(W.Illegal(locked.status, target));
      }
      if order.status == OrderCancelled && target != Cancelled {
        return Failure(W.OrderWasCancelled);
      }
      var projected := Projection(target);
      if projected.Some? && order.status != projected.value && projected.value !in ORDER_MACHINE[order.status] {
        return Failure(W.OrderCannotFollow(order.status, projected.value));
      }

      var stamped := locked.(status := target);
      if target == PickedUp {
        stamped := stamped.(pickedUpAt := Some(now));
      } else if target == Delivered {
        stamped := stamped.(deliveredAt := Some(now));
      } else if target == Cancelled {
        stamped := stamped.(reason := reason, struckOff := true);
      }
      assert stamped == W.Stamp(locked, target, reason, now);
      var saved := SaveCourses(courses[course := stamped]);
      if !saved {
        return Failure(W.IntegrityError);
      }

      var courier := couriers[locked.courier];
      if target == Delivered {
        courier := courier.(completed := courier.completed + 1);
        if locked.fee.Some? {
          var earned := locked.fee.value;
          var current := if courier.earnings.Some? then courier.earnings.value else Money(0, earned.currency);
          var total := Add(current, earned);
          if total.Failure? {
            courses := before;
            return Failure(W.WrongCurrency);
          }
          courier := courier.(earnings := Some(total.value));
        }
      } else if target == Cancelled {
        courier := courier.(cancelled := courier.cancelled + 1);
      }
      couriers := couriers[locked.courier := courier];
      orders := orders[locked.order := W.Projected(order, target)];
      r := Success(course);
    }

    /** Closes the open courses of a cancelled order, one by one. */
    method CloseForCancelledOrder(order: nat, reason: string)
      modifies this`courses
      ensures courses == W.CloseOpen(old(courses), order, reason)
      ensures old(Valid()) ==> Valid()
    {
      if Valid() { I.ClosingKeeps(World(), order, reason); }
      for i := 0 to |courses|
        invariant |courses| == |old(courses)|
        invariant forall k :: 0 <= k < i ==> courses[k] == W.CloseOne(old(courses)[k], order, reason)
        invariant forall k :: i <= k < |courses| ==> courses[k] == old(courses)[k]
      {
        var open := courses[i];
        if open.order == order && (open.status == Offered || open.status == Accepted) {
          courses := courses[i := open.(status := Cancelled, reason := reason)];
        }
      }
      assert courses == W.CloseOpen(old(courses), order, reason);
    }

    method MoveOrder(order: nat, target: OrderStatus) returns (r: W.Reply)
      modifies this
      ensures (World(), r) == W.MoveOrder(old(World()), order, target)
      ensures old(Valid()) ==> Valid()
    {
      if Valid() { I.MoveOrderKeeps(World(), order, target); }
      if order !in orders {
        return Failure(W.NoSuchRow);
      }
      var locked := orders[order];
      if locked.status == target {
        return Success(order);
      }
      if target !in ORDER_MACHINE[locked.status] {
        return Failure(W.IllegalOrderMove(locked.status, target));
      }
      orders := orders[order := locked.(status := target)];
      if target == OrderCancelled {
        CloseForCancelledOrder(order, W.CANCELLED_ORDER_REASON);
      }
      r := Success(order);
    }

    method Review(courier: nat, target: FileStatus, notes: string, dates: map<W.Piece, int>, today: int) returns (r: W.Reply)
      modifies this`couriers
      ensures (World(), r) == W.Review(old(World()), courier, target, notes, dates, today)
      ensures old(Valid()) ==> Valid()
    {
      if Valid() { I.StepKeeps(World(), W.DoReview(courier, target, notes, dates, today)); }
      if courier !in couriers {
        return Failure(W.NoSuchRow);
      }
      var locked := couriers[courier];
      locked := locked.(expiries := locked.expiries + dates);
      var expired := W.FirstExpired(locked.expiries, today);
      if target == Approved && expired.Some? {
        return Failure(W.PieceExpired(expired.value));
      }
      if locked.file == target {
        couriers := couriers[courier := locked];
        return Success(courier);
      }
      if target !in VERIFICATION_MACHINE[locked.file] {
        return Failure(W.IllegalFileMove(locked.file, target));
      }
      if W.NeedsReason(target) && W.Strip(notes) == "" {
        return Failure(W.ReasonMissing);
      }
      locked := locked.(file := target, notes := W.Strip(notes));
      if target != Approved {
        locked := locked.(online := false);
      }
      couriers := couriers[courier := locked];
      r := Success(courier);
    }

    method SetOnline(courier: nat, online: bool) returns (r: W.Reply)
      modifies this`couriers
      ensures (World(), r) == W.SetOnline(old(World()), courier, online)
      ensures old(Valid()) ==> Valid()
    {
      if Valid() { I.StepKeeps(World(), W.DoSetOnline(courier, online)); }
      if courier !in couriers {
        return Failure(W.NoSuchRow);
      }
      couriers := couriers[courier := couriers[courier].(online := online)];
      r := Success(courier);
    }

    /** The instance is judged as the caller holds it. */
    method ReplaceDocuments(courier: nat, handed: W.Courier, pieces: set<W.Piece>) returns (r: W.Reply)
      modifies this`couriers
      ensures (World(), r) == W.ReplaceDocumentsFrom(old(World()), courier, handed, pieces)
      ensures old(Valid()) ==> Valid()
    {
      if courier !in couriers {
        return Failure(W.NoSuchRow);
      }
      ghost var before := World();
      var row := couriers[courier];
      row := row.(expiries := row.expiries - pieces);
      if handed.file == Approved || handed.file == Rejected {
        row := row.(file := AwaitingReview);
        row := row.(online := false, notes := "");
      }
      if Valid() { I.CourierUpdateKeeps(before, courier, row); }
      couriers := couriers[courier := row];
      r := Success(courier);
    }
  }
}

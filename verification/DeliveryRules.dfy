/** What single calls mean, column by column and without their own steps: who may be
    offered a course, what each call writes, file reviews, replaced papers and the fee
    frozen by `accept`. */
module DeliveryRules {
  import opened Wrappers
  import opened Rounding
  import opened Moneys
  import opened StateMachines
  import opened DeliveryStates
  import opened DeliveryWorld
  import opened DeliveryInvariants

  predicate HasInk(s: string) {
    exists k :: 0 <= k < |s| && !IsSpace(s[k])
  }

  lemma {:induction false} StrippedIsEmptyIffBlank(s: string)
    ensures Strip(s) == "" <==> !HasInk(s)
    decreases |s|
  {
    if s != "" && IsSpace(s[0]) {
      StrippedIsEmptyIffBlank(s[1..]);
      assert forall k :: 1 <= k < |s| ==> s[k] == s[1..][k - 1];
    } else if s != "" && IsSpace(s[|s| - 1]) {
      StrippedIsEmptyIffBlank(s[..|s| - 1]);
    }
  }

  predicate HasExpiredPaper(expiries: map<Piece, int>, today: int) {
    exists p :: p in expiries && expiries[p] < today
  }

  lemma FirstExpiredMeaning(expiries: map<Piece, int>, today: int)
    ensures FirstExpired(expiries, today).Some? <==> HasExpiredPaper(expiries, today)
    ensures FirstExpired(expiries, today).Some? ==>
              FirstExpired(expiries, today).value in expiries && expiries[FirstExpired(expiries, today).value] < today
  {
    if HasExpiredPaper(expiries, today) {
      var p :| p in expiries && expiries[p] < today;
      assert p == Identity || p == Licence || p == Vehicle;
    }
  }

  /** A review succeeds exactly when no paper would be expired under an approval
      and the file is already there, or may go there with the reason it needs. */
  lemma ReviewSucceedsIff(w: World, courier: nat, target: FileStatus, notes: string, dates: map<Piece, int>, today: int)
    requires courier in w.couriers
    ensures var c := w.couriers[courier];
            Review(w, courier, target, notes, dates, today).1.Success? <==>
              && (target == Approved ==> !HasExpiredPaper(c.expiries + dates, today))
              && (c.file == target
                  || (Edge(VERIFICATION_MACHINE, c.file, target) && (target == Rejected || target == Suspended ==> HasInk(notes))))
  {
    FirstExpiredMeaning(w.couriers[courier].expiries + dates, today);
    StrippedIsEmptyIffBlank(notes);
  }

  /** After a successful review the file is where it was sent, the dates given are
      on it, an approval has no expired paper, nobody is put online, and a courier
      whose file moved away from approval is offline. A refusal changes nothing. */
  lemma ReviewMeaning(w: World, courier: nat, target: FileStatus, notes: string, dates: map<Piece, int>, today: int)
    requires courier in w.couriers
    ensures var (v, r) := Review(w, courier, target, notes, dates, today);
            && (r.Failure? ==> v == w)
            && v == w.(couriers := v.couriers) && v.couriers.Keys == w.couriers.Keys
            && (forall c :: c in w.couriers && c != courier ==> v.couriers[c] == w.couriers[c])
            && (r.Success? ==>
                  var before, after := w.couriers[courier], v.couriers[courier];
                  && after.file == target && after.expiries == before.expiries + dates
                  && (target == Approved ==> !HasExpiredPaper(after.expiries, today))
                  && (after.online ==> before.online)
                  && (before.file != target && target != Approved ==> !after.online)
                  && (CanAcceptOrders(after) && !CanAcceptOrders(before) ==> target == Approved))
  {
    FirstExpiredMeaning(w.couriers[courier].expiries + dates, today);
  }

  /** The fee is the courier's share of the delivery's value, rounded once: of the
      gross fee when there is one, so a discount granted to the customer is not
      taken from the courier; and it never exceeds that value. */
  lemma FeeIsAShareOfTheGross(o: Order, share: nat)
    ensures var gross := if o.feeGross.Some? then o.feeGross.value else o.fee;
            && CourierFee(o, share).currency == gross.currency
            && IsNearest(CourierFee(o, share).minor, gross.minor * share, 100)
            && (0 <= gross.minor && share <= 100 ==> 0 <= CourierFee(o, share).minor <= gross.minor)
    ensures o.feeGross.Some? ==> forall billed: Money :: CourierFee(o.(fee := billed), share) == CourierFee(o, share)
  {
    var gross := if o.feeGross.Some? then o.feeGross.value else o.fee;
    assert Pow10(0) == 1;
    PercentageMeaning(gross, Decimal(share, 0));
  }

  // ------------------------------------------------------------------------ courses

  /** Some course of this courier is between acceptance and delivery. */
  predicate OnTheRoad(courses: seq<Course>, courier: nat) {
    exists i :: 0 <= i < |courses| && courses[i].courier == courier
                && (courses[i].status == Accepted || courses[i].status == PickedUp || courses[i].status == OnTheWay)
  }

  /** Some course of this order is not over. */
  predicate Taken(courses: seq<Course>, order: nat) {
    exists i :: 0 <= i < |courses| && courses[i].order == order
                && courses[i].status != Declined && courses[i].status != Cancelled && courses[i].status != Delivered
  }

  /** An offer succeeds exactly when the order is ready and has no course in hand, and
      the courier is online, approved, of an open account, of the order's kitchen,
      serves its zone (or all of them) and is not on the road. */
  lemma OfferMeaning(w: World, order: nat, courier: nat, now: int)
    requires Inv(w) && order in w.orders && courier in w.couriers
    ensures var o, c, (v, r) := w.orders[order], w.couriers[courier], Offer(w, order, courier, now);
            && (r.Success? <==>
                  && o.status == Ready && !Taken(w.courses, order)
                  && c.online && c.file == Approved && c.accountOpen && c.kitchen == o.kitchen
                  && (c.zones == {} || (o.zone.Some? && o.zone.value in c.zones))
                  && !OnTheRoad(w.courses, courier))
            && (r.Failure? ==> v == w)
  {
    OfferNeverHitsConstraint(w, order, courier, now);
    ActiveIsTaken(w.courses, order);
    EngagedIsOnTheRoad(w.courses, courier);
  }

  lemma ActiveIsTaken(courses: seq<Course>, order: nat)
    ensures HasActive(courses, order) <==> Taken(courses, order)
  {
    assert forall i :: 0 <= i < |courses| ==>
      (!Terminal(courses[i].status) <==> courses[i].status != Declined && courses[i].status != Cancelled && courses[i].status != Delivered);
  }

  lemma EngagedIsOnTheRoad(courses: seq<Course>, courier: nat)
    ensures IsEngaged(courses, courier) <==> OnTheRoad(courses, courier)
  {
    assert forall i :: 0 <= i < |courses| ==>
      (Engaged(courses[i].status) <==> courses[i].status == Accepted || courses[i].status == PickedUp || courses[i].status == OnTheWay);
  }

  /** A refusal says something true. */
  lemma OfferRefusalIsTrue(w: World, order: nat, courier: nat, now: int)
    requires Inv(w) && order in w.orders && courier in w.couriers && Offer(w, order, courier, now).1.Failure?
    ensures var o, c := w.orders[order], w.couriers[courier];
            match Offer(w, order, courier, now).1.error
            case OrderNotReady(status) => status == o.status && status != Ready
            case NotEligible => !c.online || c.file != Approved || !c.accountOpen
            case OtherKitchen => c.kitchen != o.kitchen
            case OutOfZone => c.zones != {} && (o.zone == None || o.zone.value !in c.zones)
            case CourierEngaged => OnTheRoad(w.courses, courier)
            case OrderHasCourse => Taken(w.courses, order)
            case _ => false
  {
    OfferNeverHitsConstraint(w, order, courier, now);
    ActiveIsTaken(w.courses, order);
    EngagedIsOnTheRoad(w.courses, courier);
  }

  /** The course that a successful offer adds: of that order and courier, offered at
      that instant, with nothing stamped, owed or said yet. */
  lemma OfferedCourse(w: World, order: nat, courier: nat, now: int)
    requires Offer(w, order, courier, now).1.Success?
    ensures var (v, r) := Offer(w, order, courier, now);
            && r.value == |w.courses| && |v.courses| == |w.courses| + 1 && v == w.(courses := v.courses)
            && (forall i :: 0 <= i < |w.courses| ==> v.courses[i] == w.courses[i])
            && var a := v.courses[r.value];
               && a.order == order && a.courier == courier && a.status == Offered && a.offeredAt == now
               && a.acceptedAt == None && a.pickedUpAt == None && a.deliveredAt == None
               && a.fee == None && a.reason == "" && !a.struckOff
  {
  }

  /** The database takes a table of courses exactly when no two courses in hand are of
      one order and no two on the road of one courier. */
  lemma SaveMeaning(w: World, courses: seq<Course>, id: nat)
    ensures var (v, r) := Save(w, courses, id);
            && (r.Success? <==>
                  && (forall i, j :: 0 <= i < j < |courses| && courses[i].order == courses[j].order ==> Over(courses[i]) || Over(courses[j]))
                  && (forall i, j :: 0 <= i < j < |courses| && courses[i].courier == courses[j].courier ==> !Rolling(courses[i]) || !Rolling(courses[j])))
            && (r.Success? ==> r.value == id && v == w.(courses := courses))
            && (r.Failure? ==> r.error == IntegrityError && v == w)
  {
    assert forall i :: 0 <= i < |courses| ==> (Over(courses[i]) <==> Terminal(courses[i].status)) && (Rolling(courses[i]) <==> Engaged(courses[i].status));
  }

  predicate Over(a: Course) {
    a.status == Declined || a.status == Cancelled || a.status == Delivered
  }

  predicate Rolling(a: Course) {
    a.status == Accepted || a.status == PickedUp || a.status == OnTheWay
  }

  predicate OnlyCourse(w: World, v: World, i: nat) {
    && v == w.(courses := v.courses) && i < |w.courses| && |v.courses| == |w.courses|
    && forall j :: 0 <= j < |w.courses| && j != i ==> v.courses[j] == w.courses[j]
  }

  /** An acceptance succeeds exactly when the course is this courier's open offer, its
      order is alive, and the courier is online, approved, of an open account and not
      on the road; it stamps the instant and freezes the fee of that moment. */
  lemma AcceptMeaning(w: World, course: nat, courier: nat, share: nat, now: int)
    requires Inv(w) && course < |w.courses| && courier in w.couriers && w.courses[course].order in w.orders
    ensures var a, c, (v, r) := w.courses[course], w.couriers[courier], Accept(w, course, courier, share, now);
            && (r.Success? <==>
                  && a.courier == courier && a.status == Offered && w.orders[a.order].status != OrderCancelled
                  && c.online && c.file == Approved && c.accountOpen && !OnTheRoad(w.courses, courier))
            && (r.Failure? ==> v == w)
            && (r.Success? ==>
                  && OnlyCourse(w, v, course) && r.value == course
                  && v.courses[course] == a.(status := Accepted, acceptedAt := Some(now), fee := Some(CourierFee(w.orders[a.order], share))))
  {
    AcceptNeverHitsConstraint(w, course, courier, share, now);
    EngagedIsOnTheRoad(w.courses, courier);
  }

  /** A decline judges the instance it is handed, and writes status and reason. */
  lemma DeclineMeaning(w: World, course: nat, handed: Course, courier: nat, reason: string)
    requires Constraints(w.courses) && course < |w.courses| && Constraints(w.courses[course := w.courses[course].(status := Declined)])
    ensures var (v, r) := Decline(w, course, handed, courier, reason);
            && (r.Success? <==> handed.courier == courier && handed.status == Offered)
            && (r.Failure? ==> v == w)
            && (r.Success? ==> OnlyCourse(w, v, course) && v.courses[course] == w.courses[course].(status := Declined, reason := reason))
  {
    var plain, written := w.courses[course := w.courses[course].(status := Declined)],
                          w.courses[course := w.courses[course].(status := Declined, reason := reason)];
    assert forall i :: 0 <= i < |plain| ==>
      plain[i].status == written[i].status && plain[i].order == written[i].order && plain[i].courier == written[i].courier;
  }

  /** What a step writes on its course, its order and its courier's counters; the
      steps that have a column of their own are stamped with the instant. */
  lemma TransitionMeaning(w: World, course: nat, target: DeliveryStatus, reason: string, now: int)
    requires TransitionTo(w, course, target, reason, now).1.Success?
    ensures course < |w.courses| && w.courses[course].order in w.orders && w.courses[course].courier in w.couriers
    ensures var a, v := w.courses[course], TransitionTo(w, course, target, reason, now).0;
            && |v.courses| == |w.courses| && v.autoKitchens == w.autoKitchens
            && a.order in v.orders && a.courier in v.couriers
            && (a.status == target ==> v == w)
            && (forall j :: 0 <= j < |w.courses| && j != course ==> v.courses[j] == w.courses[j])
            && v.orders == w.orders[a.order := v.orders[a.order]] && v.couriers == w.couriers[a.courier := v.couriers[a.courier]]
  {
  }

  lemma TransitionWrites(w: World, course: nat, target: DeliveryStatus, reason: string, now: int)
    requires course < |w.courses| && w.courses[course].order in w.orders && w.courses[course].courier in w.couriers
    requires w.courses[course].status != target && TransitionTo(w, course, target, reason, now).1.Success?
    ensures var a, v := w.courses[course], TransitionTo(w, course, target, reason, now).0;
            && course < |v.courses| && a.order in v.orders && a.courier in v.couriers
            && var b, o, c := v.courses[course], v.orders[a.order], v.couriers[a.courier];
               && b == a.(status := target,
                          pickedUpAt := if target == PickedUp then Some(now) else a.pickedUpAt,
                          deliveredAt := if target == Delivered then Some(now) else a.deliveredAt,
                          reason := if target == Cancelled then reason else a.reason,
                          struckOff := target == Cancelled || a.struckOff)
               && o == w.orders[a.order].(status := match target
                                                    case PickedUp => OrderPickedUp
                                                    case OnTheWay => OrderOnTheWay
                                                    case Delivered => OrderDelivered
                                                    case _ => w.orders[a.order].status)
               && c == w.couriers[a.courier].(completed := c.completed, cancelled := c.cancelled, earnings := c.earnings)
               && c.completed == w.couriers[a.courier].completed + (if target == Delivered then 1 else 0)
               && c.cancelled == w.couriers[a.courier].cancelled + (if target == Cancelled then 1 else 0)
               && c.earnings == (if target == Delivered && a.fee.Some?
                                 then Some(Money((if w.couriers[a.courier].earnings.Some? then w.couriers[a.courier].earnings.value.minor else 0)
                                                 + a.fee.value.minor, a.fee.value.currency))
                                 else w.couriers[a.courier].earnings)
  {
  }

  /** An order moves along its machine, alone; cancelled, it takes with it exactly its
      courses still offered or only accepted. */
  lemma MoveOrderMeaning(w: World, order: nat, target: OrderStatus)
    requires order in w.orders
    ensures var o, (v, r) := w.orders[order], MoveOrder(w, order, target);
            && (r.Success? <==> o.status == target || Edge(ORDER_MACHINE, o.status, target))
            && (r.Failure? ==> v == w)
            && (r.Success? ==> v == w.(orders := w.orders[order := o.(status := target)], courses := v.courses))
            && |v.courses| == |w.courses|
            && forall i :: 0 <= i < |w.courses| ==>
                 v.courses[i] == if r.Success? && o.status != target && target == OrderCancelled && w.courses[i].order == order
                                    && (w.courses[i].status == Offered || w.courses[i].status == Accepted)
                                 then w.courses[i].(status := Cancelled, reason := "La commande a été annulée.")
                                 else w.courses[i]
  {
  }

  // ------------------------------------------------------------------------- papers

  /** What is written as notes is the text between its outer blanks. */
  lemma {:induction false} StripMeaning(s: string) returns (i: nat, j: nat)
    ensures i <= j <= |s| && Strip(s) == s[i..j]
    ensures forall k :: 0 <= k < i || j <= k < |s| ==> IsSpace(s[k])
    ensures i < j ==> !IsSpace(s[i]) && !IsSpace(s[j - 1])
    decreases |s|
  {
    if s != "" && IsSpace(s[0]) {
      i, j := StripMeaning(s[1..]);
      assert s[1..][i..j] == s[i + 1..j + 1];
      forall k | 0 <= k < i + 1 || j + 1 <= k < |s| ensures IsSpace(s[k]) {
        if k > 0 { assert s[k] == s[1..][k - 1]; }
      }
      i, j := i + 1, j + 1;
    } else if s != "" && IsSpace(s[|s| - 1]) {
      i, j := StripMeaning(s[..|s| - 1]);
      assert s[..|s| - 1][i..j] == s[i..j];
    } else {
      i, j := 0, |s|;
    }
  }

  /** A review that moves the file leaves its stripped notes on it, one that does not
      leaves the old ones; neither touches anything else of the courier. */
  lemma ReviewWrites(w: World, courier: nat, target: FileStatus, notes: string, dates: map<Piece, int>, today: int)
    requires Review(w, courier, target, notes, dates, today).1.Success?
    ensures courier in w.couriers && courier in Review(w, courier, target, notes, dates, today).0.couriers
    ensures var b, c := w.couriers[courier], Review(w, courier, target, notes, dates, today).0.couriers[courier];
            && c == b.(file := target, expiries := b.expiries + dates, notes := c.notes, online := c.online)
            && (b.file == target ==> c.notes == b.notes && c.online == b.online)
            && (b.file != target ==> c.notes == Strip(notes) && (c.online <==> b.online && target == Approved))
  {
  }

  /** Replaced papers lose their dates, the others keep them; a file approved or
      rejected on the instance handed goes back to review, offline and without notes,
      any other stays as it is. */
  lemma ReplacedPapers(w: World, courier: nat, handed: Courier, pieces: set<Piece>)
    requires courier in w.couriers
    ensures var (v, r) := ReplaceDocumentsFrom(w, courier, handed, pieces);
            && r == Success(courier) && v == w.(couriers := v.couriers) && v.couriers.Keys == w.couriers.Keys
            && (forall c :: c in w.couriers && c != courier ==> v.couriers[c] == w.couriers[c])
            && var b, c := w.couriers[courier], v.couriers[courier];
               && (forall p :: p in c.expiries <==> p in b.expiries && p !in pieces)
               && (forall p :: p in c.expiries ==> c.expiries[p] == b.expiries[p])
               && (if handed.file == Approved || handed.file == Rejected
                   then c == b.(expiries := c.expiries, file := AwaitingReview, online := false, notes := "")
                   else c == b.(expiries := c.expiries))
    ensures ReplaceDocuments(w, courier, pieces) == ReplaceDocumentsFrom(w, courier, w.couriers[courier], pieces)
  {
  }
}

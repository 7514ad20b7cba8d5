/** Orders, couriers and courses, and what each service call does to them
    (apps/delivery/services.py, dispatch.py, models.py; OrderService.transition_to).

    A call is a function from the world to the world after it and a reply. A
    refused call is a rolled-back transaction: it returns the world it was given.
    Courses are never deleted, so a course is known by its index. */
module DeliveryWorld {
  import opened Wrappers
  import opened Rounding
  import opened Moneys
  import opened StateMachines
  import opened DeliveryStates

  datatype Order = Order(
    status: OrderStatus,
    kitchen: nat,
    zone: Option<nat>,
    fee: Money,
    feeGross: Option<Money>,
    placedAt: int)

  datatype Piece = Identity | Licence | Vehicle

  datatype Courier = Courier(
    kitchen: nat,
    online: bool,
    file: FileStatus,
    notes: string,
    accountOpen: bool,
    zones: set<nat>,
    expiries: map<Piece, int>,
    completed: nat,
    cancelled: nat,
    earnings: Option<Money>)

  /** `struckOff` is history, not a column: the course was cancelled by
      `transition_to` and not by the cancellation of its order. */
  datatype Course = Course(
    order: nat,
    courier: nat,
    status: DeliveryStatus,
    offeredAt: int,
    acceptedAt: Option<int>,
    pickedUpAt: Option<int>,
    deliveredAt: Option<int>,
    fee: Option<Money>,
    reason: string,
    struckOff: bool)

  /** `autoKitchens`: the kitchens that dispatch automatically. */
  datatype World = World(
    orders: map<nat, Order>,
    couriers: map<nat, Courier>,
    courses: seq<Course>,
    autoKitchens: set<nat>)

  datatype Refused =
    | NoSuchRow
    | OrderNotReady(status: OrderStatus)
    | NotEligible
    | OtherKitchen
    | OutOfZone
    | CourierEngaged
    | OrderHasCourse
    | NotYours
    | OrderWasCancelled
    | Illegal(source: DeliveryStatus, target: DeliveryStatus)
    | IllegalOrderMove(from: OrderStatus, to: OrderStatus)
    | IllegalFileMove(was: FileStatus, wanted: FileStatus)
    | OrderCannotFollow(order: OrderStatus, expected: OrderStatus)
    | ReasonMissing
    | PieceExpired(piece: Piece)
    | IntegrityError
    | WrongCurrency

  type Reply = Result<nat, Refused>

  // ----------------------------------------------------------------- eligibility

  /** L1: online, file approved, account open. */
  predicate CanAcceptOrders(c: Courier) {
    c.online && c.file == Approved && c.accountOpen
  }

  predicate ServesZone(c: Courier, zone: Option<nat>) {
    c.zones == {} || (zone.Some? && zone.value in c.zones)
  }

  predicate IsEngaged(courses: seq<Course>, courier: nat) {
    exists i :: 0 <= i < |courses| && courses[i].courier == courier && Engaged(courses[i].status)
  }

  predicate HasActive(courses: seq<Course>, order: nat) {
    exists i :: 0 <= i < |courses| && courses[i].order == order && !Terminal(courses[i].status)
  }

  /** The two partial-unique constraints on courses. */
  predicate OneActivePerOrder(courses: seq<Course>) {
    forall i, j :: 0 <= i < j < |courses| && courses[i].order == courses[j].order ==>
                     Terminal(courses[i].status) || Terminal(courses[j].status)
  }

  predicate OneEngagedPerCourier(courses: seq<Course>) {
    forall i, j :: 0 <= i < j < |courses| && courses[i].courier == courses[j].courier ==>
                     !Engaged(courses[i].status) || !Engaged(courses[j].status)
  }

  predicate Constraints(courses: seq<Course>) {
    OneActivePerOrder(courses) && OneEngagedPerCourier(courses)
  }

  /** Writing courses: the database refuses what breaks a constraint. */
  function Save(w: World, courses: seq<Course>, id: nat): (World, Reply) {
    if Constraints(courses) then (w.(courses := courses), Success(id))
    else (w, Failure(IntegrityError))
  }

  // ----------------------------------------------------------------------- offer

  function NewCourse(order: nat, courier: nat, now: int): Course {
    Course(order, courier, Offered, now, None, None, None, None, "", false)
  }

  /** What `offer` checks about the courier, in its order. */
  function CourierRefusal(w: World, o: Order, courier: nat): Option<Refused>
    requires courier in w.couriers
  {
    var c := w.couriers[courier];
    if !CanAcceptOrders(c) then Some(NotEligible)
    else if c.kitchen != o.kitchen then Some(OtherKitchen)
    else if !ServesZone(c, o.zone) then Some(OutOfZone)
    else if IsEngaged(w.courses, courier) then Some(CourierEngaged)
    else None
  }

  function Offer(w: World, order: nat, courier: nat, now: int): (World, Reply) {
    if order !in w.orders || courier !in w.couriers then (w, Failure(NoSuchRow))
    else if w.orders[order].status != Ready then (w, Failure(OrderNotReady(w.orders[order].status)))
    else match CourierRefusal(w, w.orders[order], courier)
      case Some(why) => (w, Failure(why))
      case None =>
        if HasActive(w.courses, order) then (w, Failure(OrderHasCourse))
        else Save(w, w.courses + [NewCourse(order, courier, now)], |w.courses|)
  }

  // ---------------------------------------------------------------------- accept

  /** The courier's part of the course, on its value and not on what was billed. */
  function CourierFee(o: Order, sharePercent: nat): Money {
    Percentage(if o.feeGross.Some? then o.feeGross.value else o.fee, Decimal(sharePercent, 0))
  }

  function Accept(w: World, course: nat, courier: nat, sharePercent: nat, now: int): (World, Reply) {
    if course >= |w.courses| || courier !in w.couriers || w.courses[course].order !in w.orders then (w, Failure(NoSuchRow))
    else
      var a := w.courses[course];
      var o := w.orders[a.order];
      if a.courier != courier then (w, Failure(NotYours))
      else if o.status == OrderCancelled then (w, Failure(OrderWasCancelled))
      else if !CanAcceptOrders(w.couriers[courier]) then (w, Failure(NotEligible))
      else if IsEngaged(w.courses, courier) then (w, Failure(CourierEngaged))
      else if Accepted !in DELIVERY_MACHINE[a.status] then (w, Failure(Illegal(a.status, Accepted)))
      else
        var taken := a.(status := Accepted, acceptedAt := Some(now), fee := Some(CourierFee(o, sharePercent)));
        Save(w, w.courses[course := taken], course)
  }

  // ------------------------------------------------------------ decline and expire

  /** `handed` is the instance the caller holds: its status is what is checked,
      and only status and reason are written. */
  function Decline(w: World, course: nat, handed: Course, courier: nat, reason: string): (World, Reply) {
    if course >= |w.courses| then (w, Failure(NoSuchRow))
    else if handed.courier != courier then (w, Failure(NotYours))
    else if Declined !in DELIVERY_MACHINE[handed.status] then (w, Failure(Illegal(handed.status, Declined)))
    else Save(w, w.courses[course := w.courses[course].(status := Declined, reason := reason)], course)
  }

  const EXPIRED_OFFER_REASON := "Sans réponse dans le délai : course proposée à un autre livreur."

  /** Closes an unanswered offer; the flag says whether this call closed it. */
  function Expire(w: World, course: nat): (World, bool) {
    if course >= |w.courses| || w.courses[course].status != Offered then (w, false)
    else (w.(courses := w.courses[course := w.courses[course].(status := Declined, reason := EXPIRED_OFFER_REASON)]), true)
  }

  // --------------------------------------------------------------------- progress

  /** May the order receive what this course step projects on it? */
  predicate OrderFollows(o: OrderStatus, target: DeliveryStatus) {
    match Projection(target)
    case None => true
    case Some(p) => o == p || p in ORDER_MACHINE[o]
  }

  function Stamp(a: Course, target: DeliveryStatus, reason: string, now: int): Course {
    var b := a.(status := target);
    match target
    case PickedUp => b.(pickedUpAt := Some(now))
    case Delivered => b.(deliveredAt := Some(now))
    case Cancelled => b.(reason := reason, struckOff := true)
    case _ => b
  }

  function Projected(o: Order, target: DeliveryStatus): Order {
    match Projection(target)
    case None => o
    case Some(p) => o.(status := p)
  }

  /** `_credit`: one delivery, and its frozen fee if it has one. */
  function Credit(c: Courier, fee: Option<Money>): Result<Courier, Refused> {
    var d := c.(completed := c.completed + 1);
    match fee
    case None => Success(d)
    case Some(earned) =>
      var current := if c.earnings.Some? then c.earnings.value else Money(0, earned.currency);
      match Add(current, earned)
      case Failure(_) => Failure(WrongCurrency)
      case Success(total) => Success(d.(earnings := Some(total)))
  }

  /** What a course step does to its courier's counters. */
  function Settled(c: Courier, a: Course, target: DeliveryStatus): Result<Courier, Refused> {
    if target == Delivered then Credit(c, a.fee)
    else if target == Cancelled then Success(c.(cancelled := c.cancelled + 1))
    else Success(c)
  }

  function TransitionTo(w: World, course: nat, target: DeliveryStatus, reason: string, now: int): (World, Reply) {
    if course >= |w.courses| || w.courses[course].order !in w.orders || w.courses[course].courier !in w.couriers
    then (w, Failure(NoSuchRow))
    else
      var a := w.courses[course];
      var o := w.orders[a.order];
      if a.status == target then (w, Success(course))
      else if target !in DELIVERY_MACHINE[a.status] then (w, Failure(Illegal(a.status, target)))
      else if o.status == OrderCancelled && target != Cancelled then (w, Failure(OrderWasCancelled))
      else if !OrderFollows(o.status, target) then (w, Failure(OrderCannotFollow(o.status, Projection(target).value)))
      else
        var courses := w.courses[course := Stamp(a, target, reason, now)];
        if !Constraints(courses) then (w, Failure(IntegrityError))
        else match Settled(w.couriers[a.courier], a, target)
          case Failure(why) => (w, Failure(why))
          case Success(c) =>
            (w.(courses := courses,
                orders := w.orders[a.order := Projected(o, target)],
                couriers := w.couriers[a.courier := c]),
             Success(course))
  }

  // ----------------------------------------------------------------------- orders

  function CloseOne(a: Course, order: nat, reason: string): Course {
    if a.order == order && (a.status == Offered || a.status == Accepted)
    then a.(status := Cancelled, reason := reason)
    else a
  }

  /** `close_for_cancelled_order`: open courses end with their order, and the
      courier is not blamed. */
  function CloseOpen(courses: seq<Course>, order: nat, reason: string): (r: seq<Course>)
    ensures |r| == |courses|
    ensures forall i :: 0 <= i < |courses| ==> r[i] == CloseOne(courses[i], order, reason)
  {
    seq(|courses|, i requires 0 <= i < |courses| => CloseOne(courses[i], order, reason))
  }

  const CANCELLED_ORDER_REASON := "La commande a été annulée."

  /** `OrderService.transition_to`, with the receiver that follows a cancellation. */
  function MoveOrder(w: World, order: nat, target: OrderStatus): (World, Reply) {
    if order !in w.orders then (w, Failure(NoSuchRow))
    else
      var o := w.orders[order];
      if o.status == target then (w, Success(order))
      else if target !in ORDER_MACHINE[o.status] then (w, Failure(IllegalOrderMove(o.status, target)))
      else
        var moved := w.(orders := w.orders[order := o.(status := target)]);
        (if target == OrderCancelled then moved.(courses := CloseOpen(w.courses, order, CANCELLED_ORDER_REASON)) else moved,
         Success(order))
  }

  // --------------------------------------------------------------------- couriers

  function WithCourier(w: World, courier: nat, c: Courier): World {
    w.(couriers := w.couriers[courier := c])
  }

  predicate NeedsReason(target: FileStatus) {
    target == Rejected || target == Suspended
  }

  predicate IsSpace(c: char) {
    c == ' ' || '\t' <= c <= '\r'
  }

  function Strip(s: string): string {
    if s != "" && IsSpace(s[0]) then Strip(s[1..])
    else if s != "" && IsSpace(s[|s| - 1]) then Strip(s[..|s| - 1])
    else s
  }

  /** The first expired piece, in the order of the file's pieces. */
  function FirstExpired(expiries: map<Piece, int>, today: int): Option<Piece> {
    if Identity in expiries && expiries[Identity] < today then Some(Identity)
    else if Licence in expiries && expiries[Licence] < today then Some(Licence)
    else if Vehicle in expiries && expiries[Vehicle] < today then Some(Vehicle)
    else None
  }

  function Review(w: World, courier: nat, target: FileStatus, notes: string, dates: map<Piece, int>, today: int): (World, Reply) {
    if courier !in w.couriers then (w, Failure(NoSuchRow))
    else
      var c := w.couriers[courier];
      var dated := c.(expiries := c.expiries + dates);
      var expired := FirstExpired(dated.expiries, today);
      if target == Approved && expired.Some? then (w, Failure(PieceExpired(expired.value)))
      else if c.file == target then (WithCourier(w, courier, dated), Success(courier))
      else if target !in VERIFICATION_MACHINE[c.file] then (w, Failure(IllegalFileMove(c.file, target)))
      else if NeedsReason(target) && Strip(notes) == "" then (w, Failure(ReasonMissing))
      else
        (WithCourier(w, courier, dated.(file := target, notes := Strip(notes), online := c.online && target == Approved)),
         Success(courier))
  }

  function SetOnline(w: World, courier: nat, online: bool): (World, Reply) {
    if courier !in w.couriers then (w, Failure(NoSuchRow))
    else (WithCourier(w, courier, w.couriers[courier].(online := online)), Success(courier))
  }

  predicate Reopens(file: FileStatus) {
    file == Approved || file == Rejected
  }

  /** New pieces lose the old dates and reopen an approved or rejected file. The
      status judged is that of the instance `handed` to the call; only the columns
      it touches are written on the row. */
  function ReplaceDocumentsFrom(w: World, courier: nat, handed: Courier, pieces: set<Piece>): (World, Reply) {
    if courier !in w.couriers then (w, Failure(NoSuchRow))
    else
      var undated := w.couriers[courier].(expiries := w.couriers[courier].expiries - pieces);
      (WithCourier(w, courier,
                   if Reopens(handed.file)
                   then undated.(file := AwaitingReview, online := false, notes := "")
                   else undated),
       Success(courier))
  }

  /** The call on a current instance. */
  function ReplaceDocuments(w: World, courier: nat, pieces: set<Piece>): (World, Reply) {
    if courier !in w.couriers then (w, Failure(NoSuchRow))
    else ReplaceDocumentsFrom(w, courier, w.couriers[courier], pieces)
  }

  // ------------------------------------------------------------------------- runs

  /** Every way the world moves, one committed transaction at a time. The last
      four stand for what other parts of the program do to these rows. */
  datatype Op =
    | DoOffer(order: nat, courier: nat, now: int)
    | DoAccept(course: nat, courier: nat, sharePercent: nat, now: int)
    | DoDecline(course: nat, courier: nat, reason: string)
    | DoExpire(course: nat)
    | DoTransition(course: nat, target: DeliveryStatus, reason: string, now: int)
    | DoMoveOrder(order: nat, to: OrderStatus)
    | DoReview(courier: nat, decision: FileStatus, notes: string, dates: map<Piece, int>, today: int)
    | DoSetOnline(courier: nat, online: bool)
    | DoReplaceDocuments(courier: nat, pieces: set<Piece>)
    | PlaceOrder(order: nat, row: Order)
    | Enrol(courier: nat, kitchen: nat)
    | SetAccount(courier: nat, open: bool)
    | SetZones(courier: nat, zones: set<nat>)

  function Step(w: World, op: Op): World {
    match op
    case DoOffer(order, courier, now) => Offer(w, order, courier, now).0
    case DoAccept(course, courier, share, now) => Accept(w, course, courier, share, now).0
    case DoDecline(course, courier, reason) =>
      if course < |w.courses| then Decline(w, course, w.courses[course], courier, reason).0 else w
    case DoExpire(course) => Expire(w, course).0
    case DoTransition(course, target, reason, now) => TransitionTo(w, course, target, reason, now).0
    case DoMoveOrder(order, target) => MoveOrder(w, order, target).0
    case DoReview(courier, target, notes, dates, today) => Review(w, courier, target, notes, dates, today).0
    case DoSetOnline(courier, online) => SetOnline(w, courier, online).0
    case DoReplaceDocuments(courier, pieces) => ReplaceDocuments(w, courier, pieces).0
    case PlaceOrder(order, row) =>
      if order in w.orders then w else w.(orders := w.orders[order := row.(status := Pending)])
    case Enrol(courier, kitchen) =>
      if courier in w.couriers then w
      else WithCourier(w, courier, Courier(kitchen, false, AwaitingReview, "", true, {}, map[], 0, 0, None))
    case SetAccount(courier, open) =>
      if courier !in w.couriers then w else WithCourier(w, courier, w.couriers[courier].(accountOpen := open))
    case SetZones(courier, zones) =>
      if courier !in w.couriers then w else WithCourier(w, courier, w.couriers[courier].(zones := zones))
  }

  function Run(w: World, ops: seq<Op>): World {
    if ops == [] then w else Step(Run(w, ops[..|ops| - 1]), ops[|ops| - 1])
  }

  function EmptyWorld(autoKitchens: set<nat>): World {
    World(map[], map[], [], autoKitchens)
  }
}

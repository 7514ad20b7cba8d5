/** The life cycles of apps/delivery/states.py and apps/orders/states.py. */
module DeliveryStates {
  import opened Wrappers
  import opened StateMachines

  datatype DeliveryStatus = Offered | Accepted | PickedUp | OnTheWay | Delivered | Declined | Cancelled

  datatype OrderStatus =
    | Pending | Confirmed | Preparing | Ready
    | OrderPickedUp | OrderOnTheWay | OrderDelivered | OrderCancelled

  datatype FileStatus = AwaitingReview | Approved | Rejected | Suspended

  function DeliveryTargets(s: DeliveryStatus): set<DeliveryStatus> {
    match s
    case Offered => {Accepted, Declined, Cancelled}
    case Accepted => {PickedUp, Cancelled}
    case PickedUp => {OnTheWay}
    case OnTheWay => {Delivered}
    case _ => {}
  }

  function OrderTargets(s: OrderStatus): set<OrderStatus> {
    match s
    case Pending => {Confirmed, OrderCancelled}
    case Confirmed => {Preparing, OrderCancelled}
    case Preparing => {Ready, OrderCancelled}
    case Ready => {OrderPickedUp, OrderCancelled}
    case OrderPickedUp => {OrderOnTheWay}
    case OrderOnTheWay => {OrderDelivered}
    case _ => {}
  }

  function FileTargets(s: FileStatus): set<FileStatus> {
    match s
    case AwaitingReview => {Approved, Rejected}
    case Approved => {AwaitingReview, Suspended}
    case Rejected => {AwaitingReview}
    case Suspended => {Approved, Rejected}
  }

  const DELIVERY_MACHINE: Table<DeliveryStatus> := map s: DeliveryStatus | true :: DeliveryTargets(s)
  const ORDER_MACHINE: Table<OrderStatus> := map s: OrderStatus | true :: OrderTargets(s)
  const VERIFICATION_MACHINE: Table<FileStatus> := map s: FileStatus | true :: FileTargets(s)

  predicate Engaged(s: DeliveryStatus) {
    s == Accepted || s == PickedUp || s == OnTheWay
  }

  predicate Terminal(s: DeliveryStatus) {
    s == Declined || s == Cancelled || s == Delivered
  }

  /** Steps of a course that must carry the order along. */
  function Projection(s: DeliveryStatus): Option<OrderStatus> {
    match s
    case PickedUp => Some(OrderPickedUp)
    case OnTheWay => Some(OrderOnTheWay)
    case Delivered => Some(OrderDelivered)
    case _ => None
  }

  // ------------------------------------------------------- the import-time checks

  /** Every course step raises its rank, so a status left is never re-entered. */
  function CourseRank(s: DeliveryStatus): nat {
    match s
    case Offered => 0
    case Accepted => 1
    case PickedUp => 2
    case OnTheWay => 3
    case _ => 4
  }

  /** How far an order has gone; a cancelled order has gone nowhere. */
  function Stage(s: OrderStatus): nat {
    match s
    case OrderCancelled => 0
    case Pending => 1
    case Confirmed => 2
    case Preparing => 3
    case Ready => 4
    case OrderPickedUp => 5
    case OrderOnTheWay => 6
    case OrderDelivered => 7
  }

  /** Both machines that must be acyclic are: the constructor accepts them. */
  lemma CourseMachineIsAcyclic()
    ensures Declared(DELIVERY_MACHINE) && Acyclic(DELIVERY_MACHINE)
  {
    RankMeansAcyclic(DELIVERY_MACHINE, CourseRank);
  }

  lemma OrderMachineIsAcyclic()
    ensures Declared(ORDER_MACHINE) && Acyclic(ORDER_MACHINE)
  {
    RankMeansAcyclic(ORDER_MACHINE, s => if s == OrderCancelled then 8 else Stage(s));
  }

  /** The courier's file is the one cyclic machine: with the acyclicity check on
      it would be refused. */
  lemma FileMachineIsCyclic()
    ensures Declared(VERIFICATION_MACHINE) && !Acyclic(VERIFICATION_MACHINE)
  {
    var p := [AwaitingReview, Approved, AwaitingReview];
    assert Edge(VERIFICATION_MACHINE, p[0], p[1]) && Edge(VERIFICATION_MACHINE, p[1], p[2]);
    assert Cycle(VERIFICATION_MACHINE, p);
  }

  /** Engaged and terminal partition the machine, bar the offer; a terminal
      step is one the machine cannot leave; and only steps past pickup project. */
  lemma StatusesArePartitioned(s: DeliveryStatus)
    ensures s != Offered ==> (Engaged(s) <==> !Terminal(s))
    ensures Terminal(s) <==> IsTerminal(DELIVERY_MACHINE, s)
    ensures Projection(s).Some? ==> Projection(s).value in ORDER_MACHINE && Reaches(DELIVERY_MACHINE, Accepted, s)
  {
    assert Terminal(s) ==> DELIVERY_MACHINE[s] == {};
    assert !Terminal(s) ==> exists x :: x in DeliveryTargets(s) by {
      if s == Offered { assert Accepted in DeliveryTargets(s); }
      if s == Accepted { assert PickedUp in DeliveryTargets(s); }
      if s == PickedUp { assert OnTheWay in DeliveryTargets(s); }
      if s == OnTheWay { assert Delivered in DeliveryTargets(s); }
    }
    if Projection(s).Some? {
      ReachesStep(DELIVERY_MACHINE, Accepted, Accepted, PickedUp);
      ReachesStep(DELIVERY_MACHINE, Accepted, PickedUp, OnTheWay);
      ReachesStep(DELIVERY_MACHINE, Accepted, OnTheWay, Delivered);
    }
  }

  const EARLY_EDGES: set<(OrderStatus, OrderStatus)> :=
    {(Pending, Confirmed), (Confirmed, Preparing), (Preparing, Ready),
     (Ready, OrderPickedUp), (OrderPickedUp, OrderOnTheWay), (OrderOnTheWay, OrderDelivered)}

  const CANCEL_EDGES: set<(OrderStatus, OrderStatus)> :=
    {(Pending, OrderCancelled), (Confirmed, OrderCancelled), (Preparing, OrderCancelled), (Ready, OrderCancelled)}

  lemma OrderEdges()
    ensures ProperEdges(ORDER_MACHINE) == EARLY_EDGES + CANCEL_EDGES
  {
    forall a, b ensures b in OrderTargets(a) <==> (a, b) in EARLY_EDGES + CANCEL_EDGES {
    }
    assert forall a, b :: (a, b) in ProperEdges(ORDER_MACHINE) ==> b in OrderTargets(a);
    forall e | e in EARLY_EDGES + CANCEL_EDGES ensures e in ProperEdges(ORDER_MACHINE) {
      assert e.1 in OrderTargets(e.0);
    }
  }

  lemma EightStatuses()
    ensures |ORDER_MACHINE| == 8
  {
    var states := {Pending, Confirmed, Preparing, Ready, OrderPickedUp, OrderOnTheWay, OrderDelivered, OrderCancelled};
    assert |states| == 8;
    assert ORDER_MACHINE.Keys == states;
    assert |ORDER_MACHINE| == |ORDER_MACHINE.Keys|;
  }

  /** Of the 56 ordered pairs of distinct order statuses, 46 are refused. */
  lemma OrderRefusesFortySix()
    ensures |ORDER_MACHINE| * (|ORDER_MACHINE| - 1) == 56
    ensures |IllegalPairs(ORDER_MACHINE)| == 46
  {
    CountIllegalPairs(ORDER_MACHINE);
    EightStatuses();
    OrderEdges();
    assert |EARLY_EDGES| == 6 && |CANCEL_EDGES| == 4;
    assert EARLY_EDGES !! CANCEL_EDGES;
  }

  // -------------------------------------------------------------------- progress

  lemma {:induction false} WalkRaisesStage(p: seq<OrderStatus>)
    requires Walk(ORDER_MACHINE, p)
    ensures p[|p| - 1] == OrderCancelled || Stage(p[|p| - 1]) >= Stage(p[0])
    ensures Stage(p[0]) >= 5 ==> p[|p| - 1] != OrderCancelled
    decreases |p|
  {
    if |p| > 1 {
      assert Edge(ORDER_MACHINE, p[|p| - 2], p[|p| - 1]);
      OrderMachineIsAcyclic();
      SubWalk(ORDER_MACHINE, p, 0, |p| - 1);
      assert p[0..|p| - 1] == p[..|p| - 1];
      WalkRaisesStage(p[..|p| - 1]);
    }
  }

  /** Past pickup, comparing stages is comparing reachability in the machine. */
  lemma StageIsReachability(s: OrderStatus, target: OrderStatus)
    requires Stage(target) >= 5
    ensures Stage(s) >= Stage(target) <==> s == target || Reaches(ORDER_MACHINE, target, s)
  {
    if Reaches(ORDER_MACHINE, target, s) {
      var p :| WalkBetween(ORDER_MACHINE, p, target, s);
      WalkRaisesStage(p);
    }
    if Stage(s) > Stage(target) {
      if target == OrderPickedUp {
        ReachesStep(ORDER_MACHINE, target, target, OrderOnTheWay);
        ReachesStep(ORDER_MACHINE, target, OrderOnTheWay, OrderDelivered);
      } else {
        ReachesStep(ORDER_MACHINE, target, target, OrderDelivered);
      }
    }
  }

  // ------------------------------------------------------------------ roads and doors

  /** The only road of a course to delivery, whatever moves it. */
  lemma OnlyRoadToDelivered(p: seq<DeliveryStatus>)
    requires Walk(DELIVERY_MACHINE, p) && p[0] == Offered && p[|p| - 1] == Delivered
    ensures p == [Offered, Accepted, PickedUp, OnTheWay, Delivered]
  {
    NextOnTheRoad(p, 0);
    NextOnTheRoad(p, 1);
    NextOnTheRoad(p, 2);
    NextOnTheRoad(p, 3);
    assert |p| > 5 ==> Edge(DELIVERY_MACHINE, p[4], p[5]);
  }

  /** On the way to delivery a course never steps aside. */
  lemma NextOnTheRoad(p: seq<DeliveryStatus>, i: nat)
    requires Walk(DELIVERY_MACHINE, p) && p[|p| - 1] == Delivered && i < |p| && p[i] != Delivered
    ensures i + 1 < |p|
    ensures p[i] == Offered ==> p[i + 1] == Accepted
    ensures p[i] == Accepted ==> p[i + 1] == PickedUp
    ensures p[i] == PickedUp ==> p[i + 1] == OnTheWay
    ensures p[i] == OnTheWay ==> p[i + 1] == Delivered
  {
    assert Edge(DELIVERY_MACHINE, p[i], p[i + 1]);
    if p[i + 1] == Cancelled || p[i + 1] == Declined {
      assert i + 2 < |p| ==> Edge(DELIVERY_MACHINE, p[i + 1], p[i + 2]);
    }
  }

  /** A course is cancelled only before it is picked up, and declined only as an offer. */
  lemma WaysOut(s: DeliveryStatus)
    ensures Edge(DELIVERY_MACHINE, s, Cancelled) <==> s == Offered || s == Accepted
    ensures Edge(DELIVERY_MACHINE, s, Declined) <==> s == Offered
    ensures !Edge(DELIVERY_MACHINE, s, Offered)
  {
  }

  /** An order is cancelled only before it is picked up; otherwise it goes forward by
      one stage. */
  lemma OrderGoesForward(s: OrderStatus, next: OrderStatus)
    ensures Edge(ORDER_MACHINE, s, next) <==>
            if next == OrderCancelled then 1 <= Stage(s) <= 4 else s != OrderCancelled && Stage(next) == Stage(s) + 1
  {
  }

  /** A file is approved from its review or a suspension, suspended only from approval,
      rejected from its review or a suspension, and back in review after the two
      decisions that new papers can undo. */
  lemma FileDoors(s: FileStatus, next: FileStatus)
    ensures Edge(VERIFICATION_MACHINE, s, next) <==>
            match next
            case Approved => s == AwaitingReview || s == Suspended
            case Suspended => s == Approved
            case Rejected => s == AwaitingReview || s == Suspended
            case AwaitingReview => s == Approved || s == Rejected
  {
  }
}

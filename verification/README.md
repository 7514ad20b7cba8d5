# Delivery platform: what its services keep

A model of a food-delivery back office. The centre is the courier delivery
protocol: orders, couriers and courses (an assignment of one order to one
courier) moved by offer, accept, decline, expire, progress, order moves and file
reviews, each a transaction under row locks and two partial-unique constraints.
Around it stand the machinery it rests on (the state-machine engine, money,
half-up rounding) and the other services whose claims span whole runs: the
real-time journal and its reconnecting clients, the basket and its pricing, the
judge of what can be ordered, the copy of a menu, stock, verification codes,
rewards and document reminders.

## How it is laid out

Values and whole-run results live in one module per concern; where the program
rewrites rows in place, a class with the same calls is proved, method by method,
to do what the functions say. The delivery rows carry the invariant of the runs, and
every method keeps it.

| files | what they model |
|---|---|
| `StateMachine.dfy`, `DeliveryStates.dfy` | the engine and the three machines |
| `DeliveryWorld.dfy`, `DeliveryInvariants.dfy`, `DeliveryHistory.dfy`, `DeliveryRules.dfy`, `DeliveryClock.dfy`, `DeliveryService.dfy` | the protocol: calls, what every run keeps, what whole runs can and cannot do, what each call means column by column, the instants, the calls on rows |
| `Dispatch.dfy`, `DispatchRules.dfy` | who is asked, and what a round leaves behind |
| `Interleaving.dfy`, `InterleavingRules.dfy` | the same transactions cut into begin, lock, read, check, commit and abort |
| `Realtime.dfy` | publishers and clients interleaved at every cache access |
| `Catalogue.dfy`, `Availability.dfy`, `AvailabilityRules.dfy`, `Cart.dfy`, `CartRules.dfy`, `CartService.dfy`, `CartHistory.dfy` | the judges, the basket, its pricing, and what happens to it over time |
| `Duplication.dfy`, `Stock.dfy`, `StockRules.dfy`, `VerificationCodes.dfy`, `VerificationService.dfy`, `VerificationRaces.dfy`, `Gamification.dfy`, `GamificationRules.dfy`, `GamificationService.dfy`, `GamificationRaces.dfy`, `Reminders.dfy`, `Rating.dfy` | the smaller services |
| `Rounding.dfy`, `DecimalContext.dfy`, `Money.dfy`, `Decimals.dfy`, `Quantities.dfy` | exact arithmetic, the 28 digits of the decimal context, and the two text codecs |

The modules whose names end in `Rules`, and `DeliveryClock`, tell each call again
without its own steps, in terms of columns, quantities and answers: they are what a
caller can rely on, and what a step done wrongly would contradict.

Times, distances, random codes, the answers of the kitchen, delivery and material
services, and the order in which the database lists rows where the program leaves
it open are parameters.

## Where the code and its words differ

The model follows the code. Each difference is a lemma.

* `transition_to` takes `accepted` as a target, so a courier who may not take
  orders can be engaged and no fee is frozen (`TransitionAcceptsTheIneligible`,
  `DeliveryPaysIffAccepted`).
* `decline` neither locks nor reads again: it can end an accepted course, or be
  overwritten by an `accept` (`LateDeclineEndsAnAcceptedCourse`,
  `AcceptRevivesADeclinedCourse`); a commit is a declared transition exactly when
  what it read is still there (`LegalIffFresh`).
* An order pushed past its course by hand leaves the course stuck; at `picked_up`
  it cannot even be cancelled and its courier is never offered anything again
  (`CanStillArrive`, `StaffCanOvertake`, `CourierIsLost`).
* The sequence counter lives 900 seconds from its creation and nothing renews it:
  numbers are reused exactly when it died in between (`ReusedIffCounterDied`), and
  a client is then not told to reload (`ExpiryIsSilent`).
* `replay` gives a very late client the last fifty events, not an empty list
  (`GapIffTooFarBehind`).
* `restore` credits every item tracked now, also one tracked only since the order
  (`RestoreUndoesConsumeIff`).
* Identical lines are to be one line. They become two by a PATCH with notes and
  neither options nor size (`NotesPatchKeepsFormIff`), by the deletion of the option
  or the sizes that told them apart (`DeletionKeepsFormIff`), and by two additions or
  rewritings at once, `add_line` and `update_line` taking no lock on the basket, which
  can also lose a quantity (`LateAddMeaning`, `LateRewriteMeaning`,
  `LateRewriteConservesIff`).
* Handling a delivery again is announced as without effect. The badges run before the
  challenges, so a replay can unlock a badge (`ReplayChangesNothingIff`,
  `ReplayCanUnlockABadge`); and progress computed earlier can be written later
  (`LateProgressGoesBack`).
* `replace_documents` judges the instance it was handed: papers can stay unread on a
  file approved meanwhile, and a suspension can be lifted
  (`NewPapersCloseTheDoorIff`, `StalePapersLiftSuspensionIff`).
* `allocate` hands the remainder to the first positions, a weightless one included
  (`WeightlessShare`).
* `issue` takes no lock; two at once can leave two codes, also when the second waits
  on the row of an old code (`OneCodeIffIssuesDoNotCross`, `TwoIssuesLeaveTwoCodes`,
  `WaitingBehindAnOldCodeLeavesTwoCodes`).
* A dish's average passes through a binary float before its one decimal rounding: a
  mean half way between two hundredths can be rounded down (`RecomputedMeaning`,
  `FortyReviewsRoundDown`).
* `from_major` and `from_unit` refuse rather than round, but judge a value already
  rounded to 28 digits (`Moneys.FromMajorIsExactIff`, `Quantities.FromUnitIsExactIff`,
  with an accepted long text in each module's `LongTextIsRounded`); `value_minor` on a
  product of more than 28 digits can be one unit off, or raise
  (`Quantities.ValueMinorMeaning`, `ValueMinorCanSlip`, `ValueMinorAnswersIff`).
* The engine's documentation counts 56 refused pairs for orders; 46 are refused
  (`OrderRefusesFortySix`).

## Model

| member | source | states |
|---|---|---|
| StateMachines.Build | common/state_machine.py:54-90 | a table is accepted exactly when every target is declared and, if asked, no cycle exists; the states or the cycle reported are evidence |
| StateMachines.AcyclicitySearch.Visit | common/state_machine.py:92-118 | the recursive three-colour search terminates, finishes every state below the one visited, or reports a walk that closes a cycle |
| StateMachines.FinishedMeansAcyclic | common/state_machine.py:92-118 | once every state is finished the table has no cycle |
| StateMachines.ClosedCycleRefutesAcyclic | common/state_machine.py:103-113 | a path reported by the search is a proof that a cycle exists |
| StateMachines.RunsNeverRevisit | common/state_machine.py:1-21 | in an accepted machine no run enters a state twice, which is what "counted once" rests on |
| StateMachines.RunsAreShort | common/state_machine.py:1-21 | every run of an accepted machine is at most as long as its states are many |
| StateMachines.EveryRunCanEnd | common/state_machine.py:132-133 | every run of an accepted machine extends to a terminal state |
| StateMachines.ReachableFrom | common/state_machine.py:155-165 | the worklist gives exactly the transitive closure, and fails exactly on an unknown state |
| StateMachines.ReplayStepRefusal | common/state_machine.py:135-153 | replay, step and refusal exclude one another; a step is validated exactly when it is a one-step run |
| StateMachines.CountIllegalPairs | common/state_machine.py:167-179 | refused pairs and declared pairs make up all ordered pairs of distinct states |
| DeliveryStates.CourseMachineIsAcyclic | apps/delivery/states.py:45-59 | the course machine is closed and acyclic |
| DeliveryStates.OrderMachineIsAcyclic | apps/orders/states.py:32-45 | the order machine is closed and acyclic |
| DeliveryStates.FileMachineIsCyclic | apps/delivery/states.py:159-171 | the file machine has a cycle, so it needs its exemption |
| DeliveryStates.StatusesArePartitioned | apps/delivery/states.py:82-150 | engaged and terminal split the statuses but the offer; terminal is having no way out; only steps after acceptance project |
| DeliveryStates.OrderRefusesFortySix | common/state_machine.py:167-179 | 46 of the 56 ordered pairs of order statuses are refused |
| DeliveryStates.StageIsReachability | apps/orders/states.py:32-43 | from pickup on, comparing stages is comparing reachability |
| DeliveryStates.OnlyRoadToDelivered | apps/delivery/states.py:45-59 | every run of a course from its offer to its delivery takes the same five statuses |
| DeliveryStates.WaysOut | apps/delivery/states.py:45-59 | a course is cancelled only before pickup, declined only as an offer, and never offered again |
| DeliveryStates.OrderGoesForward | apps/orders/states.py:32-45 | an order is cancelled only before pickup and otherwise moves one stage at a time |
| DeliveryStates.FileDoors | apps/delivery/states.py:159-171 | which decisions lead to which status of a file |
| DeliveryInvariants.OfferKeeps | apps/delivery/services.py:595-672 | an offer keeps the whole delivery invariant |
| DeliveryInvariants.OfferNeverHitsConstraint | apps/delivery/services.py:634-672 | `offer`'s own checks are enough: one call alone never meets a database constraint |
| DeliveryInvariants.AcceptKeeps | apps/delivery/services.py:692-758 | an acceptance keeps the whole delivery invariant |
| DeliveryInvariants.AcceptNeverHitsConstraint | apps/delivery/services.py:692-758 | nor does `accept` alone |
| DeliveryInvariants.DeclineKeeps | apps/delivery/services.py:854-869 | a decline on a current instance keeps the whole delivery invariant |
| DeliveryInvariants.ExpireKeeps | apps/delivery/dispatch.py:160-193 | an expiry keeps the whole delivery invariant |
| DeliveryInvariants.TransitionKeeps | apps/delivery/services.py:871-960 | a step of a course, with its projection and its credit, keeps the whole delivery invariant |
| DeliveryInvariants.SettledStaysBalanced | apps/delivery/services.py:1032-1055 | the counters written for a step are again the count of the courses and the sum of their frozen fees |
| DeliveryInvariants.MoveOrderKeeps | apps/delivery/dispatch.py:266-277 | an order move by hand, with the closing of open courses on cancellation, keeps the whole delivery invariant |
| DeliveryInvariants.CloseKeepsLedger | apps/delivery/services.py:811-851 | courses closed by an order cancellation touch no counter |
| DeliveryInvariants.RunKeeps | apps/delivery/services.py:590-1055 | every run, order moves by hand included, keeps links, simulation, both constraints, one course past pickup per order, fees and ledger |
| DeliveryInvariants.EmptyWorldIsSound | apps/delivery/models.py:234-276 | the invariant holds where every run starts |
| DeliveryHistory.CourseAndOrderAgree | apps/delivery/services.py:963-1029 | a course past pickup means an order at least there, a delivered course a delivered order, a cancelled order only terminal courses, and at most one course of an order past pickup |
| DeliveryHistory.CountersAreCourses | apps/delivery/services.py:1032-1055 | a courier's counters are the delivered courses, the courses cancelled through `transition_to` and the sum of frozen fees |
| DeliveryHistory.ReplayChangesNothing | apps/delivery/services.py:889-890 | a step taken again changes nothing and is not an error |
| DeliveryHistory.StepEvolves | apps/delivery/services.py:590-1055 | one call moves each course, order and file at most one declared step, adds only offers, keeps frozen fees, and pays only for a delivery |
| DeliveryHistory.RunEvolves | apps/delivery/services.py:590-1055 | over any run statuses only move along the machines and a fee never changes once set |
| DeliveryHistory.NeverReenters | apps/delivery/states.py:45-59 | a course never comes back to a status it left, so it is delivered and credited at most once |
| DeliveryHistory.TransitionAcceptsTheIneligible | apps/delivery/services.py:871-931 | target `accepted` succeeds exactly when the courier is not engaged, whoever they are, and freezes no fee |
| DeliveryHistory.AcceptedByOneOfTwoDoors | apps/delivery/services.py:692-758 | a course becomes accepted only through `accept`, by an eligible courier and with a frozen fee, or through `transition_to`, without one |
| DeliveryHistory.NewPapersCloseTheDoorIff | apps/delivery/services.py:505-540 | after a replaced paper the file stays unapproved in every later run without an approving review, exactly unless the file was approved since the instance handed to the call was loaded |
| DeliveryHistory.NewPapersCloseTheDoor | apps/delivery/services.py:505-540 | while it does, no such run makes `accept` or `offer` take the courier |
| DeliveryHistory.StalePapersLiftSuspensionIff | apps/delivery/services.py:527-538 | the file moves along its machine or not at all, exactly unless it was suspended since an approved or rejected instance was loaded |
| DeliveryHistory.SuspendedCourierIsEngaged | apps/delivery/services.py:871-931 | an offer pending with a suspended courier: refused by `accept`, engaged by `transition_to` |
| DeliveryHistory.DeliveryPaysIffAccepted | apps/delivery/services.py:1032-1055 | a delivery counts always, and adds the frozen fee exactly when the course went through `accept` |
| DeliveryHistory.CanStillArrive | apps/delivery/services.py:963-1001 | an engaged course can still be delivered, by some run, exactly when its order is where it can be met and its fee is in the courier's currency |
| DeliveryHistory.HopelessForever | apps/delivery/services.py:992-1001 | a course that can no longer be delivered never can again, whatever is called |
| DeliveryHistory.FinishPlan | apps/delivery/services.py:871-960 | a course that can be delivered is, by taking its next steps |
| DeliveryHistory.StaffCanOvertake | apps/delivery/services.py:992-1001 | two order moves by hand put a picked-up course out of reach |
| DeliveryHistory.CourierIsLost | apps/delivery/services.py:605-633 | a courier whose picked-up course was overtaken is refused every offer for ever |
| DeliveryServices.DeliveryDatabase.Offer | apps/delivery/services.py:595-672 | rows after the call and its answer, refusals in their order, and the whole invariant kept |
| DeliveryServices.DeliveryDatabase.Accept | apps/delivery/services.py:692-758 | rows after the call and its answer, fee frozen from the gross fee when there is one |
| DeliveryServices.DeliveryDatabase.Decline | apps/delivery/services.py:854-869 | the instance handed is what is checked, and only status and reason are written |
| DeliveryServices.DeliveryDatabase.Expire | apps/delivery/dispatch.py:160-193 | only an offer still open is closed, with its reason |
| DeliveryServices.DeliveryDatabase.TransitionTo | apps/delivery/services.py:871-960 | course, order and counters in one transaction, undone when the credit fails |
| DeliveryServices.DeliveryDatabase.CloseForCancelledOrder | apps/delivery/services.py:811-851 | the loop closes exactly the offered and accepted courses of the order |
| DeliveryServices.DeliveryDatabase.MoveOrder | apps/orders/services.py:574-661 | the order's own move, followed by the closing of its courses on cancellation |
| DeliveryServices.DeliveryDatabase.Review | apps/delivery/services.py:208-338 | dates first, then expired pieces, then the move, its reason, and going offline |
| DeliveryServices.DeliveryDatabase.ReplaceDocuments | apps/delivery/services.py:505-540 | new pieces lose their dates and reopen the file when the instance handed is approved or rejected |
| DeliveryRules.ReviewSucceedsIff | apps/delivery/services.py:208-338 | a review succeeds exactly when an approval would have no expired paper and the file is there already or may go there with the reason it needs |
| DeliveryRules.ReviewMeaning | apps/delivery/services.py:208-338 | after it the dates are merged, nobody is put online, and a file moved away from approval puts its courier offline; a refusal changes nothing |
| DeliveryRules.FeeIsAShareOfTheGross | apps/delivery/services.py:114-131 | the fee is the rounded share of the gross fee whatever was billed, and never more than it |
| DeliveryRules.OfferMeaning | apps/delivery/services.py:595-672 | an offer succeeds exactly when the order is ready and has no course in hand, and the courier is online, approved, of an open account, of the kitchen, serving the zone and not on the road |
| DeliveryRules.OfferRefusalIsTrue | apps/delivery/services.py:606-648 | every refusal of an offer states something true |
| DeliveryRules.OfferedCourse | apps/delivery/services.py:650-651 | the row an offer adds: its order, its courier, offered at that instant, nothing else stamped, owed or said; all other rows as they were |
| DeliveryRules.SaveMeaning | apps/delivery/models.py:234-276 | the database takes a table of courses exactly when no two in hand are of one order and no two on the road of one courier |
| DeliveryRules.AcceptMeaning | apps/delivery/services.py:692-758 | an acceptance succeeds exactly on the courier's own open offer of a live order by an eligible courier not on the road; it stamps the instant and freezes the fee, and touches no other row |
| DeliveryRules.DeclineMeaning | apps/delivery/services.py:854-869 | a decline succeeds exactly when the instance handed is the courier's open offer, and writes status and reason |
| DeliveryRules.TransitionMeaning | apps/delivery/services.py:871-960 | a step touches its course, its order and its courier, and nothing when it is a repetition |
| DeliveryRules.TransitionWrites | apps/delivery/services.py:916-960 | which column each step writes: the two instants, the reason, the order's status, the counts and the earnings |
| DeliveryRules.MoveOrderMeaning | apps/delivery/services.py:811-851 | an order moves alone; cancelled, it takes with it exactly its courses offered or accepted |
| DeliveryRules.StripMeaning | apps/delivery/services.py:290-338 | the notes written are the text between its outer blanks |
| DeliveryRules.ReviewWrites | apps/delivery/services.py:208-338 | a review that moves the file leaves its notes and may only put offline; one that does not leaves notes and presence |
| DeliveryRules.ReplacedPapers | apps/delivery/services.py:505-540 | replaced papers lose their dates and no others do; the file reopens, offline and without notes, exactly if the instance handed was approved or rejected |
| DeliveryClock.StampsInOrder | apps/delivery/models.py:217-220 | over any run whose clocks do not go back: offered, accepted, picked up and delivered are in order and in the past, each of the last two is there exactly when its step was taken, the second exactly with a fee, and none changes once written |
| DeliveryClock.EmptyWorldIsTimed | apps/delivery/models.py:217-220 | which holds where every run starts |
| DeliveryClock.FreshOfferIsStaleIff | apps/delivery/dispatch.py:196-202 | an offer made at an instant is stale for a limit exactly when the limit is after it |
| DeliveryClock.NoRoundClosesItEarly | apps/delivery/dispatch.py:196-212 | whatever happens in between, no expiry round whose limit is not after the instant of the offer closes it |
| DispatchRules.BestIsAsked | apps/delivery/dispatch.py:89-156 | a dispatch offers exactly when it can, at that instant, to someone who could take the order and whom nobody else who could beats: on not having refused, then on being free of offers, then on distance, unknown last |
| DispatchRules.FirstOfFiveIsAsked | apps/delivery/dispatch.py:95-139 | whatever list was read: the first of its first five who can take the order now is asked, and nobody if none can |
| Dispatch.QueryAgreesWithGuard | apps/delivery/services.py:542-587 | the query selects exactly the couriers whom `offer` would not refuse |
| Dispatch.OfferSucceedsIff | apps/delivery/services.py:595-672 | an offer succeeds exactly when the order is ready, free of active course, and the courier is in the query |
| Dispatch.RankingExists | apps/delivery/dispatch.py:142-156 | the candidates can always be ranked: who declined last, then nearest, unknown distances last |
| Dispatch.TryOffersIsSafe | apps/delivery/dispatch.py:119-139 | whatever list was read, at most one offer is made, one that every guard accepts now |
| Dispatch.DispatchIsComplete | apps/delivery/dispatch.py:89-139 | a course is offered exactly when the order is ready, its kitchen dispatches, it has no active course and someone is compatible; to the head of the ranking |
| Dispatch.DeclinersComeLast | apps/delivery/dispatch.py:142-156 | nobody who declined is asked again while a compatible courier who has not exists |
| Dispatch.RoundServes | apps/delivery/dispatch.py:215-237 | after a round every order examined has an active course or no candidate, and only offers were written |
| Dispatch.CatchUpIsComplete | apps/delivery/dispatch.py:215-237 | with at most 200 orders waiting, no ready order of a dispatching kitchen is left without a course while somebody could take it |
| Dispatch.ExpireRoundCloses | apps/delivery/dispatch.py:195-212 | each stale offer is closed once with the expiry reason and no other course moves |
| Dispatch.ExpiryServes | apps/delivery/dispatch.py:195-212 | every order freed by the expiry is served again or has no candidate |
| Dispatch.DispatchService.Dispatch | apps/delivery/dispatch.py:89-139 | the loop over five candidates does what the ranked attempt says |
| Dispatch.DispatchService.DispatchWaiting | apps/delivery/dispatch.py:215-237 | the loop over 200 orders is the round, and counts its offers |
| Dispatch.DispatchService.ExpireStaleOffers | apps/delivery/dispatch.py:195-212 | the loop closes, counts and collects the freed orders, then dispatches each once |
| Interleaving.AnyInterleavingIsSound | apps/delivery/models.py:246-272 | under any interleaving, stale declines included, one open course per order and one engaged course per courier hold at every commit, and a lock holder's reading stays true but for a decline |
| Interleaving.DecisionsExclude | apps/delivery/dispatch.py:160-177 | `accept` and `expire` of one offer never both take effect, nor either twice |
| Interleaving.LegalIffFresh | apps/delivery/services.py:854-869 | a commit moves its course along a declared transition exactly when the row still has the status it read |
| Interleaving.FreshCommitIsSequential | apps/delivery/services.py:595-758 | a fresh commit is the sequential call, for `offer` and `accept` exactly when the courier checked is still eligible |
| Interleaving.FreshCommitKeepsInv | apps/delivery/services.py:595-960 | a fresh commit keeps the whole delivery invariant, the courier's eligibility notwithstanding |
| Interleaving.FreshRunsKeepInv | apps/delivery/services.py:595-960 | any interleaving, declines included, in which every commit finds the status it read keeps the whole delivery invariant |
| Interleaving.LocksKeepInv | apps/delivery/services.py:603-751 | without declines, every interleaving keeps the whole delivery invariant at every commit |
| InterleavingRules.AbortForgets | apps/delivery/services.py:590-960 | an aborted transaction leaves rows and the others as they are, and no lock |
| InterleavingRules.CommitWaitsIff | apps/delivery/services.py:854-869 | a commit waits exactly when it is a decline's and a step holds the row of its course |
| InterleavingRules.AloneIsTheCall | apps/delivery/services.py:590-960 | the steps of any of the six transactions that nobody crosses leave what the call leaves, whether it succeeds or is refused |
| Interleaving.LateDeclineEndsAnAcceptedCourse | apps/delivery/services.py:854-869 | a run from a sound world where a late decline ends an accepted course and leaves its fee |
| Interleaving.AcceptRevivesADeclinedCourse | apps/delivery/services.py:692-758 | a run from a sound world where an accept overwrites a decline |
| Ratings.CourierRating.Rate | apps/delivery/services.py:1070-1104 | one rating per delivered course, and the new average and count |
| Ratings.AverageInRange | apps/delivery/services.py:1097-1104 | from the first score on the average is between 1.00 and 5.00 |
| Ratings.DriftBound | apps/delivery/services.py:1097-1104 | after n scores the average is within (n+1)/4 hundredths of the true mean |
| Ratings.FrozenFrom800 | apps/delivery/services.py:1097-1104 | once 800 scores are in, no score moves the average again |
| Ratings.StillMovesAt799 | apps/delivery/services.py:1097-1104 | at 799 one score still can |
| Ratings.IncrementalDependsOnOrder | apps/delivery/services.py:1097-1104 | the same scores in another order give another average |
| Ratings.RecomputedMeaning | apps/catalog/services.py:153-179 | the full recompute ignores the order of the reviews, is within half a hundredth of the true mean, and is its half-up hundredth exactly unless the mean is half way between two and its binary64 number lies below it; then it is one hundredth less |
| Ratings.StoredAverage | apps/catalog/services.py:165-170 | the same for whatever double within four units in the last place the database hands over |
| Ratings.DoubleIsNearest | apps/catalog/services.py:165-170 | the binary64 number of a mean has 53 binary digits and is the nearest one |
| Ratings.FortyReviewsRoundDown | apps/catalog/services.py:165-170 | 39 ones and a two: 1.02 is stored for a mean of 1.025 |
| Realtime.NoLostEvent | common/consumers.py:62-151 | while the counter lives, a caught-up client has every later event but exactly those broadcast before it joined and more than fifty numbers behind the counter it read |
| Realtime.SameNumberSameEvent | common/realtime.py:110-123 | two events received under one number are one event, so duplicates can be dropped |
| Realtime.ReusedIffCounterDied | common/realtime.py:52-62 | a number is reused exactly when two lives of the counter gave numbers |
| Realtime.RunKeepsInv | common/realtime.py:125-177 | over any run: numbers distinct per life of the counter and without holes, journal entries under their own number, one broadcast per publication, clients hear exactly what follows their joining |
| Realtime.YoungRuns | common/realtime.py:125-177 | while the counter lives, what is stored is never overwritten and outlives the counter |
| Realtime.KeysLiveFifteenMinutes | common/realtime.py:162-177 | a counter or an entry is there for exactly 900 seconds from its writing |
| Realtime.YoungForFifteenMinutes | common/realtime.py:162-177 | for 900 seconds from the start, whatever happens, the counter does not die |
| Realtime.RestartTakesOne | common/realtime.py:172-177 | a publisher that finds the counter gone between its two accesses begins a new one at 1 |
| Realtime.OpeningMeaning | common/consumers.py:144-151 | the gap first, with its two bounds, exactly when the first missed event is not the next; then every missed event in order |
| Realtime.GapIffTooFarBehind | common/consumers.py:133-151 | in a quiescent state the replay is the whole window, and the gap is signalled exactly when the client is more than fifty behind (or asks from below zero) |
| Realtime.SilentLossNeedsFiftyInFlight | common/consumers.py:133-151 | a loss without signal needs the fifty newest numbers to be all taken and unwritten |
| Realtime.GapWithoutLoss | common/consumers.py:144-148 | a run of two publications and one reconnection in which a signal comes though nothing is lost |
| Realtime.ExpiryIsSilent | common/realtime.py:162-177 | in any state whose counter expired, numbering restarts at 1 and a client reconnecting from 1 or more gets neither the event nor a signal |
| Realtime.UpToDateHearsNothing | common/realtime.py:180-206 | a client at or ahead of the counter gets nothing and no signal |
| Realtime.PublishIsItsSteps | common/realtime.py:125-159 | a publication nobody interrupts writes what `Publish` writes and broadcasts once |
| Realtime.RealtimeGroup.NextSeq | common/realtime.py:162-177 | the number given is the counter's new value, the time to live unchanged |
| Realtime.RealtimeGroup.Publish | common/realtime.py:125-159 | number, journal entry, in that order |
| Realtime.RealtimeGroup.Replay | common/realtime.py:180-206 | the loop returns exactly the events present in the bounded window |
| Realtime.Consumer.CatchUp | common/consumers.py:126-151 | what the client is sent on connecting: the gap first, then the missed events, nothing without `since` |
| Catalogue.ItemVerdictMeaning | apps/catalog/availability.py:54-103 | an item passes exactly when served, in stock and with every option served |
| Catalogue.CustomizationVerdictMeaning | apps/catalog/availability.py:106-178 | a choice passes exactly when the size rule holds, every option is of a group of the item and every group's bounds hold |
| Catalogue.FirstForeignMeaning | apps/catalog/availability.py:149-157 | the foreign option named is the first one |
| Catalogue.GroupVerdictMeaning | apps/catalog/availability.py:159-176 | the groups pass exactly when every bound holds; a refusal names a group and the bound it breaks |
| Catalogue.VerdictIgnoresOrder | apps/catalog/availability.py:106-178 | acceptance does not depend on the order of the options |
| Catalogue.AcceptedChoice | apps/catalog/availability.py:106-175 | a choice is accepted exactly when a size is given if and only if the item has an active one, and is its own, active and available; every option is of a group of the item; and each group has between its least and its most number of the options |
| Catalogue.PickedIsTheCount | apps/catalog/availability.py:106-175 | what a group is judged by is the number of options of that group |
| Catalogue.ChoiceRefusalIsTrue | apps/catalog/availability.py:106-175 | every refusal of a choice states something true |
| Catalogue.ItemRefusalIsTrue | apps/catalog/availability.py:54-103 | and so does every refusal of an item, in their order |
| Availability.Judge | apps/availability/services.py:223-270 | the verdicts, scattered by kitchen and gathered back, are for each line the catalogue's refusal or what its kitchen's batch says at its place |
| Availability.RankStandsAtItsPlace | apps/availability/services.py:247-268 | each accepted line stands once, in its own kitchen's batch, at its own rank |
| Availability.JudgeFully | apps/availability/services.py:363-370 | each line's verdict, then its customization |
| Availability.CanAcceptOrder | apps/availability/services.py:308-406 | an order is accepted exactly when all eight conditions hold; a refusal names the first that fails and the verdicts shown are the lines' |
| AvailabilityRules.JudgedAtItsEntry | apps/availability/services.py:244-268 | the kitchen of a line on sale is asked about exactly its lines on sale, in order, each with its dish, quantity and options; the line gets the answer at its own entry |
| AvailabilityRules.FullVerdictMeaning | apps/availability/services.py:223-268 | a line has no verdict exactly when it is on sale and in stock for its quantity, its kitchen's materials answer nothing, and its choice is accepted |
| AvailabilityRules.TooManyPortionsAreBlocked | apps/availability/services.py:253-263 | where materials allow up to n portions of a dish, a line is stopped exactly when it asks for more, and the order with it |
| AvailabilityRules.AcceptedOrder | apps/availability/services.py:308-406 | what an order must meet, all conditions in full |
| AvailabilityRules.RefusalNamesItsCause | apps/availability/services.py:308-406 | the cause a refusal names is there, and none of those examined before it is |
| CartHistories.RunKeepsForm | apps/carts/services.py:322-473 | over any events (calls under any menus, deletions of options and sizes, additions read and written apart, rewritings loaded, read and written apart) the lines are pairwise distinct after each exactly when each was harmless when it came: no notes patched onto another line's key, no deletion of all that tells two lines apart, no addition and no rewriting written beside an identical line it did not see |
| CartHistories.DeletionKeepsFormIff | apps/carts/models.py:60-62 | deleting options and sizes keeps the form exactly when no two lines differ in nothing else, and loses no quantity |
| CartHistories.OptionDeletionKeepsFormIff | apps/carts/models.py:110-112 | for one option: exactly when no line is another one plus that option |
| CartHistories.SizeDeletionKeepsFormIff | apps/catalog/backoffice.py:516-526 | for one size: exactly when no line in that size has a double without size |
| CartHistories.OptionDeletionMakesTwins | apps/catalog/backoffice.py:407-417 | a burger and a cheeseburger, and the cheese deleted |
| CartHistories.SizeDeletionsMakeTwins | apps/catalog/backoffice.py:516-526 | a small and a large, and both sizes deleted |
| CartHistories.LateAddMeaning | apps/carts/services.py:338-353 | an addition written late keeps the form exactly when it raises a line or no identical one came in between, and counts exactly when the line it raises still has the quantity it read |
| CartHistories.PromptAddIsAdd | apps/carts/services.py:338-353 | written at once it is `add_line` |
| CartHistories.TwoAddsMakeTwins | apps/carts/services.py:338-353 | two additions of one burger, each read before the other wrote |
| CartHistories.DeadOptionIsRefused | apps/carts/models.py:110-112 | an addition read before one of its options was deleted is refused when it is written |
| CartHistories.DeadSizeIsRefused | apps/carts/models.py:60-62 | and so is one of a deleted size |
| CartHistories.LateRewriteMeaning | apps/carts/services.py:446-467 | a rewriting written late keeps the form exactly when it merges, or no other line has the new key by then |
| CartHistories.LateRewriteConservesIff | apps/carts/services.py:460-465 | it replaces its own quantity and nothing else exactly when the line it merges into still has the quantity it read |
| CartHistories.PromptRewriteIsUpdate | apps/carts/services.py:419-469 | loaded, read and written at once it is `update_line` |
| CartHistories.AloneIsTheAddition | apps/carts/services.py:322-353 | the events of an addition that nobody crosses are the call |
| CartHistories.AloneIsTheRewriting | apps/carts/services.py:419-469 | and so are those of a rewriting |
| CartHistories.DeletedForGood | apps/carts/models.py:110-112 | a deletion deletes what it says, for good |
| CartHistories.DeletedIsNotOnTheMenu | apps/carts/models.py:110-112 | nothing deleted is called for, read or written later |
| CartHistories.NotesPatchMakesTwins | apps/carts/views.py:136-142 | two lines told apart by notes alone, and the notes emptied |
| Carts.NotesPatchKeepsFormIff | apps/carts/views.py:136-142 | such a PATCH keeps the form exactly when no other line has the new key |
| Carts.UpdateKeepsCanonical | apps/carts/services.py:419-469 | merging with the oldest twin is enough, and a line is never its own twin |
| Carts.AddConserves | apps/carts/services.py:322-353 | `add_line` raises the quantity by q and the subtotal by q unit prices of the line it answers with, which has the key asked for, merged or not, also when an option was sent twice; a refusal changes nothing |
| Carts.AddCostsWhatWasAsked | apps/carts/services.py:322-353 | without a repeated option, that amount is q times the price of what was asked |
| Carts.UpdateConserves | apps/carts/services.py:419-469 | `update_line` replaces one line's quantity and amount; merging loses no quantity and changes no price |
| Carts.SameKeySamePrice | apps/carts/services.py:186-199 | lines with one key have one unit price, whatever the order of their options |
| Carts.SubtotalIgnoresOrder | apps/carts/services.py:186-199 | the subtotal does not depend on the order of the lines |
| Carts.PriceLines | apps/carts/services.py:183-199 | pricing succeeds exactly when every price met is in the basket's currency, and the running subtotal is the sum of the line totals |
| Carts.PriceSelection | apps/carts/services.py:163-237 | unit prices, totals and verdicts of every line, the verdicts being the one judge's |
| CartRules.PlainLineCosts | apps/carts/services.py:193 | a line without options costs its size's price when it has a size, its dish's otherwise, times its quantity |
| CartRules.OptionCosts | apps/carts/services.py:194-199 | one more option moves the total by the quantity times its delta |
| CartRules.OwnPriceCosts | apps/carts/services.py:193 | the dish's own price moves no line that has a size, and every other one by the quantity |
| CartRules.AdmissionMeaning | apps/carts/services.py:322-342 | what may be put in a basket, and that every refusal states something true |
| CartRules.AddToALine | apps/carts/services.py:341-345 | an addition that finds its line raises the first such line and touches nothing else; when it succeeds |
| CartRules.AddANewLine | apps/carts/services.py:347-353 | one that finds none appends a row with what was asked; when it succeeds |
| CartRules.RewriteAlone | apps/carts/services.py:446-458 | a rewriting that stays alone changes its row as asked, keeps what was not, and touches no other |
| CartRules.RewriteMerges | apps/carts/services.py:460-469 | one that meets another line raises the first such line, its own row goes, and all others stay in order |
| CartRules.ShortPatch | apps/carts/views.py:136-142 | notes, then quantity, of its own row; a quantity that does not fit leaves the notes written |
| CartRules.LongPatch | apps/carts/views.py:125-135 | what a PATCH does not carry is taken from the row |
| CartRules.ShownBesideALine | apps/carts/services.py:200-237 | no reason is shown beside a line exactly when dish, stock for its quantity, options, materials and choice allow it; and what the kitchen is asked about it |
| Carts.BasketAgreesWithOrder | apps/availability/services.py:308-406 | on one snapshot the order is accepted exactly when the basket was shown as orderable |
| CartServices.CartService.AddLine | apps/carts/services.py:322-353 | the rows after the call and its answer, canonical form kept |
| CartServices.CartService.UpdateLine | apps/carts/services.py:419-469 | the rows after the call and its answer, undone on a failure |
| CartServices.CartService.Patch | apps/carts/views.py:111-144 | the long path through the service, or notes and quantity written one after the other |
| CartServices.CartService.IdenticalLine | apps/carts/services.py:385-409 | the oldest other line with the key, if any |
| Duplication.Catalogue.CopyCatalogue | apps/catalog/duplication.py:52-68 | the copy is an isomorphism onto new rows: one copy per selected row, links of copies are copies of links, old rows untouched, and the count is that of the items copied |
| Duplication.CreateFrom | apps/catalog/duplication.py:71-90 | one pass creates exactly one new row per row read and keeps the correspondence |
| Duplication.Catalogue.CopyItems | apps/catalog/duplication.py:93-129 | alive items of the source filed under a copied category, re-filed under its copy, without stock, popularity or ratings |
| Duplication.CopiesPointToCopies | apps/catalog/duplication.py:132-179 | every link of a new row leads to a new row |
| Duplication.SourceIsUntouched | apps/catalog/duplication.py:52-68 | what any other restaurant shows is what it showed |
| Duplication.TargetMenuIsTheCopy | apps/catalog/duplication.py:52-68 | a target that had nothing shows exactly the copies |
| Duplication.CountIsAliveIff | apps/catalog/duplication.py:100-108 | the count is that of the alive items exactly when each is filed under its own restaurant's categories |
| Duplication.WholeMenuIsCopied | apps/catalog/duplication.py:71-179 | row by row, what has a copy: the categories, the dishes alive under them, their groups, options and sizes, and the templates |
| Duplication.CopiesAreNewborn | apps/catalog/duplication.py:110-129 | a copied dish has its card and no stock, popularity or ratings |
| Stock.ConsumedMeaning | apps/catalog/services.py:56-91 | a consumption succeeds exactly when every tracked item has enough, and takes exactly its quantities |
| Stock.StockTable.Consume | apps/catalog/services.py:56-91 | the loop does so, and a failure inside its transaction changes nothing and names an item that is short |
| Stock.StockTable.Restore | apps/catalog/services.py:94-111 | each tracked item is credited its quantity |
| Stock.RestoreUndoesConsumeIff | apps/catalog/services.py:94-111 | `restore` undoes `consume` exactly when no item of the order had its tracking switched meanwhile |
| Stock.RestoreInventsUnits | apps/catalog/services.py:94-111 | two portions ordered uncounted, counting switched on, order cancelled: the stock gains two units |
| StockRules.AloneIsConsume | apps/catalog/services.py:56-91 | the statements of an order that nobody crosses are the call: every tracked item loses its quantity, or nothing moves |
| StockRules.RollbackForgets | apps/catalog/services.py:74-80 | rolled back at whatever point, they leave the rows they found |
| StockRules.AloneIsRestore | apps/catalog/services.py:94-111 | and so are those of its cancellation |
| Stock.StockIsConserved | apps/orders/services.py:294-295 | whatever the interleaving of statements, refusals, rollbacks and cancellations: remaining stock plus what uncancelled orders keep is the initial stock, and no stock is negative |
| VerificationCodes.RunKeeps | apps/accounts/services.py:269-311 | over every run: at most one unconsumed code per user and purpose, fewer failures than the limit on an unconsumed one, no code succeeding twice |
| VerificationCodes.ConsumeMeaning | apps/accounts/services.py:393-422 | the right code is accepted, a wrong one costs an attempt that stays, a raising effect leaves everything as it was |
| VerificationCodes.AcceptedIsConsumed | apps/accounts/services.py:402-422 | an acceptance is of the code presented, open and unexpired, closes it at that instant and touches no other row |
| VerificationCodes.AcceptedOnce | apps/accounts/services.py:393-422 | over any run from any rows no two presentations are answered by one code |
| VerificationCodes.WrongCodeCosts | apps/accounts/services.py:402-412 | a wrong code costs one attempt, and closes the code at the limit |
| VerificationCodes.AskedTooSoon | apps/accounts/services.py:283-295 | within the cooldown of an open code such a code is given back and nothing changes |
| VerificationCodes.IssueWrites | apps/accounts/services.py:297-311 | otherwise a new code valid for ttl seconds is written and every open one of this user and purpose closed |
| VerificationCodes.IssuedOpens | apps/accounts/services.py:283-311 | the code in force after an `issue` is accepted exactly until it expires |
| VerificationCodes.DeadCodesStayDead | apps/accounts/services.py:393-400 | what is accepted after any run was neither consumed, replaced, closed nor expired before it |
| VerificationCodes.RetryAfterInRange | apps/accounts/services.py:246-266 | the delay told is within [0, cooldown], is the cooldown for a fresh code, is long enough for a new code to be issued, and not a second too long |
| VerificationCodes.IssueKeepsOneIffNothingCameBetween | apps/accounts/services.py:283-300 | an `issue` leaves one active code exactly when none was committed since its reading |
| VerificationRaces.OneCodeIffIssuesDoNotCross | apps/accounts/services.py:283-311 | from any start and over any interleaving of readings, updates started and waiting, rows locked, creations, aborts and presentations, at most one code is in force after every step exactly when no `issue` commits over an active code committed since its update began |
| VerificationRaces.AnyInterleavingIsAccounted | apps/accounts/services.py:283-422 | under any interleaving a code tells its whole story and succeeds at most once |
| VerificationRaces.AcceptedOnceUnderInterleaving | apps/accounts/services.py:283-422 | under any interleaving no two presentations are answered by one code |
| VerificationRaces.PromptIssueIsIssue | apps/accounts/services.py:283-311 | the steps of an `issue` that nobody crosses are the call |
| VerificationRaces.PresentMeaning | apps/accounts/services.py:393-422 | a presentation is the call, unless the code it is judged by is being closed at that moment |
| VerificationRaces.TwoIssuesLeaveTwoCodes | apps/accounts/services.py:283-311 | two requests of one user at once leave two codes in force |
| VerificationRaces.WaitingBehindAnOldCodeLeavesTwoCodes | apps/accounts/services.py:283-311 | with an old code beside them too: the second update waits for its row, keeps the candidates it started with, and misses the first one's new code |
| VerificationServices.VerificationService.Issue | apps/accounts/services.py:269-319 | the rows after the call, the code in force and the delay told |
| VerificationServices.VerificationService.Consume | apps/accounts/services.py:369-422 | the rows after the call and its outcome |
| Gamification.RunOfOne | apps/gamification/services.py:46-56 | a run of one delivery is its pass |
| Gamification.RewardedOnce | apps/gamification/services.py:74-94 | over every run of deliveries, replays and catalogue changes: each goal credited at most once, and points credited equal the rewards at unlock time |
| Gamification.NeverRelocks | apps/gamification/services.py:88-94 | what is unlocked stays so, at its date and reward |
| Gamification.PassMeaning | apps/gamification/services.py:74-148 | after a pass each open goal's progress is the recomputed statistic capped at its threshold, and it is unlocked exactly if it was or the statistic reaches it |
| Gamification.PassFixpointIff | apps/gamification/services.py:74-148 | a pass at any instant over any orders changes nothing exactly when each goal open then has the statistic recomputed then, capped, and is unlocked if that reaches its threshold |
| Gamification.PassTwiceIsPassOnce | apps/gamification/services.py:74-148 | one pass repeated at one instant changes nothing |
| Gamification.HandlingFixpointIff | apps/gamification/services.py:46-56 | a whole handling, again or later, changes nothing exactly when achievements and challenges are settled for what it sees and no active badge not held is within the points of a non-empty account |
| Gamification.ReplayChangesNothingIff | apps/gamification/services.py:46-56 | the same handling at the same instant changes nothing exactly when no active badge not held before is reached by the points after the challenges and not by those the badge pass saw |
| Gamification.ReplayCanUnlockABadge | apps/gamification/services.py:53-56 | a badge, a challenge that brings its points, one delivery: the replay unlocks it |
| Gamification.AwardMeaning | apps/gamification/services.py:97-114 | which badges a pass leaves, dates of the held ones kept, and when it changes nothing |
| GamificationRules.StatisticMeaning | apps/gamification/services.py:59-72 | the statistic of a goal is the number of delivered orders in its window, or the sum of their totals |
| GamificationRules.UndeliveredCountsForNothing | apps/gamification/services.py:66 | an order that is not delivered counts for nothing |
| GamificationRules.KeysTellGoalsApart | apps/gamification/services.py:78-79 | achievements, challenges and goals have rows of their own |
| GamificationRules.PassPays | apps/gamification/services.py:74-94 | a pass pays exactly the rewards of the goals it unlocks |
| GamificationRules.UnlockPays | apps/gamification/services.py:88-94 | a goal unlocked by a pass has that instant and its reward on its row, and one credit |
| GamificationRules.UnreachedStaysLocked | apps/gamification/services.py:76-86 | a goal whose threshold is not reached has the statistic as its progress and is otherwise as it was, or new and locked |
| GamificationRules.ClosedGoalsStay | apps/gamification/services.py:117-148 | a goal switched off or outside its window keeps its row |
| GamificationRules.BadgeMeaning | apps/gamification/services.py:97-114 | who holds a badge after a pass, and since when |
| GamificationRules.HandlingPays | apps/gamification/services.py:46-56 | what a delivery pays in all, and that badges see the achievements' rewards and not the challenges' |
| GamificationRaces.RewardedOnceUnderInterleaving | apps/gamification/services.py:74-94 | however passes are interleaved, waiting, committed or aborted, at every moment the committed points are the rewards of the unlocked goals, each credited once, and no two passes hold one goal |
| GamificationRaces.ProgressWasComputed | apps/gamification/services.py:77-85 | under any interleaving a stored progress is one some pass computed for that goal, and a goal is unlocked only if some pass found its threshold reached |
| GamificationRaces.ProgressSticksIff | apps/gamification/services.py:80-82 | a pass leaves the progress it computed exactly when it differs from what it had read or the row still has what it read |
| GamificationRaces.LateProgressGoesBack | apps/gamification/services.py:80-82 | a pass that counted one order writes after one that counted two |
| GamificationRaces.BeginAndAbort | apps/gamification/services.py:46-56 | an aborted pass is forgotten, a running one not begun again |
| GamificationRaces.AloneIsThePass | apps/gamification/services.py:74-94 | the statements of a pass that nobody crosses commit what the pass computes |
| GamificationServices.GamificationService.CheckGoals | apps/gamification/services.py:74-94 | the loop over a catalogue is the pass |
| GamificationServices.GamificationService.CheckBadges | apps/gamification/services.py:97-114 | a badge is held exactly if it was, or if it is active and its points are reached by an account that has any |
| GamificationServices.GamificationService.OnOrderDelivered | apps/gamification/services.py:46-56 | the three passes in their order leave what the handling says: badges see the rewards of this delivery's achievements and not of its challenges |
| Reminders.ReachedMeaning | apps/delivery/tasks.py:99-112 | the threshold is the smallest one reached, and only falls as days pass |
| Reminders.ReachedThreshold | apps/delivery/tasks.py:99-112 | the scan of the list finds it |
| Reminders.NeverSentTwice | apps/delivery/tasks.py:115-130 | whatever runs, repeats or runs side by side, no reminder is sent twice |
| Reminders.ThresholdsFall | apps/delivery/tasks.py:40-84 | as long as days do not go back, the thresholds sent for one paper and date are strictly decreasing |
| Reminders.ThresholdsFallIff | apps/delivery/tasks.py:40-130 | for any looks in any order, the thresholds sent for each paper and date are strictly decreasing exactly when no look comes back to a larger threshold never seen before the smaller one |
| Reminders.LateTaskSendsOutOfOrder | apps/delivery/tasks.py:60-84 | a look dated before an earlier one can send a larger threshold after a smaller |
| Reminders.ReminderTask.RemindDocumentExpiry | apps/delivery/tasks.py:40-84 | after a run for any day the smallest threshold reached by every paper of every approved file is recorded, what was new is counted once, and nothing is sent for any other file, paper, date or threshold; thresholds sent keep falling unless the day goes back |
| Moneys.Allocate | common/money.py:157-175 | shares sum to the amount, each its floored quota or one more, the remainder below the number of positive weights; refused exactly on bad weights |
| Moneys.RemainderIsSmall | common/money.py:164-174 | the remainder is never negative and smaller than the number of positive weights, so the modulo never wraps |
| Moneys.CountPositiveMeaning | common/money.py:164-174 | the bound of the remainder counts the positive weights and no others |
| Moneys.EarlierIsFavoured | common/money.py:164-174 | at equal weights the earlier position gets at least as much and at most one more; every share is within one unit of the exact one |
| Moneys.WeightlessShare | common/money.py:171-172 | a weightless position gets a unit exactly when it is among the first ones |
| Moneys.WeightlessCanReceive | common/money.py:171-172 | one unit among weights 0, 1, 1 goes to the first position |
| Moneys.PercentageMeaning | common/money.py:146-155 | a percentage is the nearest minor unit to the exact one, odd in the amount, and within it |
| Moneys.PercentageFits | common/money.py:146-155 | computed in the decimal context it is that unit, for every product of at most 28 digits; a longer result raises |
| Moneys.FromMajorMeaning | common/money.py:89-109 | a major amount becomes an amount m exactly when the currency is known, m has at most 28 digits and is the value of the amount's first 28 digits |
| Moneys.FromMajorIsExactIff | common/money.py:89-109 | what is accepted keeps its exact value exactly when only zeros follow its 28th digit, so whenever it has no more digits |
| Moneys.LongTextIsRounded | common/money.py:99-101 | "1.0000000000000000000000000001" euros is accepted as 1.00 |
| Moneys.MajorRoundTrip | common/money.py:89-113 | major and back gives the same money, exactly for amounts of at most 28 digits |
| Moneys.MajorUnits | common/money.py:89-109 | a hundred minor units to one in the currencies with cents, one in those without, and one decimal too many is refused |
| DecimalText.FixedReadsBack | common/serializers.py:244-249 | the plain rendering of any decimal reads back as the same number |
| DecimalText.NormalizedEnds | common/serializers.py:244-249 | no zero is left at the end of what is written |
| DecimalText.NoDigitNoNumber | common/serializers.py:264 | a text without digits is no number |
| DecimalText.ExponentReads | common/serializers.py:264 | a number written with an exponent reads as the number it says |
| Quantities.QuantityRoundTrip | common/serializers.py:244-274 | rendering a quantity and parsing it back gives the same quantity, exactly for those of at most 28 digits |
| Quantities.FromUnitInvertsAsUnit | common/quantities.py:214-256 | expressed in any unit of its dimension and read back, a quantity is unchanged, exactly when it has at most 28 digits |
| Quantities.UnitScales | common/quantities.py:100-113 | how many base units each unit is |
| Quantities.UnitsRefused | common/quantities.py:228-256 | exactly the seven units are known, and a quantity is expressed exactly in those of its dimension |
| Quantities.AmountsRefused | common/serializers.py:63-88 | what is no integer, then what is in no known currency, is refused, and nothing else |
| Quantities.ShownIn | common/quantities.py:86-90 | quantities are shown in grams, millilitres and pieces |
| Quantities.FromUnitMeaning | common/quantities.py:214-243 | a value in a unit becomes a quantity exactly when that has at most 28 digits and is the value of the first 28 digits of the product |
| Quantities.FromUnitIsExactIff | common/quantities.py:234-243 | what is accepted keeps its exact value exactly when only zeros follow the 28th digit of the product |
| Quantities.LongTextIsRounded | common/quantities.py:234-243 | "1.0000000000000000000000000001" milligrams is accepted as one |
| Quantities.FromUnitReadsTheNumber | common/quantities.py:228-243 | two spellings of one number are one quantity, or are refused alike |
| Quantities.MoneyRoundTrip | common/serializers.py:60-88 | rendering an amount and parsing it back gives the same amount |
| Quantities.AmountIsShownPlainly | common/serializers.py:60-62 | an amount is shown with a sign exactly when negative and without zeros in front |
| Quantities.PointIsRefused | common/serializers.py:63-88 | an amount with a decimal point is refused wherever the point stands |
| Quantities.ValuationMeaning | common/quantities.py:345-359 | the exact valuation is the nearest minor unit and odd in the quantity |
| Quantities.ValueMinorMeaning | common/quantities.py:345-359 | the answer is the exact valuation exactly unless fitting the product to 28 digits takes it up to half way between two units, or ends a half on the even one; never for a product of at most 28 digits |
| Quantities.ValueMinorAnswersIff | common/quantities.py:357-359 | it answers exactly when the product is below 10^28 - 1/2 times the divisor, and raises otherwise |
| Quantities.ValueMinorCanSlip | common/quantities.py:358-359 | a 64-bit quantity and a 64-bit cost whose value comes out one unit too high |
| Quantities.CostIsPerUnit | common/quantities.py:123-127 | costs are per kilogram, litre and piece: n of them cost n times as much |
| Quantities.SplittingLoss | common/quantities.py:345-359 | as long as the products have at most 28 digits, valuing n quantities and summing stays within (n+1)/2 of valuing their sum |
| DecimalContext.FitKeepsIff | common/money.py:99-100 | rounding to the context keeps a number exactly when only zeros follow its 28th digit |
| DecimalContext.FitIsNear | common/money.py:99-100 | and moves it by at most half a unit of that digit |
| DecimalContext.FitReadsTheNumber | common/quantities.py:234-235 | and depends on the number and not on its spelling |
| DecimalContext.TwiceIsOnceIff | common/quantities.py:358-359 | a product fitted, divided by a power of ten and rounded is the quotient rounded once, exactly unless the fitting slips |
| Rounding.HalfUpIsNearest | common/money.py:146-155 | half-up rounding gives the nearest integer, halves away from zero |
| Rounding.NearestIsUnique | common/money.py:146-155 | and it is the only one that does |

## Left out

- Views, permissions, serializers other than the two JSON codecs, administration and HTTP errors: framework plumbing; only the PATCH of a basket line is modelled.
- Storage, files, e-mail, push, tokens, geocoding and cryptography: external services.
- PostGIS distances and zone geometry: a courier's distance is an optional parameter, the delivery check's answer is a value.
- Materials and kitchens' opening rules: uninterpreted answers, one per kitchen and batch of lines.
- The side effects of an order move outside these rows (loyalty, promotion, materials, notifications, the audit trail): each would be another ledger of the same kind as stock.
- Courier proofs, shifts, calls, group carts, review moderation, analytics: small machines or one-branch facts.
- Clocks and time zones: instants and days are integers handed to each call.
- Decimal exponents beyond a million, where the context overflows or underflows, and the binary rounding inside the database's own averaging, for which `Ratings.StoredAverage` allows four units in the last place.
- Decimal text: blanks around a number, underscores and non-ASCII digits, which the program's parser also accepts, are not read.
- `Availability.menu`: the public menu judges each item alone with the same functions; it would add an easy member.
- Deadlocks and lock time-outs: an aborted transaction is modelled, the choice of the victim is not; `stock` waits are steps that change nothing.
- The order of options shown on a basket line and of rows the database lists without an order: left open, and the results proved do not depend on it.
- The delivery check of `Interleaving`: the eligibility that `offer` and `accept` judge on the instance they were handed may be stale; `FreshCommitIsSequential` says exactly when that shows.
- DeliveryInvariants.DeclineKeeps: speaks of a decline whose instance is current; the stale one is the business of `Interleaving`.
- CartHistories.RunKeepsForm: the row lock that `update_line` holds between its first save and its commit is not modelled, so the runs include more interleavings than the database lets happen; a PATCH of notes and quantity writes each as given, whatever it had loaded, so its two writes are two calls.
- GamificationRaces.RewardedOnceUnderInterleaving: badges are not interleaved (a badge is only ever added), and the lock of the points account, which only makes passes wait, is not modelled.
- VerificationRaces.OneCodeIffIssuesDoNotCross: a code presented against a row that an `issue` is closing comes back refused at once instead of after a wait.
- Duplication.Catalogue.CopyCatalogue: source and target are different restaurants, and the uniqueness of slugs in a target that already has a menu is not modelled.
- Stock.StockIsConserved: tracking flags are fixed and no inventory is set by hand, as conservation requires; switching flags is `RestoreUndoesConsumeIff`.
- Realtime.NoLostEvent: a channel layer that drops messages for a full queue is not modelled.

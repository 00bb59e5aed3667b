# What this project proves

The repository is a parking marketplace built from services that own their rows, publish events
through a transactional outbox, and read each other through projections. Everything that matters
is decided by data: an event carries the version its aggregate reached, a projection applies it
only when it is the next one, and a client or a worker waits for a version before it reads. This
project models that machinery and proves what it promises over every interleaving, crash,
duplicate and redelivery.

## The event pipeline

`Versions` holds the arithmetic: the gate, the minted and the stored version, the gap report.
`Pipeline` is a step system over owner commits, the outbox, relays that publish and then delete,
a stream with delivery counts and acknowledgements, projection rows, and the phases of one apply:
message in hand, version read under the lock, decided and written, committed, acknowledged. A
projector is any function from the current columns and an event to the columns it writes.
`PipelineSafety` proves what every step keeps, the escape hatch included. `PipelineExact` proves
what holds while no gap of the aggregate in question was forced: the projection is the fold of a
prefix of the owner's history. `Projection` and `Outbox` are the replica's apply loop and the relay
as classes, and show that a whole loop and a whole pass are runs of the step system. `Rounds` and
`Window` prove how much disorder is absorbed and when a bounded in-flight window can make progress,
both with the exact condition, and `Absorption` carries the first over to the apply loop.

## Bookings

`Bookings` is the owner's table with its guarded transitions, and what a history of events says
about a booking. `Owners` runs any number of writers beside each other, each transaction with any
number of guarded writes. `BookingStores` holds the sweeper, the cancellation reaction and the
shared guarded write as methods of one class; `Reactions` runs the reaction beside the other
writers. `Mirror` proves that payment-service's copy refines the owner, and what it shows in runs
where the hatch fired; `Overtaking` tells from the steps of a run when that is too little, with two
whole runs; `Joined` runs the owner's transactions
and the pipeline together, so that nothing is assumed of the history. `Payments` has the
projectors, the poll, the worker, and the theorem about settling money. `Policy` is the check of a
requested booking and its agreement with what the page offers; `EditWarning` compares the page's
warning about an edit of the hours with what the server then cancels, booking by booking, and
`EditPages` for a whole page; `Reservations` proves that a
spot is never booked twice.

## Hours, slots, pins and the header

`Intervals` and `Availability` are the page's interval subtraction, first on minutes, then through
the spelled times and their string comparison. `Slots` is the server's slot validator. `MapPins`
is the greedy grouping of pins. `Header` is the client half and the server half of the
await-version header. `Text`, `Times`, `Ranges` and `Wrappers` are shared vocabulary.

## What is assumed

- The escape hatch: claims that a projection is an exact prefix are about runs in which no gap of
  that aggregate was applied by the hatch (`Pipeline.Unforced`). Other aggregates may be forced.
  The claims in `PipelineSafety`, `Joined` and the ones about settlement hold in all runs: they say
  what a forced gap costs.
- A row that does not exist cannot be locked, so two deliveries of one create can overlap. A run
  excludes a write decided on "no row" that lands on a row at version 2 or above
  (`Pipeline.Stale`); the acknowledgement timeout is chosen for that.
- The projected aggregates are ones the database stores, so the reader never answers
  `Unavailable` for them. `Payments.Reached` handles that answer.
- Event ids are unique, one per committed event, so an id is identified with its event.
- Clocks, timeouts, the order of a map's entries, what a query returns first, and which statement
  fails are nondeterministic or parameters. `Reservations` uses one clock that never goes back.
- Ids are parsed and printed by any codec that round-trips and prints visible ASCII without a comma,
  and the server's table names are visible ASCII; what a client records from anywhere else is
  unrestricted.

## Where the source and its own comments disagree

- `bus/src/await_version.rs:235-238` calls two overlapping applies of one create benign because
  both require version 1. `Mirror.OverlappingCreateIsBenignIff` proves, for the booking mirror and
  every run, that it is benign exactly while the owner's second event has not taken effect; after
  that the second upsert puts the booking back to reserved.
- `apps/services/payment-service/src/worker.rs:59-72` takes "the mirror reached this version" to
  mean it includes this event. `Mirror.ReachedEndsIff` proves that the mirror is ended then if and
  only if the booking's second event took effect on it, and `Overtaking.EndsUnlessOvertaken` that
  this is when the hatch never applied a later event to a row at version 1. Two runs in which it
  did: `Overtaking.CancelOvertakes`, where the cancellation itself is forced, and
  `Overtaking.RatingOvertakes`, where only a rating before it is.
- `bus/src/await_version.rs:344-346` says one junk entry must not cost a client the positions it got
  right. The header is read as text at line 258, and one character outside visible ASCII makes all
  of it read as empty: `Header.VersionKeptIff` gives the exact condition, `Header.JunkCosts` the
  price of one entry, and `Header.OneAccentLosesAll` is a response header that silences a client.
- `bus/src/outbox.rs:107-123` takes the creation time from the database so that an aggregate's events
  are published in the order of their versions. The time is when the transaction began:
  `Outbox.VersionOrderIff` gives the exact condition, and `Outbox.LateLockGoesFirst` is a pair of
  transactions of which the one that began first got the row's lock last. The gate is what repairs it.
- `apps/services/payment-service/src/repository/booking_mirror_repository.rs:28-33` calls the upsert
  insert-or-replace of the whole row. On a row that exists the changeset leaves alone the columns the
  new row has no value for, and that is what is modelled.
- `shared/src/general_models/spot.rs:96` says string comparison is right for accepted times. The
  parse also takes a leading `+`, and `Slots.StringOrderIff` proves the comparison is the clock's
  order exactly for times without one; `Slots.PlusGoesBackwards` is a day that ends before it
  starts and passes.
- `apps/frontend/src/lib/bookingAvailability.ts:83-88` says the edit screen skips past dates for
  the same reason the server does, and
  `apps/services/view-service/src/repository/booking_repository.rs:113-114` says its rows are what
  an edit can cancel. The server skips bookings that have ended, not dates, and cancels paid
  bookings only. `EditWarning.FormAgreesIff` gives the exact condition under which the two agree
  on every edit; `EditWarning.HoldIsOnlyWarned` and `EditWarning.PastDayIsOnlyCancelled` are a
  booking on each side of it.
- `apps/services/booking-service/src/service/booking_service.rs:84-87` names a compare-and-swap on
  publish as the guarantee against double booking. The code relies on the lock taken at
  `booking_service.rs:129`, and that is what is modelled.
- `apps/frontend/src/lib/mapPins.ts:78-79` keys a group by its ids joined with commas, so that no
  two groups share a key. `MapPins.NoPinLostIff` proves for which ids that is so whatever is near
  what, `MapPins.AtMostOneIsEnough` that one id with a comma does no harm, and
  `MapPins.TwoSpotsVanish` is four spots with one pin for two groups.

## Model

| member | source | states |
|---|---|---|
| Versions.GateAgreesWithGapReport | bus/src/projector.rs:178-191 | on a stored row the gate parks exactly the events the gap report counts as over a gap, while deliveries remain, skips exactly the stored ones, and the report counts exactly the versions between |
| Versions.GateWithoutARow | bus/src/projector.rs:178-191 | where there is no row only an event past the first waits, and no longer than thirty deliveries; where there is no table nothing waits; neither is ever skipped |
| PipelineSafety.Step | bus/src/projector.rs:287-317 | every step of the system, hatch included, keeps: nothing lost, one lock holder per row that has read what the row holds, rows within the log, effects increasing |
| PipelineSafety.RunInv | bus/src/outbox.rs:187-220 | that invariant holds after every run, whatever crashes, duplicates and redeliveries are in it |
| PipelineSafety.RunMonotone | shared/src/db.rs:255-259 | over any run no stored version goes down, the owner's history only grows, and recorded effects are never revised |
| PipelineSafety.RunFolds | bus/src/projector.rs:287-317 | every run, hatch included, keeps each row's columns the fold of exactly the owner's events that took effect on it |
| PipelineSafety.EffectsStrictlyIncrease | bus/src/projector.rs:178-191 | in every run, hatch included, the versions that change a row strictly increase, the last is the one stored, the row's columns are the fold of those events and no others, each once, and every committed event is in the outbox or the stream |
| PipelineSafety.NeverBothNext | bus/src/await_version.rs:220-247 | two lanes past the gate on one stored row never both conclude that theirs is the next event |
| PipelineExact.RunExact | bus/src/projector.rs:460-481 | along an unforced run the row stays the fold of a prefix, acknowledged stays within stored, and no lane that will acknowledge is ahead of the row |
| PipelineExact.ProjectionIsPrefixFold | bus/src/projector.rs:287-317 | after any run from an empty system with no forced gap of the aggregate, its row is the fold of exactly the owner's first `version` events, and every acknowledged event is among them |
| PipelineExact.QuiescentProjectionIsComplete | bus/src/projector.rs:508-510 | with the outbox empty and the consumer drained, the row is the fold of the owner's whole history |
| PipelineExact.PhasesRefineGate | bus/src/projector.rs:287-317 | the phases of an apply refine one atomic read-decide-apply at the commit; a park changes nothing; on a row that existed the verdicts agree |
| PipelineExact.RunRefinesGates | bus/src/projector.rs:444-488 | the rows after any interleaving of any number of lanes are those of a system that gates one delivery at a time, in commit order |
| PipelineExact.ReadYourOwnWrites | bus/src/await_version.rs:296-322 | once a poll has seen version v, the row contains the owner's events 1..v then and in every later state of the run, and those events never change |
| Rounds.DisorderIsAbsorbed | bus/src/projector.rs:139 | if k outstanding versions fit in the remaining deliveries, any order in every round applies all of them in version order within k rounds, and the hatch never fires |
| Rounds.ThirtyIsSharp | bus/src/projector.rs:178-191 | no schedule forces a gap if and only if at most one version is outstanding or deliveries used plus versions outstanding are at most thirty |
| Absorption.DisorderIsServed | bus/src/projector.rs:444-488 | the disorder bound on the apply loop itself: with the next k versions of an aggregate in the stream, delivered `before` times and `before + k` at most thirty, k rounds that each hand out every one of them still waiting once, in any order and among any deliveries of other aggregates, leave every one acknowledged and the row with the k events applied in version order |
| Absorption.MineServed | bus/src/projector.rs:444-488 | what the loop does to one aggregate's row and messages is what it does with the other aggregates' deliveries left out |
| Window.ProgressIffReachable | bus/src/projector.rs:534-547 | some parked deliveries lead to one that applies or skips without the hatch exactly when a message that is no gap is in flight or has fewer unacknowledged ones before it than the window |
| Window.ProjectorsProgress | bus/src/projector.rs:547 | with the projectors' window, fewer than 64 unacknowledged messages before one that is no gap cannot block the consumer |
| Window.ReachFirst | bus/src/projector.rs:534-547 | the progress is reached in exactly as many parked deliveries as lie between |
| Window.ProgressDecreases | bus/src/projector.rs:469-472 | every delivery that progresses leaves exactly one message fewer unacknowledged |
| Window.FullWindowBlocks | bus/src/projector.rs:477-480 | a window full of gaps never progresses without the hatch |
| Window.WindowOfOneBlocks | bus/src/projector.rs:534-543 | with a window of one, any parked message blocks the consumer until the hatch |
| Absorption.HandIsServed | bus/src/projector.rs:444-488 | one delivery in the counting of `Window` is one delivery of the apply loop: the same decision, the same stored versions, the same acknowledgements |
| Projection.Replica.SetVersion | shared/src/db.rs:226-265 | the stored version becomes the larger of the two on an existing row, nothing else changes, and the reported gap is the number of events never applied |
| Projection.Replica.Apply | bus/src/projector.rs:287-317 | the transaction is the atomic gate: its decision and its rows |
| Projection.Replica.Handle | bus/src/projector.rs:460-481 | one delivery gates, and acknowledges unless it parked; nothing else in the stream changes |
| Projection.Replica.Lane | bus/src/projector.rs:444-488 | one lane's share of the loop is the fold of single deliveries in the order they are handed out; `LaneIsARun` says what that fold is, and `PipelineExact.RunRefinesGates` covers the overlap of lanes |
| Projection.ServeIsHandle | bus/src/projector.rs:444-488 | the five steps of a delivery in the step system, with no other lock held, are what `Handle` does |
| Projection.LaneIsARun | bus/src/projector.rs:444-488 | from any state of the step system with no lock held by another lane, what the loop leaves of stream and rows, over any order of messages, is what some run of it leaves, with log, outbox, relays and lanes as they were |
| Outbox.OutboxRelay.Enqueue | bus/src/outbox.rs:130-152 | the first writer under an id wins; a second changes nothing |
| Outbox.OutboxRelay.FirstRows | bus/src/outbox.rs:197-203 | the batch is the oldest pending rows up to the limit, and empty only when nothing is pending; `InOrder` says what oldest means |
| Outbox.OutboxRelay.Drain | bus/src/outbox.rs:187-220 | a pass publishes and deletes the oldest rows in order; it ends with the table empty, or at the first fault, and then at most one row is published and it is still pending; `PassInOrder` says what order |
| Outbox.InOrder | bus/src/outbox.rs:197-203 | the oldest rows of a table have strictly increasing `createdAt`, or equal ones and increasing `id`, and every other row comes after all of them |
| Outbox.PassInOrder | bus/src/outbox.rs:187-220 | a pass, wherever it stopped, published rows in order of `createdAt` and then `id`, and every row it left, but for a stuck one, comes after all of them |
| Outbox.PassInVersionOrder | bus/src/outbox.rs:107-123 | if an aggregate's rows were enqueued in version order, each at a later time, every pass puts its versions on the stream in increasing order, wherever it stops and whatever the broker drops, and leaves only newer ones |
| Outbox.VersionOrderIff | bus/src/outbox.rs:107-123 | a pass that empties the table publishes an aggregate's versions in increasing order if and only if time, and then id, rank its rows as their versions do |
| Outbox.LateLockGoesFirst | bus/src/outbox.rs:121-126 | two transactions on one aggregate of which the later version has the earlier time: it is published first |
| Outbox.BatchIsARun | bus/src/outbox.rs:209-218 | one batch, however it ends, is a run of the step system for an idle relay and leaves the same outbox and the same stream |
| Outbox.PassIsARun | bus/src/outbox.rs:187-220 | a whole pass, however many batches it took and wherever it stopped, is a run of the step system for an idle relay and leaves the same outbox and the same stream |
| Bookings.OutcomeHappens | apps/services/booking-service/src/repository/booking_repository.rs:72-107 | what a guarded write makes of a row is what its event says happened to it, one version on |
| Bookings.TxGapless | shared/src/db.rs:166-187 | every transaction keeps every booking's row the replay of its enqueued events, one per version |
| Bookings.RefusedBurnsNothing | apps/services/booking-service/src/sweeper.rs:108-121 | a transaction whose guard matched nothing adds neither version nor outbox row; an accepted one adds exactly one of each to its own booking |
| Bookings.OneEventPerVersion | shared/src/db.rs:166-187 | version n of a booking is its n-th enqueued event |
| Bookings.MoveAllMovesOnce | apps/services/booking-service/src/sweeper.rs:60-159 | one transition over a stale, repeating list moves exactly the eligible bookings, each by one version and one event, and leaves every other row and history alone |
| Bookings.SecondPassIsNoOp | apps/services/booking-service/src/sweeper.rs:82-151 | a second sweep of holds already swept publishes nothing and burns no version |
| Bookings.MoveAllGapless | apps/services/booking-service/src/projector.rs:154-212 | a whole pass over any list keeps every booking gapless |
| Owners.WritersStayGapless | apps/services/booking-service/src/sweeper.rs:82-151 | under any interleaving of transactions of any number of guarded writes, with aborts anywhere, the database is the committed writes one after the other, each booking the replay of one event per version |
| Owners.MoveAllIsTxAll | apps/services/booking-service/src/projector.rs:100-141 | one transition over a list, as a sweep or the reaction takes it, is such a sequence of guarded writes |
| Owners.AbortUndoes | apps/services/booking-service/src/sweeper.rs:82-151 | a transaction may give up at any time, and it is as if it had never begun |
| BookingStores.BookingStore.Settle | apps/services/booking-service/src/projector.rs:154-212 | mint, guard, record and enqueue together are one atomic guarded transition, and the version answered is the one stored |
| BookingStores.BookingStore.RateBooking | apps/services/booking-service/src/service/booking_service.rs:296-341 | storing first and numbering afterwards is still one atomic guarded write |
| BookingStores.BookingStore.Hold | apps/services/booking-service/src/service/booking_service.rs:133-198 | a reservation writes its row, every column from the request, and its first event; an id seen before writes nothing and reports the stored version |
| BookingStores.BookingStore.LapsedHolds | apps/services/booking-service/src/repository/booking_repository.rs:182-196 | at most the limit of reserved bookings whose `holdUntil` is past, none twice, and all of them when fewer than the limit |
| BookingStores.BookingStore.Sweep | apps/services/booking-service/src/sweeper.rs:51-161 | a tick releases reserved bookings whose `holdUntil` is past, by one version and one event each, all of them below the cap but for the failed transactions, and leaves every other row and history alone |
| BookingStores.HoldIsSafe | apps/services/booking-service/src/sweeper.rs:51-161 | from the reservation on, through any ticks not past its expiry and any writes to other bookings, a hold keeps its row and its history |
| BookingStores.HoldIsGivenUp | apps/services/booking-service/src/sweeper.rs:51-161 | the first tick past the expiry that is below its cap and does not fail makes a booking that is still reserved released, with one version and one event |
| BookingStores.OnlyReservedIsSwept | apps/services/booking-service/src/sweeper.rs:82-121 | no tick touches a booking that is not reserved |
| BookingStores.BookingStore.React | apps/services/booking-service/src/projector.rs:100-141 | run alone, exactly the upcoming confirmed bookings the new hours cannot honour are cancelled, one version and one event each; none is left; the event again changes nothing |
| BookingStores.ReactedColumns | apps/services/booking-service/src/projector.rs:100-141 | which bookings the reaction cancels, on the columns: confirmed, of the spot, still to come, and the spot gone or the new hours not honouring them; what it changes in them, and that it changes nothing else |
| BookingStores.SettledIsCovered | apps/services/booking-service/src/projector.rs:220-222 | judged by the service's own check, afterwards every slot of every upcoming paid booking is covered by a window of its date |
| Reactions.LeftBehindIff | apps/services/booking-service/src/projector.rs:125-141 | run beside any other writers: when the reaction has committed, every booking it listed is cancelled, and the paid bookings the new hours do not honour are exactly those to come that a write committed since the list was read confirmed, none after it cancelled |
| Reactions.HoursLeftBehindIff | apps/services/booking-service/src/projector.rs:214-222 | the same judged by the service's own check of the new hours |
| Reactions.LateConfirmIsLeft | apps/services/booking-service/src/projector.rs:125-133 | a hold paid between the read of the list and the commit is left paid outside the hours |
| Reactions.PaidIff | apps/services/booking-service/src/repository/booking_repository.rs:72-107 | under any committed writes a booking is paid exactly when it was and none cancelled it, or one confirmed it and none after that cancelled it |
| Mirror.MirrorFollowsOwner | apps/services/payment-service/src/projector.rs:55-97 | after any number of the owner's events the folded mirror equals the owner's booking in every shared column |
| Mirror.CreateOverRow | apps/services/payment-service/src/repository/booking_mirror_repository.rs:34-43 | a create over a row sets every column but the two reasons |
| Mirror.OwnerFeedsPipeline | apps/services/booking-service/src/sweeper.rs:95-149 | each accepted owner transaction is a commit the pipeline accepts, and a refused one is no step at all |
| Mirror.MirrorMatchesOwner | apps/services/payment-service/src/projector.rs:55-104 | behind the pipeline, with no gap of the booking forced, the mirror row at version n is the owner's booking after n events; `Joined` removes the premise that the history is legal |
| Mirror.PickedMirror | apps/services/payment-service/src/projector.rs:55-97 | the fold of any increasing selection of a legal history that holds its first event is the owner's booking: as of the last event selected if the second is among them, as created if it is not |
| Mirror.MirrorShowsOwner | apps/services/payment-service/src/projector.rs:55-104 | in every run, hatch included, a mirror row shows the owner's booking as of its version if the owner's second event took effect on it, and as it was created if not |
| Mirror.EndedStays | apps/services/payment-service/src/projector.rs:69-92 | in every run, hatch and duplicates included, a released or cancelled mirror row keeps its columns for ever |
| Mirror.ReachedEndsIff | apps/services/payment-service/src/worker.rs:59-72 | in every run, hatch included, a mirror that reached the event that ended its booking is ended if and only if the second event took effect, and then is the owner's ended row; otherwise it is still reserved; a release always shows |
| Mirror.SettlementIsSafe | apps/services/payment-service/src/worker.rs:53-90 | the same for a worker that goes on while the run does: ended exactly when the second event took effect, always when no gap of the booking was forced, and a row found ended keeps the owner's columns after any further steps |
| Mirror.OverlappingCreateIsBenignIff | bus/src/await_version.rs:235-238 | on any mirror row a run can produce, a second create that read no row is harmless if and only if the owner's second event has not taken effect |
| Mirror.ForcedCancelHidesTheEnd | apps/services/payment-service/src/worker.rs:59-72 | created, confirmed, cancelled, the cancellation forced: the row says version 3 and is not ended |
| Mirror.ForcedRatingHidesTheEnd | apps/services/payment-service/src/worker.rs:59-72 | created, confirmed, rated, cancelled, only the rating forced: the cancellation then applies as the next event, and the row says version 4 and is not ended |
| Overtaking.SecondTookIff | bus/src/projector.rs:178-191 | for any projector whose first event alone inserts: on a row past version 1 the second event took effect if and only if no later event was committed onto the row at version 1 |
| Overtaking.OvertakesByTheHatch | bus/src/projector.rs:178-191 | only a forced gap does that |
| Overtaking.EndsUnlessOvertaken | apps/services/payment-service/src/worker.rs:59-72 | in every run, a mirror that reached the event that ended its booking is ended if and only if no later event overtook the second one |
| Overtaking.CancelOvertakes | apps/services/payment-service/src/worker.rs:59-72 | a run from an empty system in which a confirmed booking is cancelled, the cancellation is forced, and the mirror stays reserved at version 3 |
| Overtaking.RatingOvertakes | apps/services/payment-service/src/worker.rs:59-72 | a run from an empty system in which only a rating is forced, the cancellation applies on its first delivery, and the mirror stays reserved at version 4 |
| Overtaking.ForcedIsOwn | bus/src/projector.rs:178-191 | a forced gap is one aggregate's own, so the claims about unforced runs allow any others |
| Overtaking.CrashLosesNothing | bus/src/projector.rs:460-472 | a lane may crash at any point of an apply; nothing else changes, and its message, if not acknowledged, can be delivered again |
| Overtaking.CreatesOverlap | bus/src/await_version.rs:235-238 | two overlapping deliveries of a create, both of which read no row, are among the runs, and leave the created row |
| Joined.JointRun | apps/services/booking-service/src/projector.rs:100-141 | every run of the owner's transactions and the pipeline together is a run of the pipeline, and its log is what the owner enqueued |
| Joined.NextExists | shared/src/db.rs:166-187 | whatever an owner transaction commits, the pipeline can take |
| Joined.EitherSideMoves | shared/src/db.rs:166-187 | whatever the owner or the pipeline can do on its own it can do in a joint run |
| Joined.MirrorOfTheOwner | apps/services/payment-service/src/projector.rs:55-104 | from empty databases, under any interleaving of the owner's writers, relays and replicas, hatch included: the history is legal and replays to the owner's table, the mirror shows the owner's booking, and at the owner's own version it is the owner's row if the second event took effect or no gap was forced |
| Payments.MirrorTable.Apply | apps/services/payment-service/src/projector.rs:40-106 | the arms and the version together change exactly the event's row, to what the fold says; a create over a row leaves alone what it has no value for |
| Payments.Reached | bus/src/await_version.rs:288-326 | the wait succeeds exactly when some answer in time is at the version or above and none before it was `Unavailable`, on the first such answer |
| Payments.PollAnswers | bus/src/await_version.rs:296-300 | a poll after any step of a run answers the version of the row, or that there is none |
| Payments.BookingWorker.Handle | apps/services/payment-service/src/worker.rs:47-91 | exactly one settlement, for a release or cancellation some answer in time was at the version of, with no `Unavailable` before; none for any other event or before that |
| Payments.BookingWorker.HandleInRun | apps/services/payment-service/src/worker.rs:47-91 | on answers read from a run, hatch included: when the worker settles, the row its wait stopped at is at the version of the event and released or cancelled, or a later event had overtaken the second one; with no gap forced it is; and an ending event that was seen is settled |
| Payments.WorkerSettlesSafely | apps/services/payment-service/src/worker.rs:53-90 | whichever answer, polled anywhere in a run, hatch included, the wait stopped at: the row it was read from had ended if and only if the second event had taken effect, which is when no later one had overtaken it, always if no gap was forced; and then the row is the owner's ended booking to the end of the run |
| Payments.HostTable.Apply | apps/services/payment-service/src/projector.rs:127-172 | the arms change exactly the event's host row, to what the fold says; an edit never creates one |
| Payments.HostIsLastMention | apps/services/payment-service/src/projector.rs:140-165 | the host mirror holds the last email and the last country a history mentions, whatever registrations are replayed |
| Policy.DayIff | apps/services/booking-service/src/policy/availability.rs:104-122 | a day is accepted exactly when every slot takes time, fits one open window, meets nothing taken and no other slot of the request |
| Policy.RefusalIsJust | apps/services/booking-service/src/policy/availability.rs:104-122 | a refusal is about the first slot that is not accepted, and names its reason: unreadable, in no open window, or in one and meeting a booking or an earlier slot |
| Policy.BilledMinutesAreFree | apps/services/booking-service/src/policy/availability.rs:72-77 | the billed minutes are the number of different minutes requested, all open and none taken |
| Policy.CheckSlots | apps/services/booking-service/src/policy/availability.rs:104-122 | the loop over one date finds the first complaint, or the minutes |
| Policy.CheckIff | apps/services/booking-service/src/policy/availability.rs:82-127 | whether a request is authorised does not depend on the order of its dates |
| Policy.BillIsOrderFree | apps/services/booking-service/src/policy/availability.rs:82-127 | an authorised request costs the same whatever order its dates are visited in |
| Policy.CheckRequest | apps/services/booking-service/src/policy/availability.rs:82-127 | the whole check authorises exactly the allowed requests with something in them, and reports what some order of the dates reports |
| Policy.OfferedIffAuthorised | apps/services/booking-service/src/policy/availability.rs:38-43 | the page offers a slot if and only if the server authorises it |
| Policy.FitsIff | apps/services/booking-service/src/projector.rs:220-222 | a booking still fits exactly when the page's comparison covers every slot of it |
| Policy.ValidatedIsSound | shared/src/general_models/spot.rs:92-115 | a day the slot rules accept in plain digits is well-formed, takes time in every slot and has no two slots that meet |
| EditWarning.MergeBookedMerges | apps/frontend/src/lib/bookingAvailability.ts:112-120 | what the merge leaves holds on every date exactly the slots of the fetched bookings |
| EditWarning.CancelledIff | apps/services/booking-service/src/projector.rs:100-141 | for an edit and a booking the slot rules accept, in plain digits, the server cancels if and only if the booking is upcoming and paid and has a slot no window of its date covers |
| EditWarning.AgreeIff | apps/frontend/src/lib/bookingAvailability.ts:80-102 | warning and cancellation agree on a booking for every edit of the hours if and only if it is upcoming and paid with no slot dated before `from`, or not upcoming and paid with none dated on or after |
| EditWarning.FormAgreesIff | apps/services/view-service/src/repository/booking_repository.rs:113-128 | for what the form fetches, through the merged map: they agree for every edit if and only if a paid booking has no slot before `from`, a hold none on or after |
| EditWarning.HoldIsOnlyWarned | apps/services/view-service/src/repository/booking_repository.rs:113-128 | a hold two days ahead and an edit that closes its hour: warned about, not cancelled |
| EditWarning.PastDayIsOnlyCancelled | apps/frontend/src/lib/bookingAvailability.ts:89-102 | a paid booking of two days, one past, and an edit that keeps the day to come: no warning, and cancelled |
| EditPages.PageAgreesIff | apps/frontend/src/views/spot/EditSpotView.vue:162-163 | for a page of bookings that do not meet: on every edit the page warns of something exactly when the server cancels something, if and only if every paid booking to come has no slot before `from` and every other one none on or after |
| EditPages.SilentPage | apps/frontend/src/lib/bookingAvailability.ts:89-102 | a paid booking with a past day: some edit makes the server cancel it and the page warn of nothing at all |
| EditPages.NeedlessPage | apps/services/view-service/src/repository/booking_repository.rs:113-128 | a hold with a slot to come, and no paid booking with a past day: some edit makes the page warn of it and the server cancel nothing at all |
| Reservations.TakenForSpot | apps/services/booking-service/src/repository/booking_repository.rs:145-174 | the union holds exactly the slots of the reserved and confirmed bookings of the spot that are still to come |
| Reservations.EndingFrees | apps/services/booking-service/src/repository/booking_repository.rs:145-174 | after a release or cancellation that moved its booking a slot is taken if and only if another booking holds it |
| Reservations.TimeFrees | apps/services/booking-service/src/repository/booking_repository.rs:145-174 | the clock moves, and once a booking is over a slot is taken if and only if another booking holds it |
| Reservations.ConfirmingKeeps | apps/services/booking-service/src/repository/booking_repository.rs:145-174 | a confirmation changes nothing about what is taken |
| Reservations.Step | apps/services/booking-service/src/service/booking_service.rs:112-198 | every reservation, transition and tick keeps: no double booking, one lock holder per spot, and what a checking renter saw covers all that blocks |
| Reservations.NeverDoubleBooked | apps/services/booking-service/src/repository/spot_mirror_repository.rs:33-64 | in every run from a state without one, no two live bookings of one spot still to come share a minute of any date |
| Reservations.NeverFromEmpty | apps/services/booking-service/src/service/booking_service.rs:112-198 | so none ever does from an empty database |
| Reservations.NoMinuteTwice | apps/services/booking-service/src/service/booking_service.rs:112-198 | in every run from an empty database, of any two slots of two different bookings of one spot, each reserved or confirmed and still to come, on one date, one is over before the other begins |
| Reservations.ReservationGoesThrough | apps/services/booking-service/src/service/booking_service.rs:112-198 | on a spot nobody has locked, a request allowed beside what is taken is written |
| Reservations.LookingFirstDoubleBooks | apps/services/booking-service/src/service/booking_service.rs:124-128 | reading availability before taking the lock sells the same slots twice |
| Intervals.FreeIsExact | apps/frontend/src/lib/bookingAvailability.ts:39-62 | a minute is free exactly when it is in some open window and in no busy stretch |
| Intervals.FreeCovers | apps/frontend/src/lib/bookingAvailability.ts:39-62 | a slot that takes time fits one free stretch exactly when it fits one open window and overlaps no busy stretch that takes time, in any order of either |
| Intervals.FreeSorted | apps/frontend/src/lib/bookingAvailability.ts:44-60 | sorted disjoint windows leave sorted, disjoint, non-empty stretches |
| Intervals.MinutesAreConserved | apps/frontend/src/lib/bookingAvailability.ts:39-62 | free minutes and open minutes that are busy add up to the open minutes |
| Availability.SplitAround | apps/frontend/src/lib/bookingAvailability.ts:46-57 | the inner loop trims or splits every segment around one busy stretch |
| Availability.Subtract | apps/frontend/src/lib/bookingAvailability.ts:39-62 | the nested loops compute the spelled free stretches |
| Availability.RemainingIsFree | apps/frontend/src/lib/bookingAvailability.ts:58-61 | what is left reads back as exactly the free stretches, so nothing is lost in spelling |
| Availability.BookableIff | apps/frontend/src/lib/bookingAvailability.ts:77-78 | through the string comparison, a slot is covered by what is left if and only if it is covered by the hours and overlaps nothing booked that takes time |
| Availability.MergeBooked | apps/frontend/src/lib/bookingAvailability.ts:112-120 | on every date the merged slots are all bookings' slots in order, none overwritten |
| Availability.RemainingWindows | apps/frontend/src/lib/bookingAvailability.ts:128-137 | of what is left on a date a slot that takes time is covered exactly when a window of the date covers it and no merged slot that takes time overlaps it |
| Availability.OfferedIff | apps/frontend/src/lib/bookingAvailability.ts:128-137 | from the bookings as fetched: a slot is offered if and only if an open window covers it and no booking of the date overlaps it |
| Times.ToHHMMToMin | apps/frontend/src/lib/bookingAvailability.ts:28-34 | minutes below a hundred hours survive being spelled and read |
| Times.ToMinToHHMM | apps/frontend/src/lib/bookingAvailability.ts:28-34 | a well-formed time survives being read and spelled |
| Times.ClockOrder | apps/frontend/src/lib/bookingAvailability.ts:75-76 | well-formed times compare as strings exactly as they compare as minutes |
| Slots.ValidIff | shared/src/general_models/spot.rs:92-115 | in plain digits the rules accept exactly the days of half-hour slots that take time and are pairwise disjoint |
| Slots.ComplaintIsJust | shared/src/general_models/spot.rs:92-147 | a complaint names what is wrong with some slot, or with some two |
| Slots.AcceptedIff | shared/src/general_models/spot.rs:137-147 | the accepted times without a plus are exactly the half hours before midnight |
| Slots.CanonicalIff | shared/src/general_models/spot.rs:137-147 | an accepted time is spelled the one way its minutes are spelled if and only if it holds no plus |
| Slots.StringOrderIff | shared/src/general_models/spot.rs:96-100 | an accepted time compares in the clock's order if and only if it holds no plus |
| Slots.PlusGoesBackwards | shared/src/general_models/spot.rs:92-101 | a day whose only slot ends an hour before it starts passes |
| Slots.DayIsBounded | shared/src/general_models/spot.rs:92-115 | an accepted day in plain digits has at most 47 slots and at most 1410 minutes |
| Slots.FullDayPasses | shared/src/general_models/spot.rs:92-115 | the bound is reached: all the half hours of a day pass together |
| MapPins.ClusterPins | apps/frontend/src/lib/mapPins.ts:58-93 | the loops over the `taken` array compute the pins of the recursive grouping of the sorted spots; each stands at the mean of its own spots, and shows a price if it is one spot |
| MapPins.PinsStand | apps/frontend/src/lib/mapPins.ts:78-89 | every pin stands at the mean longitude and the mean latitude of its own spots, between the outermost of them; a pin of one spot stands on it and shows its price, a pin of more shows none |
| MapPins.GatherFrom | apps/frontend/src/lib/mapPins.ts:69-76 | one leader's pass gathers exactly the untaken spots near it and leaves the others untaken, in order |
| MapPins.GroupsPartition | apps/frontend/src/lib/mapPins.ts:66-76 | every spot lands in exactly one group |
| MapPins.GroupsAreWell | apps/frontend/src/lib/mapPins.ts:48-50 | members are near their leader and behind it in id order, and no earlier leader is near a later group's member |
| MapPins.MemberIff | apps/frontend/src/lib/mapPins.ts:48-50 | a spot is in a group if and only if that group's leader is the lowest-id leader that is the spot or near it |
| MapPins.LeadersApart | apps/frontend/src/lib/mapPins.ts:66-76 | no two leaders are near each other |
| MapPins.OrderDoesNotMatter | apps/frontend/src/lib/mapPins.ts:60-61 | every permutation of the spots gives the same groups |
| MapPins.PinPerGroupIff | apps/frontend/src/lib/mapPins.ts:63-89 | putting the pins under their keys never leaves more pins than groups, and leaves one per group if and only if no two keys are equal |
| MapPins.ClashLosesAPin | apps/frontend/src/lib/mapPins.ts:67-89 | two disjoint selections of two or more spots whose ids join to one string cost a pin when they stand in two places of the screen, by the page's own distance test, which is symmetric |
| MapPins.NoPinLostIff | apps/frontend/src/lib/mapPins.ts:67-89 | for spots with distinct ids, no pin is lost whatever is near what, equally for any symmetric nearness, equally wherever on the screen the spots stand by the page's distance test, if and only if no two disjoint selections of two or more spots, in id order, have ids that join to one string |
| MapPins.FiftyPixels | apps/frontend/src/lib/mapPins.ts:33 | fifty pixels apart is near in any direction, and a pixel more is not |
| MapPins.AtMostOneIsEnough | apps/frontend/src/lib/mapPins.ts:78-80 | spots of which at most one id holds a comma have no such selections |
| MapPins.TwoSpotsVanish | apps/frontend/src/lib/mapPins.ts:78-89 | ids `x`, `x,y`, `y,z`, `z` in two groups of two: one pin, and two spots are on no pin |
| MapPins.PinsPartition | apps/frontend/src/lib/mapPins.ts:58-92 | with distinct ids the groups hold every spot once, and with no clash, so in particular with at most one comma among the ids, there is exactly one pin per group, in group order, holding that group |
| MapPins.MeanIsAmong | apps/frontend/src/lib/mapPins.ts:81-86 | a pin stands within the bounds its spots lie in |
| Header.VersionRoundTrip | shared/src/events/mod.rs:84-99 | a signed version survives printing and parsing if and only if it is not negative, and a negative one is refused |
| Header.AggregateRoundTrip | shared/src/events/mod.rs:75-109 | a table and an id survive printing and parsing if and only if the table holds no colon |
| Header.ParsedSpells | shared/src/events/mod.rs:96-109 | what the server makes of an entry is spelled in it: a table without a colon, an id that parses, an unsigned number that fits |
| Header.VisibleAscii | bus/src/await_version.rs:258 | what the server reads as text is codes 32 to 126, and 9 |
| Header.ReportedTables | shared/src/events/mod.rs:75-77 | the tables whose versions the services report are such that the theorems about reported versions hold of them |
| Header.SpelledParses | shared/src/events/mod.rs:96-109 | and whatever is so spelled it reads |
| Header.BlanksAreTrimmed | bus/src/await_version.rs:349 | spaces and tabs around an entry make no difference |
| Header.JunkIsSkipped | bus/src/await_version.rs:347-353 | a malformed comma-free entry, anywhere, leaves all other entries as they were |
| Header.JunkCosts | bus/src/await_version.rs:344-353 | in the header as it is read, a malformed entry leaves the others alone if it is visible ASCII, and otherwise costs all of them |
| Header.VersionLog.Record | apps/frontend/src/lib/awaitVersion.ts:29-48 | a response moves its aggregate's entry forward in place, or adds it last; junk changes nothing |
| Header.AcceptIff | apps/frontend/src/lib/awaitVersion.ts:29-48 | the client takes note of a response if and only if it is an aggregate with a colon in it, an `@`, and at least one digit and nothing else |
| Header.LatestIsNewest | apps/frontend/src/lib/awaitVersion.ts:22-28 | the client's memory holds, once each, exactly the aggregates reported, at their maximum |
| Header.WaitsAre | bus/src/await_version.rs:257-258 | when every aggregate is visible ASCII the server hears each entry of a client's header on its own, whatever the others are; otherwise it hears nothing |
| Header.AnyCallsRoundTrip | bus/src/await_version.rs:257-258 | for any responses at all, the server waits for exactly what it hears in the aggregates recorded, each with the largest version recorded, if all of them are visible ASCII, and for nothing if one is not |
| Header.VersionKeptIff | bus/src/await_version.rs:257-258 | whatever else a client recorded, a version of the server's is waited for if and only if every recorded aggregate is visible ASCII |
| Header.ReadableIff | apps/frontend/src/lib/awaitVersion.ts:61-67 | the client can tell from what it remembers, before it sends |
| Header.OneAccentLosesAll | bus/src/await_version.rs:257-258 | one recorded `é:x@1` beside a version of the server's, and the server waits for nothing |
| Header.HeaderRoundTrip | apps/frontend/src/lib/awaitVersion.ts:29-67 | for any mixture of responses and junk the server reads back every version it reported if and only if all that was recorded is visible ASCII; and when everything accepted was written by the server, exactly the aggregates reported, once each, at the largest version |

## Left out

- NATS, JetStream, diesel, axum, Stripe, Resend, S3 and LocationIQ: the broker is a sequence with delivery counts and acknowledgements, the database is rows with locks.
- `settle_up`, `request_payout`, the wallet fold and view-service's projectors: what a settlement pays out is not modelled, only when it may start.
- The spot mirror's own columns, the price, the time zone and the end of a booking: `Reservations` takes the hours and the end as the request carries them.
- The refusals of `create_booking` that are plain guards (spot missing, incomplete, inactive, own spot).
- `createdAt`, `occurred_at` and `actor_id`: columns nothing here decides by, except the outbox order.
- Retention of the streams: a projection built after events expired is not modelled.
- Arithmetic past the 64-bit range in `stored + 1`, and past 32 bits in the server's minutes: versions and minutes are unbounded there.
- Numbers above 2^53 in TypeScript.
- Characters a browser refuses to send in a header, or an HTTP parser to read: such a request is not served at all, and reads here as one that waits for nothing.
- Floating point and Web Mercator in `toPixels`: nearness is any relation, or the distance test on any real positions.
- Weekdays and time zones: the calendar is a parameter both sides share.
- EditWarning.AgreeIff: hours and bookings are in plain digits, because a time with a plus is read one way by the server and another by the page (`Slots.StringOrderIff`); the page's today and the one the saved dates are held to are one date. A date has one spelling: the server's parser also takes `2026-8-3`, which the page's refuses.
- Policy.Check: takes the way a slot is read as a parameter, because every claim about it holds for any; `Policy.CheckRequest` fixes it to the source's.
- Window.ProgressIffReachable: an applied event is taken to store its version, so a non-create on a missing row that the projector writes nothing for is not distinguished.
- Projection.Replica.Apply: an event of an aggregate the database does not store is not modelled.
- The order in which several relays take rows: the step system lets a relay read any pending rows, `Outbox` fixes the order of one.
- JWT, email tokens, media, the migrator, readiness flags, retry counts, response mapping, routers, Vue, Tauri, the demo seed: plumbing, or easy members.

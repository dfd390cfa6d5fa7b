# funding-carry: a verified model

A Dafny model of the four places in funding-carry where a wrong answer would be silent: the
order protocol between the simulated venue and the client, the one writer in front of the
database, the hourly funding arithmetic and its live form, and the stream aggregators that
feed it. Check it with `dafny verify dfyconfig.toml`.

Decimals are exact reals, with the two operations that round written out (a quotient and an
explicit `Round`, both to sixteen places, half away from zero). Times are integers. A zero
`time.Time` and a NULL number are `None`.

Each stateful component is given twice. A step function on a plain state says what one turn
of the source's loop does, and `Run` folds it over a sequence of events; the theorems are
about `Run`, so they hold for every run. A class with the source's own fields has the
source's methods, loops included; each method is proved to take the state through exactly
that step, and a ghost `history` ties the object to `Run(history)`, so every theorem about
runs is a theorem about every reachable object.

## The order protocol

`Engine.dfy` is the venue (`internal/fix/engine.go`): it accepts, slices, prints, cancels and
refuses. `Tracker.dfy` is the client (`internal/exec/statemachine.go`). Between them
`Delivery.dfy` allows anything: reports in any order, any number of times, before or after
the order was registered, mixed with other orders' traffic and with timeout sweeps.

The main result is `Convergence.TheTrackerConverges`: for an id submitted once, any delivery
that contains the last report of an ended order leaves the tracker with the venue's final
state, CumQty and AvgPx and nothing left, and `NothingTheVenueSendsIsInvalid` says no report
is judged invalid on the way. It rests on two halves. `EngineBook` shows that every run of
the venue gives each accepted order one entry, then fills that add up, then at most one end.
`TrackerSafety` shows that a replayed report is invisible, that registration commutes with
reports, and that an ended order never moves.

What each turn does is told over whole runs, by the market read, the reports published and the
order as it was. `EngineTicks.WhatATickDoes` says which orders a tick prints, at what price, and
what becomes of the rest; `Requests.WhatASubmissionBecomes` and `WhatACancelDoes` answer
submissions and cancels; `EngineTicks.NoUnrecordedFillIsSent` says a fill the writer refused is
never sent. On the client's side `Overfills.WhatAReportDoes` and `WhatARegistrationDoes` say
exactly which events move an order, and `OverdueExactlyAfterTheTimeout` when it is overdue.

Where the code does less than its documentation says:

- The filled quantity can fall: a NEW is applied without checking its CumQty. It falls
  exactly on an acknowledgement with a negative CumQty that reaches a pending order
  (`FilledFallsExactlyOnANegativeAcknowledgement`), with a concrete run in
  `ANegativeAcknowledgementLowersTheFill`. The theorems over arbitrary reports ask for
  CumQty >= 0.
- The same NEW can state more than was ordered, and a report that states more than was ordered is
  otherwise refused (`Overfills.AnOverfillIsInvalid`). So an order its acknowledgement overfilled is
  stuck open: nothing the venue reports can move it or end it again (`AnOverfilledOrderIsStuck`,
  `AnAcknowledgementMayOverfill`). `OverfilledExactlyWhen` has the two ways in.
- A duplicate ClOrdID misleads the client: its refusal is filed under the order that has the
  id already. For an order accepted and ended on a run the writer did not stop, every delivery
  of everything the venue sent ends where the venue did exactly when the id was submitted once
  (`Duplicates.ConvergesExactlyWhenSubmittedOnce`), which the initiator enforces within one
  process. It takes no disorder: in `ADuplicateIsTakenForAnEnd` everything arrives once, as it
  was sent, and the client takes a filled order for a refused one.
- An average price can round through a limit of more than sixteen decimals. For a positive
  limit, which is all the venue takes, no run of any venue does so exactly when the limit
  itself rounds to the right side (`AveragesAreProtectedExactlyWhenTheLimitIs`).
- A latency below 2 ns can leave a part-filled order due at the instant it printed. Over all
  reachable venues that reread their market, ticks always move what they evaluate on exactly
  when the latency is at least 2 ns (`LatencyPreventsSpinExactlyFromTwo`).

## The one writer

`Database.dfy` is one map per natural key with the three conflict clauses of
`internal/db/rows.go`; `Writer.dfy` and `WriterLoop.dfy` are the queue, the grouping, the
flush and its retries. An attempt may be acknowledged, may land and be reported as failed, or
may be rolled back. A run that ends without error has applied every accepted row once, in
acceptance order (`ExactlyOnceWhenProducersStopFirst`); a fatal one leaves a prefix, the last
batch whole or not at all (`AFatalRunLeavesAPrefix`). It makes progress (`WriterProgress.dfy`): a
tick writes all that is pending, fewer than a batch ever is, a flush ends the writer exactly when
no attempt within the limit is reached and acknowledged, and from any run that has not ended
enough turns write every row ever accepted (`EverythingIsWrittenInTheEnd`).

- The comment on `send` rests the safety of a retry on DO NOTHING. Two tables overwrite or
  merge instead; `ReplayIsANoOp` holds for those too, while `OrderWithinAKeyMatters` shows
  that reordering would not be safe.
- `Submit` checks `stop` and then selects, so a producer past that check can be told its row
  was taken after the only reader has gone. `ExactlyOnce` says exactly which rows such a run
  loses, and `ALateRowIsLost` gives one.

## Funding

`Funding.dfy` is the estimator, `FundingRunner.dfy` its live form with `LateMarks.dfy`, and
`Resumed.dfy` a backfill's; `FundingRows.dfy` says which hours have a row and what each says of its
hour, for the batch, for a live run and for one that begins with a seed. Rounding never
accumulates: every rate of every series is within 2/3 of the sixteenth place of the unrounded
recursion over the same premiums, and within 27/16 of it of the venue's formula with no rounding
anywhere; two seeds are forgotten by a factor of four an hour. The live runner, with its trimmed
two-hour window, emits exactly the batch series.

- That needs every hour to be computed after its last mark. `FundingRunner.Run` fires on the
  hour while the last mark of the hour is taken `markDelay` later, so on the clock as it is
  written the last mark of an hour is not in. What that does to the stored row: the rate is
  off by how far the missing marks' mean premium stands from the others', by their
  share of the hour and three quarters if there is a previous rate, to within 7/4 of the
  sixteenth place (`MissingMarksPullTheRate`, and `AnHourComputedEarlyIsOffByThePull` on every
  run). So an hour of one premium is stored the same with marks missing
  (`AFlatHourIsStoredTheSame`), and one whose late mark stands apart is not
  (`ALateMarkIsNotInTheStoredRate`). The whole outcome, with the count of marks that is logged
  and not stored, is the batch's exactly when all of them were in
  (`AnHourAgreesExactlyWhenItsMarksAreIn`).
- `firstUnrecorded` says an older hour cannot be marked anyway. With marks that never go back
  in time, an hour of any age can still be marked exactly when thirteen of its marks are no
  older than the retention before the last mark, all of them with a spot mark
  (`AnHourIsMarkableExactlyWhile`). None is left once a mark has come more than three hours
  after the hour began (`OlderHoursAreGone`); while the feed is silent all of them are, and
  the tick passes the hour over for good (`ASilentFeedLosesAnHour`).
- A backfill computes the hours not yet recorded with no seed, so one that is resumed starts
  cold. It meets the uninterrupted series by a factor of four an hour, from the distance of its
  first premium to the last rate recorded, down to 4/3 of the sixteenth place
  (`AResumedBackfillMeetsTheWhole`).

## Aggregators

`Aggregates.dfy`, `Ties.dfy` and `Trades.dfy` are trade bucketing, `Marks.dfy` the
three-minute marks, `Candles.dfy` the candle writer and `Backfill.dfy` the gap finder and pager.

- From trades to marks (`MarkedTrades.dfy`): however the two products' trades, ticks,
  reconnects, quotes and samples interleave, a product's price over a window is within one
  unit of the sixteenth place of the exact price of each id's first delivery for its minutes
  (`AMarkIsThePriceOfWhatWasDelivered`), and a product admitted before the window with no
  reconnect since has every minute of it (`TheWholeWindowIsThere`). `SampledPrices.WhatASampleIs`
  goes on to the sample itself: each side of it is that price whatever was quoted, else the mean of
  the quotes, else as far from the other side as the two last were.
- A mark weighs each bucket by its volume of known side, so with unknown sides it is close to
  the price with the unknown prints taken out. Whether that matters depends on sizes and sides
  alone: the mark is within a unit of every trade's price, whatever the prices, exactly when
  every minute traded in the window has the same share of known side
  (`UnknownSides.TheUnknownIsHarmlessExactlyWhen`). One traded minute is therefore harmless. A
  window in which only prints of unknown side traded is marked as if nothing had traded.
- A candle with a start no later than the last one written is skipped as already written. One
  first delivered that late never was, and never will be (`ALateBarNeverLands`, with a run in
  `AStartMayBeMissed`). That is the one way a delivered bar is lost
  (`ABarLandsExactlyWhenItIsInTime`).
- Trades are sorted by time with an unstable sort, so trades of one instant may come out
  either way. Only the sweep count can differ, and it cannot when prints of one instant are of
  one side (`Ties.TheSortChangesOnlySweeps`). The condition is tight: a group of one instant can
  be put in any order among any other trades exactly when it is of one side
  (`ATiedGroupIsOrderFreeExactlyWhenOneSided`). `ATieDecidesASweep` is an input.

## Model

| member | source | states |
|---|---|---|
| Tracking.Tracker.Track | internal/exec/statemachine.go:182-211 | registers an order once: refused and unchanged when already tracked, completed in place when its reports came first; every other order untouched |
| Tracking.Tracker.Complete | internal/exec/statemachine.go:217-238 | an adopted record takes the terms and times it lacked and keeps everything its reports told; an ended one is given its one round trip |
| Tracking.Tracker.Apply | internal/exec/statemachine.go:241-274 | one report moves exactly the order it is filed under, by the rule table, adopting an unknown one; it answers with that outcome and the order's status, or the status of the adoption it undid |
| Tracking.Tracker.Deliver | internal/exec/statemachine.go:241-274 | for every order at once, the record and its timings after a report are the step of that order alone |
| Tracking.Tracker.ApplyTo | internal/exec/statemachine.go:350-412 | a known order: a seen ExecID is a duplicate; an applied report is remembered and its acknowledgement or round trip observed once |
| Tracking.Tracker.Observe | internal/exec/statemachine.go:291-317 | a sweep flags each order newly past its deadline and sets the gauges to the number open and overdue |
| Tracking.Tracker.ObserveEach | internal/exec/statemachine.go:291-317 | the sweep visits every order once, in any order, with the same counts |
| Tracking.Tracker.ObserveOne | internal/exec/statemachine.go:291-317 | one visit counts a missed deadline at most once for the order |
| Tracking.Tracker.CountOpen | internal/exec/statemachine.go:320-328 | the open gauge is the number of orders not ended |
| TrackerSafety.EveryRunIsHealthy | internal/exec/statemachine.go:182-412 | over every run with CumQty >= 0: ended means nothing left, an adopted record is never PENDING, one timeout at most, exactly one round trip for an ended order whose submitter is known |
| TrackerSafety.OverdueMeansSubmittedHere | internal/exec/statemachine.go:103 | an overdue order was tracked by this process |
| TrackerSafety.FilledNeverFallsAndEndedNeverMoves | internal/exec/statemachine.go:450-554 | across any continuation of any run the filled quantity never falls and an ended order's report fields never change |
| TrackerSafety.FilledFallsExactlyOnANegativeAcknowledgement | internal/exec/statemachine.go:493-503 | a report lowers the fill exactly when it is a NEW with a negative CumQty reaching a pending order |
| TrackerSafety.ANegativeAcknowledgementLowersTheFill | internal/exec/statemachine.go:493-496 | a concrete run whose filled quantity falls |
| TrackerSafety.EarlierReportsAreAbsorbed | internal/exec/statemachine.go:350-367 | any report delivered earlier, applied or refused, with or without an ExecID, is without effect at the end of the run |
| TrackerSafety.AResendChangesNoOrder | internal/exec/statemachine.go:241-274 | redelivering any earlier report, at any later point, changes no order |
| TrackerSafety.ARedeliveryCanBeStruckOut | internal/exec/statemachine.go:241-274 | a run and the run without the redelivery end in the same records |
| TrackerSafety.RegistrationCommutes | internal/exec/statemachine.go:182-238 | Track and a report of the same order can be exchanged |
| TrackerSafety.RegistrationTimeDoesNotMatter | internal/exec/statemachine.go:182-238 | tracking an order before, between or after its reports gives the same record but for the timeout flag, and the same round trip |
| TrackerSafety.TrackerIsHealthy | internal/exec/statemachine.go:131-158 | every reachable Tracker object satisfies the invariant for every order |
| TrackerSafety.TrackerRefusesReplays | internal/exec/statemachine.go:350-367 | every reachable Tracker object absorbs every report in its history |
| Overfills.WhatAReportDoes | internal/exec/statemachine.go:350-554 | on every run a report moves its order exactly when it is the first NEW of a pending one, a PARTIAL that fills more, or a FILLED with nothing left, CANCELED or REJECTED that fills no less, and, but for the NEW, states no more than was ordered; then the order is as it states, adopted if unknown; and else nothing changes and the outcome says which refusal it was |
| Overfills.WhatARegistrationDoes | internal/exec/statemachine.go:182-238 | on every run registering an unknown order opens it pending with its deadline; an adopted one is given its quantity, submission and deadline and keeps what its reports said; one already registered is left as it is |
| Overfills.NoReportButAnAcknowledgementOverfills | internal/exec/statemachine.go:480-525 | on every run with arbitrary reports, one applied or adopted that is not a NEW leaves no more filled than a known quantity ordered |
| Overfills.AnOverfillIsInvalid | internal/exec/statemachine.go:484-519 | a PARTIAL, FILLED, CANCELED or REJECTED that states more than both the ordered and the reported quantity of an open order, with an unseen ExecID, is Invalid and changes nothing |
| Overfills.OverfilledExactlyWhen | internal/exec/statemachine.go:182-238 | an order becomes overfilled exactly at a NEW that says so of a pending order, or at a registration with less than its reports had filled |
| Overfills.TrackedFirstIsNeverOverfilled | internal/exec/statemachine.go:450-525 | an order registered before anything is heard of it, none of whose NEWs states more than was ordered, has CumQty at most that at every moment of every run |
| Overfills.AnOverfilledOrderIsStuck | internal/exec/statemachine.go:480-525 | an overfilled order that is registered and answered is moved by nothing reported of it from then on, its end included |
| Overfills.AnAcknowledgementMayOverfill | internal/exec/statemachine.go:493-503 | a concrete run: four ordered, seven shown filled, and open |
| Overfills.OverdueExactlyAfterTheTimeout | internal/exec/statemachine.go:96-103 | an order registered first and not yet answered is overdue at exactly the instants more than the timeout after its submission, and its missed deadline is counted, once, exactly when somebody looked at one |
| Overfills.TheFirstAnswerIsTimed | internal/exec/statemachine.go:381-412 | the report that first moves it observes the acknowledgement from submission to receipt, where stamped, and the round trip from submission to its own time if it ends the order; and the order is overdue no more |
| Overfills.TheGaugeCountsItExactlyThen | internal/exec/statemachine.go:291-317 | the orders a reachable Tracker counts overdue include it at exactly those instants |
| FillModel.CutSlices | internal/fix/fill.go:110-131 | the array filled in a loop is the specified slicing |
| FillModel.SlicesSumToTheOrder | internal/fix/fill.go:110-131 | slices are positive, sum to the order exactly, are as many as was asked for or as there are contracts, and alike but for the last, which takes what would not divide |
| FillModel.PrintsSlip | internal/fix/fill.go:79-95 | a price is the touch moved against the order by the slippage in hundredths of a percent, or the limit when that comes first |
| Duplicates.TakenExactlyWhenNewSupportedAndFresh | internal/fix/engine.go:376-490 | on any run that did not fail a submission is taken if every earlier one of its id was turned down, its terms are supported and the last snapshot read is at most bookMaxAge older than it, and is otherwise turned down with no order touched |
| EngineBook.EveryRunIsConsistent | internal/fix/engine.go:387-639 | after every run each accepted order has lived one entry, then fills that add up, then at most one end, and is on the book or off it accordingly |
| EngineResults.LiveAndFinishedPartitionTheAccepted | internal/fix/engine.go:160-183 | live and finished ids are disjoint and together are exactly the accepted ids |
| EngineResults.ALifeAddsUp | internal/fix/engine.go:529-569 | one NEW, at most one end which is last, CumQty at every report the sum of the fills, FILLED exactly when that is the ordered quantity |
| EngineResults.AnOrderIsConserved | internal/fix/engine.go:529-639 | a live order has printed exactly the slices before its next and has something left; a finished one has nothing left and a CumQty that is the sum of its fills |
| EngineResults.NotionalWithinLimit | internal/fix/engine.go:507-535 | however the book moved, notional never exceeds limit x CumQty for a buy, nor falls short of it for a sell |
| EngineResults.AveragePriceRespectsTheLimit | internal/fix/engine.go:144-149 | the rounded average price respects the rounded limit, and the limit itself when that has at most sixteen decimals |
| EngineResults.EveryAverageRespectsTheLimit | internal/fix/engine.go:144-149 | and so does the average of every report of an order that has filled something, not the last alone |
| EngineResults.EveryPrintIsTheSlippedTouchOrTheLimit | internal/fix/fill.go:63-95 | on every run, everything a tick prints is at the touch of the book it was priced on moved by exactly the slippage, or at the limit of its own order when that is nearer, and between the two |
| EngineMarket.TheMarketIsTheLastSnapshot | internal/fix/engine.go:337-378 | on every run the venue did not stop, the book it prices on is the last snapshot read on opening or at a tick a poll or more after the read before, and the next read is a poll after the last |
| EngineTicks.WhatATickDoes | internal/fix/engine.go:301-320 | on every run, a tick that records its fills leaves an order it does not walk or that is not yet ready untouched; any other prints exactly its next slice, at the slipped touch or its limit, if the last snapshot read is recent and at the limit or through it, and then is filled, withdrawn as the rest of an IOC, or ready again after a latency in [d/2, 3d/2); and else an IOC is withdrawn for the reason and any other waits for the next read |
| EngineTicks.NoUnrecordedFillIsSent | internal/fix/engine.go:548-569 | on every run, the first fill of a tick that the writer refuses stops the venue, is the last report published, and is not sent; every other fill published is of an order whose fills were taken |
| Requests.WhatASubmissionBecomes | internal/fix/engine.go:387-490 | on every run a submission gets one report: an acknowledgement, with the order on the book under its own terms, cut evenly and first ready after the latency, exactly when its id was never accepted, its terms are supported and the last snapshot is recent; and else a rejection that names the first thing wrong, with the book as it was |
| Requests.WhatACancelDoes | internal/fix/engine.go:572-601 | on every run a cancel of an order on the book takes it off, canceled, with what was filled of it, and touches nothing else; one of an order that has ended is answered too late with the status of its last report; one of an id never accepted is answered as unknown |
| EngineConditions.AveragesAreProtectedExactlyWhenTheLimitIs | internal/fix/engine.go:144-149 | for a positive limit, no run of any venue reports an average through it if and only if the limit rounds to its own good side |
| EngineResults.EveryRunIsStamped | internal/fix/engine.go:706-733 | every published report renders the number it was minted with, and no number repeats |
| EngineResults.ExecutionIdsNeverRepeat | internal/fix/engine.go:706-733 | the ExecID strings of one run are distinct, and runs with different start instants share none |
| Ids.ExecIdInjective | internal/fix/engine.go:706-733 | a rendered ExecID determines the run and the report it names |
| Ids.FormatIntInjective | internal/fix/engine.go:712-714 | two run instants that render alike in base 36 are the same instant |
| EngineProgress.EvaluatedAsIfAlone | internal/fix/engine.go:301-320 | within one tick each order is evaluated as it would be alone, against the market the tick began with |
| EngineProgress.ATickLeavesNothingDue | internal/fix/engine.go:287-320 | after a tick that recorded its fills no order walked is due at that instant, and no evaluated IOC is resting |
| EngineProgress.AWholeTickRests | internal/fix/engine.go:287-320 | after a tick that walked every live order and recorded its fills, neither the market nor any live order is due at that instant |
| EngineConditions.LatencyPreventsSpinExactlyFromTwo | internal/fix/engine.go:287-320 | over every reachable venue that rereads its market, every fair tick that succeeds leaves each order it walked due later than itself if and only if the latency is at least 2 ns |
| EngineConditions.TooLittleLatencySpins | internal/fix/fill.go:143-148 | below 2 ns, a two-slice order after one tick is live and due at that tick's own instant |
| EngineProgress.AMarketableOrderEndsInExactlyItsSlices | internal/fix/engine.go:496-545 | a GTC order marketable at every evaluation prints one slice at each and is FILLED at exactly the evaluation that prints its last |
| EngineLoop.Engine.constructor | internal/fix/engine.go:185-226 | an engine opens with an empty book and one market read |
| EngineLoop.Engine.Publish | internal/fix/engine.go:658-685 | a fill is handed to the writer before the wire; one the writer refuses stops the engine |
| EngineLoop.Engine.MintOrder | internal/fix/engine.go:716-719 | a fresh order number, rendered |
| EngineLoop.Engine.MintExec | internal/fix/engine.go:723-726 | a fresh report number, rendered |
| EngineLoop.Engine.Accept | internal/fix/engine.go:387-439 | a submission takes the whole state through its step: refused with its reason, or entered |
| EngineLoop.Engine.Refuse | internal/fix/engine.go:387-404 | a refusal publishes one REJECTED report and touches no order |
| EngineLoop.Engine.Enter | internal/fix/engine.go:406-439 | an accepted order is sliced, timed and acknowledged once |
| EngineLoop.Engine.PrintSlice | internal/fix/engine.go:529-569 | one slice moves quantity, notional and sequence together, and a done order leaves the book |
| EngineLoop.Engine.Finish | internal/fix/engine.go:603-639 | a cancel takes the order off the book and reports what it had filled |
| EngineLoop.Engine.Evaluate | internal/fix/engine.go:496-527 | one evaluation is exactly the specified one |
| EngineLoop.Engine.ReadBook | internal/fix/engine.go:337-366 | a failed read keeps the last book and still defers the next read |
| EngineLoop.Engine.Tick | internal/fix/engine.go:301-320 | a tick walks every live order once, in id order, and stops at the first fill that cannot be recorded; one that succeeds with at least 2 ns of latency leaves the engine with nothing due |
| EngineLoop.Engine.WalkLive | internal/fix/engine.go:301-335 | the live orders are enumerated in id order and evaluated in turn |
| EngineLoop.Engine.EvaluateDue | internal/fix/engine.go:301-320 | the loop over the live orders is the fold of evaluations |
| EngineLoop.Engine.CancelRequested | internal/fix/engine.go:572-597 | a cancel of a live order finishes it; of a finished or unknown one is answered with its state |
| EngineLoop.Engine.UntilNextWake | internal/fix/engine.go:287-299 | the wait ends at the earliest ready order and never beyond the next book read, and is positive exactly when nothing is due |
| Ordering.EnumerationIsUnique | internal/fix/engine.go:322-335 | there is only one id order to walk a set of orders in |
| Delivery.TheTrackerShowsTheFurthestReport | internal/exec/statemachine.go:450-554 | whatever has arrived, in whatever order and number, the tracker shows the furthest report among it |
| Delivery.NoReportIsInvalid | internal/exec/statemachine.go:505-524 | no report of an order whose reports climb is ever judged invalid |
| Delivery.ArrivalsAreARun | internal/exec/statemachine.go:241-274 | a delivery is a run of the tracker's own events |
| Convergence.ALifeIsALadder | internal/fix/initiator_message.go:221-240 | an accepted order's reports, read by the client, are filed under it and climb by CumQty |
| Convergence.AnIdSubmittedOnceIsSettled | internal/fix/initiator.go:252-258 | for an id submitted once, either it was accepted and nothing filed under it is a refusal, or nothing but its refusal is |
| Convergence.WhatWasSentIsALadder | internal/fix/initiator_message.go:221-305 | what reached the wire about an order is such a ladder on every run, even one the writer stopped |
| Convergence.TheTrackerConverges | internal/exec/statemachine.go:448-554 | any delivery that includes the last report of an ended order leaves the tracker with the venue's final state, CumQty, AvgPx, venue id and reason, and nothing left |
| Convergence.NothingTheVenueSendsIsInvalid | internal/exec/statemachine.go:505-524 | and no report on the way is judged invalid |
| Duplicates.EverySubmissionIsAnswered | internal/fix/engine.go:387-439 | on a run that did not fail, an id was submitted exactly as often as it was turned down, and once more if it was accepted |
| Duplicates.ConvergesExactlyWhenSubmittedOnce | internal/fix/engine.go:387-404 | for an order accepted and ended on a run that did not fail, every delivery of everything sent leaves the client where the venue ended if and only if its id was submitted once |
| Duplicates.ADuplicateIsTakenForAnEnd | internal/fix/engine.go:387-404 | a run of two submissions of one id, delivered once and in order, that the venue fills and the client believes refused |
| Duplicates.ADuplicateIdMisleadsTheTracker | internal/exec/statemachine.go:480-488 | one step of it: the refusal of a duplicate ends an open record as REJECTED when nothing of it has filled, and is judged invalid otherwise |
| Database.KeysAreIndependent | internal/db/rows.go:22-27 | what a key holds after any rows depends on the rows of that key alone |
| Database.MergedColumn | internal/db/rows.go:651-668 | a merged key holds the newest value that is not NULL in a coalesced column, and the newest row's own elsewhere |
| Database.RegroupingIsInvisible | internal/db/writer.go:261-296 | batches that send each key the same rows in the same order leave the same database |
| Database.WhatAKeyHolds | internal/db/rows.go:410-660 | after any batch a key is left with the last row sent if it is a product, the last known value in the two optional columns and the last row elsewhere if it is a FIX session, and what it held or the first row sent in every other table |
| Database.ReplayAtOneKey | internal/db/rows.go:139 | sending a key the same rows again changes nothing under each of the three clauses |
| Database.ReplayIsANoOp | internal/db/writer.go:338-351 | a batch that has landed lands again as a no-op, whatever tables it spans |
| Database.AnyNumberOfSendsIsOne | internal/db/writer.go:338-382 | any number of sends of a regrouped batch is one application of the rows as they came |
| Database.OrderWithinAKeyMatters | internal/db/rows.go:423-432 | two rows of one overwriting key in the other order leave another row |
| Writing.AGroupedBatchIsTheRows | internal/db/writer.go:261-296 | grouping by statement sends each key the rows that came for it, in order |
| Writing.SendIsAllOrNothing | internal/db/writer.go:352-421 | however the attempts go, the batch is in the database whole and once or not at all, and is in it if any was acknowledged |
| Writing.EveryRunIsOrdered | internal/db/writer.go:142-336 | at every moment accepted rows are flushed, then pending, then queued, in acceptance order, and the database holds exactly the flushed ones |
| Writing.ExactlyOnce | internal/db/writer.go:142-256 | a run that ends without error has applied every accepted row once in order, but for exactly the rows taken after it had ended |
| Writing.ExactlyOnceWhenProducersStopFirst | internal/db/writer.go:183-256 | with no send in flight at the stop, the database is every accepted row applied once in acceptance order |
| Writing.AFatalRunLeavesAPrefix | internal/db/writer.go:279-421 | a fatal run has written a prefix of the accepted rows, the batch it gave up on whole or not at all |
| Writing.ALateRowIsLost | internal/db/writer.go:142-162 | a run in which a row reported as taken is in no database |
| WriterProgress.SentExactlyWhen | internal/db/writer.go:352-385 | a batch is given up on exactly when no attempt within the limit is reached, after failures worth retrying, and acknowledged |
| WriterProgress.WhatATickWrites | internal/db/writer.go:200-203 | on every run not ended, a tick leaves nothing pending and every accepted row not still queued in the database once and in order, or, exactly when something was pending and the attempts run out, ends the writer |
| WriterProgress.WhatAReceivedRowWrites | internal/db/writer.go:193-199 | on every run not ended, the row at the head of the queue waits with the pending ones until they make a batch, and then all are written or the writer ends |
| WriterProgress.LessThanABatchIsPending | internal/db/writer.go:193-199 | a writer that has not ended has fewer than batchSize rows pending |
| WriterProgress.WhatASubmissionDoes | internal/db/writer.go:142-163 | on every run a row is queued and accepted exactly when there is room and the producer did not find the writer stopped |
| WriterProgress.NothingIsTakenOnceClosed | internal/db/writer.go:215-219 | once closed, no producer that looks first is told its row was taken, whatever else happens |
| WriterProgress.TheQueueNeverOverflows | internal/db/writer.go:142-163 | the queue never holds more than queueSize rows |
| WriterProgress.EverythingIsWrittenInTheEnd | internal/db/writer.go:183-213 | from any run not ended, once the queue has been received and a tick has come, with a database that answers, every row ever accepted is written once and in order |
| WriterLoop.Server.SendBatch | internal/db/writer.go:387-421 | one attempt lands the whole batch or nothing, and only an acknowledgement says which |
| WriterLoop.Writer.constructor | internal/db/writer.go:125-137 | a new writer has accepted nothing |
| WriterLoop.Writer.Submit | internal/db/writer.go:142-162 | a row is queued exactly when the writer has not stopped and there is room |
| WriterLoop.Writer.SubmitLate | internal/db/writer.go:153-161 | a producer past the first check may still queue a row after stop |
| WriterLoop.Writer.Close | internal/db/writer.go:215-219 | stop is closed and nothing else moves |
| WriterLoop.Writer.Enqueue | internal/db/writer.go:261-273 | a row is filed last under its table, a new table last in the order |
| WriterLoop.Writer.Queue | internal/db/writer.go:284-296 | the batch is every filed row, table by table |
| WriterLoop.Writer.Send | internal/db/writer.go:352-382 | at most MaxAttempts attempts, stopping at an acknowledgement or at an error a retry cannot clear |
| WriterLoop.Writer.Clear | internal/db/writer.go:329-333 | every table keeps its entry and loses its rows |
| WriterLoop.Writer.Flush | internal/db/writer.go:279-336 | a flush sends everything pending and clears it, or ends the writer with an error |
| WriterLoop.Writer.Receive | internal/db/writer.go:193-199 | a row taken from the queue is filed, and a full batch flushed |
| WriterLoop.Writer.Tick | internal/db/writer.go:200-203 | a tick flushes what is pending |
| WriterLoop.Writer.Drain | internal/db/writer.go:241-249 | every queued row is filed in order |
| WriterLoop.Writer.Shutdown | internal/db/writer.go:225-256 | stop, drain and one last flush, after which the writer has ended |
| WriterLoop.Writer.FlushTheRest | internal/db/writer.go:241-256 | everything queued is filed and sent in one last flush |
| WriterLoop.Writer.ClosedMeansWritten | internal/db/writer.go:212-219 | a Writer object that ended without error, with no late producer, has every accepted row in the database once |
| Decimals.Round16 | internal/ingest/funding.go:52-68 | the nearest sixteen-place decimal, never more than half a unit away |
| FundingRate.RateForHour | internal/ingest/funding.go:140-184 | the hour's samples, their mean premium and the smoothed rate, or the first reason there is none |
| FundingRate.SortHours | internal/ingest/funding.go:202 | the hours in place, ascending, none lost or added |
| FundingRate.ComputeSeries | internal/ingest/funding.go:201-222 | the series over the sorted hours: rates in order, gaps reported and not smoothed across |
| FundingRate.SeriesIsTheRecursion | internal/ingest/funding.go:201-222 | every rate is where the rounded recursion over the marked hours' premiums stands |
| FundingRate.RoundingNeverAccumulates | internal/ingest/funding.go:52-68 | after any number of hours the rounded rate is within 2/3 of a unit of the unrounded recursion, beyond the error of the premiums |
| FundingRate.ExactForgets | internal/ingest/funding.go:52-68 | the unrounded recursion keeps exactly a quarter of a seed's difference an hour |
| FundingRate.SeedsAreForgotten | internal/ingest/funding.go:52-68 | runs from two seeds differ after n hours by at most the difference/4^n + 4/3 of a unit |
| FundingRate.StartingColdIsASeed | internal/ingest/funding.go:133-139 | a series with no previous rate is one seeded with its own first premium |
| FundingRate.MarkedExactlyWhenMarkable | internal/ingest/funding.go:140-168 | an hour is marked if and only if it has thirteen samples and none without a spot mark, and its premium is within 49/48 of a unit of the exact mean |
| FundingRate.TheSeriesFollowsTheFormula | internal/ingest/funding.go:15-27 | every rate of every series, over any gaps, is within 27/16 of a unit of the venue's formula evaluated exactly |
| FundingRate.RatesKeepSixteenPlaces | internal/ingest/funding.go:52-68 | no rate has more than sixteen decimals |
| FundingRows.RowsAreTheComputableHours | internal/ingest/funding.go:140-222 | the rows of a series are stamped, in order, with exactly its hours of thirteen marks or more, all with a spot mark; each premium is within 49/48 of a unit of its own hour's exact mean, each rate within half a unit of three quarters of it and a quarter of the rate before, each count that hour's and each annualized rate 8760 times its rate; every other hour is skipped for its own reason |
| FundingRows.AnHoursMarks | internal/ingest/funding.go:144-150 | an hour holds exactly the marks after its start and up to its end, each as often as it was sampled; so each mark is of the one hour it closes in |
| FundingRows.LiveRowsAscend | internal/ingest/fundingrunner.go:139-186 | whatever hours a runner is asked for, in whatever order, and whichever rows the sink refused, its rows are of open whole hours asked for, each later than the one before and than where it started |
| FundingRows.LiveRowsAreTheComputableHours | internal/ingest/fundingrunner.go:139-186 | a timely live run's rows are the computable ones of the hours it took up, each as the whole history has it |
| FundingRows.ASeededRunRefinesBatch | internal/ingest/fundingrunner.go:82-88 | a timely run that begins with a seed emits the batch series from that rate, of hours after the seeded one alone, the first row smoothed against it |
| FundingRows.ARefusedRowCanBeStruckOut | internal/ingest/fundingrunner.go:176-186 | a row the sink refused leaves the run as if its hour had never been tried |
| FundingRows.AFreshRunnerStartsWithTheNewest | internal/ingest/fundingrunner.go:123-131 | with nothing recorded a tick computes the newest hour and no other |
| LiveFunding.TheWindowHoldsTheHour | internal/ingest/fundingrunner.go:64-76 | the trimmed window holds all of an hour's marks, in order, until a mark more than an hour past its end |
| LiveFunding.LiveRefinesBatch | internal/ingest/fundingrunner.go:139-186 | the live rates are the batch series over the whole history from the same seed, maintenance hours left out |
| LiveFunding.HoursAscend | internal/ingest/fundingrunner.go:139-149 | hours taken up strictly ascend whatever Emit is called with, so no hour has two rates |
| LiveFunding.MarksInOrderAreIn | internal/ingest/fundingrunner.go:64-76 | marks arriving in ascending time are all in once one stamped the hour's end is |
| LiveFunding.AnHourAgreesExactlyWhenItsMarksAreIn | internal/ingest/fundingrunner.go:139-184 | an hour's whole live outcome, the logged count of its marks included, is the batch's if and only if none of its marks is still to come |
| LateMarks.MissingMarksPullTheRate | internal/ingest/funding.go:140-184 | the rate of an hour computed without some of its marks is off by the distance of their mean premium from the others', by their share of the hour and three quarters if there is a previous rate, to within 7/4 of a unit |
| LateMarks.AnHourComputedEarlyIsOffByThePull | internal/ingest/fundingrunner.go:139-186 | so on every run, for every hour computed before any mark more than an hour past its end |
| LateMarks.AFlatHourIsStoredTheSame | internal/ingest/funding.go:140-184 | an hour all of whose marks have one premium is stored at the same rate however many of them are missing |
| LateMarks.ALateMarkIsNotInTheStoredRate | internal/ingest/fundingrunner.go:139-186 | a run whose hour is computed before its last mark and stored at 0, where the batch's rate is positive |
| LiveFunding.ATickMissesNoHour | internal/ingest/fundingrunner.go:99-135 | a tick takes up, in order and once each, exactly the hours not yet taken up within the retention |
| LiveFunding.OlderHoursAreGone | internal/ingest/fundingrunner.go:117-135 | once a mark is more than three hours past an hour's start, none of that hour's is left |
| LateMarks.TheWindowIsTheRetention | internal/ingest/fundingrunner.go:64-76 | when marks never go back in time the window is exactly those no older than the retention before the last |
| LateMarks.AnHourIsMarkableExactlyWhile | internal/ingest/fundingrunner.go:117-135 | an hour of any age can still be marked if and only if thirteen of its marks are no older than the retention before the last mark and every one of those has a spot mark |
| LateMarks.ASilentFeedLosesAnHour | internal/ingest/fundingrunner.go:117-135 | a run whose feed goes silent: three hours on, the tick passes over an hour it could have marked, for good |
| LiveFunding.FundingRunner.constructor | internal/ingest/fundingrunner.go:47-61 | a new runner has no samples, no rate and no hour |
| LiveFunding.FundingRunner.Seed | internal/ingest/fundingrunner.go:82-87 | the last known rate and its hour are set, nothing else |
| LiveFunding.FundingRunner.Observe | internal/ingest/fundingrunner.go:64-76 | the sample is appended and every one older than two hours before it dropped |
| LiveFunding.FundingRunner.Trim | internal/ingest/fundingrunner.go:64-76 | the compaction keeps exactly the samples from the cutoff on, in order |
| LiveFunding.FundingRunner.Emit | internal/ingest/fundingrunner.go:139-186 | one hour: ignored if taken up, passed over if closed or unmarkable, recorded and smoothed forward otherwise, left for later if the row is refused; it fails only when the row was refused |
| LiveFunding.FundingRunner.FirstToCompute | internal/ingest/fundingrunner.go:123-135 | the oldest hour still to compute |
| LiveFunding.FundingRunner.EmitThrough | internal/ingest/fundingrunner.go:105-113 | the hours from one to the newest in order, stopping short only at a row that was refused |
| LiveFunding.FundingRunner.Tick | internal/ingest/fundingrunner.go:105-113 | the catch-up loop emits the hours of the tick in order, all of them unless a row is refused |
| Aggregates.CountSweeps | internal/ingest/trades.go:390-410 | the run-length loop counts the maximal bursts of two or more prints of one known side within the sweep window |
| Aggregates.NextPrint | internal/ingest/trades.go:390-410 | a print starts a burst, makes one of the print before it, or lengthens it, and only the second adds a sweep |
| Aggregates.Aggregate | internal/ingest/trades.go:327-372 | a bucket's row is that of its trades in time order, or of a silent minute |
| Aggregates.Add | internal/ingest/trades.go:347-363 | one pass gives all five sums |
| Aggregates.OrderChangesNoSum | internal/ingest/trades.go:345-363 | no sum depends on the order of the trades |
| Ties.TheSortChangesOnlySweeps | internal/ingest/trades.go:345 | under any two sorts by time a bucket's rows differ at most in the sweep count, and not at all when prints of one instant are of one side |
| Ties.ATiedGroupIsOrderFreeExactlyWhenOneSided | internal/ingest/trades.go:390-410 | a group of prints of one instant can be left in any order, among any other trades, without changing a sweep count if and only if they are of one side |
| Ties.ATieDecidesASweep | internal/ingest/trades.go:345 | three trades of one instant that count as a sweep in one order by time and as none in another |
| Aggregates.ARowSumsItsTrades | internal/ingest/trades.go:327-372 | a row adds up exactly the trades its bucket held, each once, however they were sorted |
| Aggregates.WhatTheSumsAre | internal/ingest/trades.go:347-366 | buys and sells are the whole volume exactly when every side is known; the largest print is one of them and none is larger |
| Aggregates.ThePriceIsAmongThePrints | internal/ingest/trades.go:367-369 | a bucket's price lies between its lowest and highest print |
| Bucketing.EndsAscend | internal/ingest/trades.go:284-325 | under a clock that never goes back, bucket ends strictly increase over the whole run, across reconnects |
| Bucketing.ContiguousBetweenReconnects | internal/ingest/trades.go:314-325 | between reconnects every bucket is written from where the product stood, silent ones too |
| Bucketing.ATickLeavesNothingElapsed | internal/ingest/trades.go:298-312 | after a tick whose rows were taken no elapsed bucket is unwritten |
| Bucketing.NothingBegunIsWrittenAfterAReconnect | internal/ingest/trades.go:140-164 | no bucket whose window had begun at a reconnect is written after it |
| Bucketing.AReconnectReportsItsHole | internal/ingest/trades.go:284-297 | the tick after a reconnect reports exactly the span from where the rows had reached to where they begin again, and reports it once |
| Bucketing.EachIdOnce | internal/ingest/trades.go:249-255 | each id delivered is kept once, as it was first delivered |
| Bucketing.OpenBucketsHoldFirsts | internal/ingest/trades.go:221-257 | an open bucket holds each id's first delivery for its window since admission |
| Bucketing.ARowIsWhatWasDelivered | internal/ingest/trades.go:314-325 | a row is the aggregate of each id's first delivery for its window, after admission and before the tick that closed it |
| Bucketing.AdmissionStartsClean | internal/ingest/trades.go:289-297 | a product is admitted with nothing open, at the next whole bucket |
| Bucketing.ProductTrades.constructor | internal/ingest/trades.go:119-132 | a new product is not admitted |
| Bucketing.ProductTrades.AdmitTrade | internal/ingest/trades.go:235-257 | a trade before the oldest open bucket is dropped, any other filed under its own |
| Bucketing.ProductTrades.FileUnder | internal/ingest/trades.go:244-256 | a trade joins its bucket unless its id is there |
| Bucketing.ProductTrades.CloseNext | internal/ingest/trades.go:314-325 | the oldest bucket is removed, written and passed |
| Bucketing.ProductTrades.Tick | internal/ingest/trades.go:284-306 | a tick admits a product and reports what a reconnect cost, or closes every elapsed bucket until a row is refused |
| Bucketing.ProductTrades.CloseUpTo | internal/ingest/trades.go:298-312 | the closing loop is the specified one |
| Bucketing.ProductTrades.Reset | internal/ingest/trades.go:148-164 | a reset drops every open bucket and remembers where aggregation had reached |
| Bucketing.NothingLateIsHeld | internal/ingest/trades.go:221-262 | over every run each bucket held starts on the grid and is still to be written, and nothing is held before admission: a trade too late for its bucket leaves no trace |
| MarkSampling.ComputeVwap | internal/ingest/marks.go:211-226 | the weighted price of the buckets that end in the window, or none |
| MarkSampling.ComputeMidTwap | internal/ingest/marks.go:230-242 | the mean of the mids quoted in the window, or none |
| MarkSampling.BucketedPriceIsClose | internal/ingest/marks.go:211-226 | with every side known the mark is within a unit of the sixteenth place of the exact price of every trade in the window, and there is one exactly when something traded |
| MarkSampling.AMarkLeavesOutTheUnknown | internal/ingest/marks.go:99-106 | whatever the sides, the mark is that close to the price with the prints of unknown side taken out at their own minute's price |
| MarkSampling.PricedExactlyWhenAKnownSideTraded | internal/ingest/marks.go:211-226 | a window is priced if and only if something of known side traded |
| UnknownSides.TheUnknownIsHarmlessExactlyWhen | internal/ingest/marks.go:99-106 | for given sizes and sides the mark is within a unit of the price of every trade in the window, whatever positive prices they print at, if and only if every minute traded in the window has the same share of known side |
| UnknownSides.EqualSharesAreHarmless | internal/ingest/marks.go:99-106 | and with equal shares it is so at prices of any sign |
| MarkSampling.AnUnknownPrintMovesTheMark | internal/ingest/marks.go:99-106 | three trades whose mark is 150 and whose average is 500/3 |
| MarkSampling.TrimmingLosesNothing | internal/ingest/marks.go:121-126 | the last eleven one-minute buckets price a window as all of them would |
| MarkSampling.AMarkWeighsEveryRow | internal/ingest/marks.go:99-106 | on every run a product's mark is the one all of its rows give, when they came a minute or more apart and none is eight minutes past the window |
| MarkedTrades.EveryRowIsItsMinute | internal/ingest/trades.go:314-325 | every row of every run, across any reconnects, is of each id's first delivery for its minute since the product was last admitted and before the tick that closed it |
| MarkedTrades.RowsAreSpaced | internal/ingest/trades.go:284-325 | the rows of a run of one-minute buckets are a minute or more apart |
| MarkedTrades.MarksAreToldTheRows | internal/ingest/trades.go:314-325 | however trades, ticks, reconnects, quotes and samples interleave, the marks are told exactly a product's rows, in order |
| MarkedTrades.AMarkIsThePriceOfWhatWasDelivered | internal/ingest/marks.go:12-28 | from trades to mark: a product's price over a window is within a unit of the exact price of each id's first delivery for its minutes, and there is one if and only if such a trade was delivered |
| MarkedTrades.TheWholeWindowIsThere | internal/ingest/marks.go:62-73 | a product admitted before a window began, with no reconnect since and a tick the grace after its end, has a row for every minute of the window |
| MarkSampling.SamplesAscend | internal/ingest/marks.go:148-170 | samples strictly ascend, at most one a boundary, whatever clock drives them |
| MarkSampling.ASampleIsMarkedOrCarried | internal/ingest/marks.go:174-194 | on every run a window in which one product has no mark is sampled if and only if one was sampled before it, with the two as far apart as at the last sample |
| MarkSampling.Marks.constructor | internal/ingest/marks.go:80-94 | a new sampler knows no bucket, mid, gap or boundary |
| MarkSampling.Marks.ObserveBucket | internal/ingest/marks.go:99-106 | a row is appended as its price over its known volume, and the oldest trimmed |
| MarkSampling.Marks.ObserveQuote | internal/ingest/marks.go:110-119 | a mid is appended and the oldest trimmed; a one-sided quote is ignored |
| MarkSampling.Marks.MarkOne | internal/ingest/marks.go:198-206 | a product's mark: what traded, or else what was quoted |
| MarkSampling.Marks.MarkPair | internal/ingest/marks.go:174-194 | both marks, the missing one carried, and the gap they leave |
| MarkSampling.Marks.TakeSample | internal/ingest/marks.go:148-170 | a boundary already sampled is ignored; a new one emits its pair if both are known |
| SampledPrices.WhatASampleIs | internal/ingest/marks.go:148-210 | over every interleaving, the first sample of a window adds one stamped with its end whose futures price and spot price are each, whatever was quoted, within a unit of the price of each id's first delivery of known side there, and only when there was none within half a unit of the mean of the kept mids stamped in [start, end); a side with neither stands as far from the other as the two last did; and with neither, or nothing to carry, no sample is added |
| SampledPrices.EverySideKnown | internal/ingest/marks.go:211-228 | with every side known, that price is the exact price of everything that traded there |
| SampledPrices.NoQuoteIsLost | internal/ingest/marks.go:110-126 | when the newest sixty-four reach back to the window's start, the mean is of every mid quoted in it |
| ClosedCandles.EveryRunIsSound | internal/ingest/candles.go:177-230 | what waits is later than everything written, the newest start is among it, and each waiting bar is the newest version delivered |
| ClosedCandles.BarsAscend | internal/ingest/candles.go:215-230 | bars are written in strictly ascending start, each at most once, whatever is replayed or refused |
| ClosedCandles.ABarIsItsLastVersion | internal/ingest/candles.go:186-198 | a bar is written as the newest version delivered by then |
| ClosedCandles.NoBarIsLostUnlessLate | internal/ingest/candles.go:186-198 | a bar delivered before anything later was written is written or waits, whatever comes after |
| ClosedCandles.ALateBarNeverLands | internal/ingest/candles.go:188-192 | a bar first delivered after a later one was written is dropped for good |
| ClosedCandles.ABarLandsExactlyWhenItIsInTime | internal/ingest/candles.go:186-198 | whatever comes after, a bar delivered is written or waits if and only if nothing later had been written by then, or it was itself written or waiting already |
| ClosedCandles.AStartMayBeMissed | internal/ingest/candles.go:188-192 | such a run: after one message with two bars, any start before the first is never written, whatever comes after |
| ClosedCandles.WhatIsLeftWaiting | internal/ingest/candles.go:215-230 | a persist stops only at a refused bar, which waits with everything after it |
| ClosedCandles.OnlyTheNewestWaits | internal/ingest/candles.go:215-230 | after a message whose bars were all taken only the newest start waits |
| ClosedCandles.JumpsAreReportedExactly | internal/ingest/candles.go:215-230 | with every bar taken, the jumps reported are exactly the bars written after the first message that do not follow on from the one before |
| ClosedCandles.WhatAMessageReports | internal/ingest/candles.go:215-230 | whatever the sink takes, a message reports exactly the jumps among the bars it writes, counted from the last before them, and then that of the bar refused, and nothing until a first message has been written out |
| ClosedCandles.ProductCandles.constructor | internal/ingest/candles.go:71-77 | a new product has nothing waiting |
| ClosedCandles.ProductCandles.PersistAll | internal/ingest/candles.go:177-181 | one message is recorded and what it closed written |
| ClosedCandles.ProductCandles.RecordAll | internal/ingest/candles.go:186-198 | the loop over a message records each candle not yet written past |
| ClosedCandles.ProductCandles.Closed | internal/ingest/candles.go:201-209 | exactly the waiting starts before the newest, oldest first |
| ClosedCandles.ProductCandles.WriteOne | internal/ingest/candles.go:217-227 | a jump is reported, and the bar written and passed if it is taken |
| ClosedCandles.ProductCandles.WriteDue | internal/ingest/candles.go:215-230 | the writing loop takes the least closed bar each time until one is refused |
| Backfilling.MissingRanges | internal/ingest/backfill.go:210-233 | spans in order, a present minute or more apart, that hold exactly the absent minutes |
| Backfilling.EveryScanIsExact | internal/ingest/backfill.go:210-233 | after every minute of the scan the spans found hold exactly the absent minutes before it |
| Backfilling.TheGapsAreUnique | internal/ingest/backfill.go:208-233 | no other spans are in order, apart and exact |
| Backfilling.NothingToDownloadExactlyWhenComplete | internal/ingest/backfill.go:154-160 | there are no gaps if and only if no minute is absent |
| Backfilling.Bars | internal/ingest/backfill.go:241-263 | the paging loop collects exactly what the pages of the span that loaded hold, later pages over earlier, and gives nothing once a page is interrupted |
| Backfilling.WhatADownloadHolds | internal/ingest/backfill.go:241-263 | a download comes to nothing exactly when the caller had gone by some page; else it holds, at each start a loaded page gave a candle for and no other, the last one collected |
| Backfilling.ThePagesTile | internal/ingest/backfill.go:243-249 | pages of at most 350 minutes that meet end to start and run from the span's end back to its start |
| Backfilling.EachInstantIsOnOnePage | internal/ingest/backfill.go:241-263 | every instant of the span is on exactly one page |
| Backfilling.HoursToCompute | internal/ingest/backfill.go:306-329 | exactly the hours of the window neither closed nor recorded, ascending, once each, and how many hours are recorded |
| ResumedSeries.SeriesContinues | internal/ingest/funding.go:201-222 | a series over two stretches of hours is one over the first, and one over the second from where it stopped |
| ResumedSeries.AStretchMeetsItself | internal/ingest/funding.go:201-222 | the same hours after any two histories, seeded or cold: the same premiums, and after n hours rates within a quarter to the n of how far apart they started and 4/3 of a unit |
| ResumedSeries.AResumedBackfillMeetsTheWhole | internal/ingest/backfill.go:285 | a backfill resumed cold after n hours is within a quarter to the n of how far its first premium stands from the last rate recorded, and 4/3 of a unit, of the uninterrupted series |

## Left out

- FIX sessions, sockets, sequence numbers, message encoding and field validation: delivery is an arbitrary sequence of the venue's reports instead.
- PostgreSQL itself, migrations, foreign keys, generated ids and CHECK constraints: a batch is atomic, a conflict is on the natural key, and NULL key columns compare equal.
- HTTP, WebSocket and JSON decoding, and the errors of malformed numbers, sides and times: trades, candles and marks arrive parsed.
- Metrics and logs, but for the counts the tracker's overdue and round-trip properties name.
- Timers, goroutine scheduling, mutexes and context cancellation: each component is a sequence of its own turns. A flush's own timeout is its attempts running out.
- The clock's time zone: the maintenance window is an arbitrary predicate on hours.
- The random source of latency jitter: any draw in range.
- 32- and 64-bit clamping and overflow of counts: counts are unbounded.
- `tracked` and live-order records are values in a map that the methods reassign, not shared records; nothing in the source aliases them.
- Handlers over several products: `ProductTrades` and `ProductCandles` are one product each; the source walks its products one after another and shares nothing between them but the sink.
- A row's destination is its table, not its table and column list: each row type has one column list.
- Regressions of trade time between messages, and the wording of the reports of jumps and holes.
- Columns no property reads: fees and labels of fills, LastQty and LastPx on the client's side of a report.
- `Backfill.Run` and its stored reads: only the gap finder, the pager and the list of hours.
- The level2 book (a map of price levels, of which the top ten are written every few seconds), tickers (decoded quotes) and the venue state sampler (the latest of each observation in one row a boundary).
- Base RPC, wallet polling and backoff: calls to a chain and the delays between retries.
- Configuration, the probe CLI and research/onramp: environment parsing, one-off queries and a smaller copy of the writer.
- WriterLoop.Writer.Submit: answers at once when the queue is full, where the source waits for room, for the stop or for its context; a caller that waits is one that submits again.
- MarkedTrades.AMarkIsThePriceOfWhatWasDelivered: asks for one-minute buckets, as `ingest` sets them, positive sizes and known sides; UnknownSides and MarkSampling.AMarkLeavesOutTheUnknown say what unknown sides do.
- EngineConditions.AveragesAreProtectedExactlyWhenTheLimitIs: asks for a positive limit; the venue refuses any other.
- Writing.ExactlyOnceWhenProducersStopFirst: asks that no send is in flight when the writer stops, as cmd/ingest arranges; Writing.ExactlyOnce has no such hypothesis.
- Convergence.TheTrackerConverges: asks that the id was submitted once and that the last report was delivered at least once; a report that never arrives is outside what the client can know.

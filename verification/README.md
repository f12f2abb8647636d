# Bookkeeping of the cTrader plugin, modelled and proved

The cTrader plugin keeps three views of one position consistent: the venue's, the bot's journal and
the strategy engine's.  Messages between them get lost, come late, twice or out of order, and other
parties trade the same position.  This project models the code that holds the views together and
proves what it keeps.

| file | what it models |
|---|---|
| `Exposure.dfy` | the bot's share of a position in the journal, retired oldest first, restored newest first |
| `ShareReplay.dfy` | the deal-history replay that charges closes to the share, and filled-then-closed recovery |
| `CloseClaims.dfy` | provisional claims of an own close in flight and their settlement with a running credit |
| `OwnCloses.dfy` | what of an answered close may have executed unseen |
| `AmbiguousClaims.dfy` | weighing the claims of closes whose answer was lost |
| `LostCloses.dfy` | several such closes of one position, with what executes unseen meanwhile |
| `ShareBounds.dfy` | bounds of the share as of one deal |
| `HeldCloses.dfy` | close verdicts that wait for the answers of own entries |
| `DealWalk.dfy` | the resumable backward walk over deal history |
| `FillBooking.dfy`, `FillPrice.dfy` | the shared fill cursor of one entry, and the price of a recovered slice |
| `TrendbarDrain.dfy`, `Download.dfy`, `AskBars.dfy` | bar paging, the download and ask bars from ticks |
| `LiveBars.dfy` | the live bar stream with reconnect backfill and gap repair |
| `TokenRotation.dfy` | OAuth token rotation across processes, and re-authorization by generation |
| `ReportQueue.dfy` | the journalled queue of manual-close reports that blocks venue writes |
| `Common.dfy`, `Sorting.dfy` | shared vocabulary |

Volumes are integer cents, where the source's tolerances are exact comparisons; prices are reals.
The venue appears as an honest but otherwise arbitrary server, a ledger that grows, or a ghost truth;
clocks, deadlines, the session calendar and the intervention policy are parameters.  Objects whose
methods update fields are classes; their methods are proved against specification functions, and
lemmas say what those functions mean.

## Where the code and its description differ

- **Retirement and linked rows outside the share.**  The retiring loop walks every linked live row,
  the share counts only own entry rows no startup adoption put there.  An open row of the first kind
  absorbs a retirement and the share stays put: `Exposure.AdoptedRowSwallowsRetirement`; the exact
  condition is `Exposure.RetireLowersShareIff`.
- **Restore as the inverse of retire.**  Restoring walks newest first whatever the side and whatever
  was retired earlier, so it is the inverse exactly under the condition of
  `Exposure.RestoreUndoesRetireIff`.
- **A fill carried by the dispatch answer.**  The fill is put back on the event stream so that the
  engine books it, but the answer's cursor write comes first and the event is then dropped as already
  counted: `FillBooking.AnsweredFillIsNeverEmitted`.  Emitted quantity equals the cursor if
  and only if the run stayed in order: `FillBooking.EmittedIsCursorIff`.
- **Unseen closes and the share bounds.**  An answered close nobody saw execute may have done so "at any
  time", but the bounds take it off the net as it is now.  An own opposite fill after it makes them
  wrong, the decided side included: `ShareBounds.UnseenCloseThenOppositeFill`; the exact condition is
  `ShareBounds.IntervalHoldsIff`, and a position traded on one side only meets it
  (`ShareBounds.OneSidedNeverOvershoots`).
- **Closes of unknown outcome.**  A report is meant to say that someone else took the share "whichever
  orders were the bot's".  While such a close claims fills it may execute unseen, and the share is known
  within bounds only; the walk credits bookings made against the upper bound to the lower one.  For all fills
  and all unseen executions reports are true if and only if every claim is safe, which the sent requests,
  lost answers and ended graces decide: `LostCloses.SoundIff`.  So one claim of a lost close is reported
  truly, one taken in flight or a second one may not be (`LostCloses.OneLostClose`); the failing families are
  `LostCloses.UncountedFails`, `LostCloses.StopOutFails` and `LostCloses.SecondClaimFails`.
- **The same with nothing unseen.**  A report can still be false where a stop-out was booked against the lower
  bound while an earlier close was unresolved (`LostCloses.StopOutWhileUnresolved`), where an own fill came
  after its close's grace (`LostCloses.OwnFillUnclaimed`), or where an earlier close's claims used up its
  request (`AmbiguousClaims.LostPartialThenForeignClose`); without any of these it is true
  (`LostCloses.PlainReportIsTrue`).  With nothing unresolved at any claim, reports are true for all fills
  if and only if no close was sent with less than the journal share (`AmbiguousClaims.ReportsSoundIff`), and
  of two closes, the first leaving nothing unresolved, if and only if that asked for the whole share
  (`AmbiguousClaims.TwoClosesSoundIff`).
- **A claim of unknown time.**  It is judged "as either" before or after the fill the answer carried, but the
  credit takes it as after, so a later claim can be reported that took nothing
  (`CloseClaims.UnknownTimeReportsFalsely`): for all fills reports are true if and only if the answer's fill
  closed nothing or there was no share (`CloseClaims.ClaimReportsSoundIff`).  With known times they are exact
  (`CloseClaims.ReportsAreExact`), and booking never exceeds the loss either way.
- **An undecided side.**  A held close met with an undecided side takes the whole open position for the bot's
  side, and is passed over as others' exposure although it took the share, exactly if a net still possible
  lies opposite the open side: `HeldCloses.UndecidedSideVerdictIff`, `HeldCloses.UndecidedSidePassesOver`.
- **Fills that were lost.**  A close counts as complete once its final fill, or a cancellation, was seen; a
  partial fill lost before is then no longer unresolved: `OwnCloses.FinalFillHidesLostPartial`, and
  `OwnCloses.Live` for the exact condition.  A close whose answer was lost counts other parties' claims as
  its own: `OwnCloses.AnswerLostCoversIff`.
- **Executions listed as partially filled.**  The history's fills of an order are its FILLED deals only;
  the replay, the snapshot and the pushed events also count PARTIALLY_FILLED ones.  A filled-then-closed
  recovery is flat exactly if the order has none of the latter
  (`ShareReplay.FilledThenClosedNetsToZeroIff`, `ShareReplay.PartialFillLeavesEngineShort`), and fills
  are never overbooked exactly if no listed total falls inside such an execution
  (`FillBooking.NeverOverbookedIff`, `FillBooking.SplitOverbooks`).
- **Commission of a snapshot's fill.**  Where the history cannot cover it the fill is booked without
  commission, which "a later recovery of this order books"; the push of its deal does not, nor does a
  recovery that has nothing more to count: `FillBooking.UnreadSnapshotLosesFee`.  A step keeps the
  commissions complete exactly under the condition of `FillBooking.StepKeepsFees`.
- **The oldest ask tick.**  The tick drain stops when its upper bound reaches the window's start, so a
  tick at exactly that time is lost if and only if a capped page ended at the next millisecond:
  `AskBars.FetchAskBars`.
- **A report that halts.**  Its position is described as open to the next report once the policy ran,
  the halt included; in the process that halted it stays closed:
  `ReportQueue.CloseReports.QueueExternalClose` says exactly when a report is suppressed.
- **A policy that fails.**  Its report leaves the queue but stays unhandled, so venue writes stay
  refused until a restart queues it again: `ReportQueue.CloseReports.FlushExternalInterventions`,
  `ReportQueue.CloseReports.Restart`.

## Assumptions of the main results

- `CloseClaims`: the journal knows its share (its linked rows are all own entries), and fills are booked by
  the event stream's rule.  That booking never exceeds the loss needs a close sent with no less than the
  journal share; that it is the loss, and that reports are exact, needs equal shares, no other close
  unresolved or among the claims, and known times where the answer carried a fill.  That the restored journal keeps the
  rest of the share also needs rows of one side.  The methods take any journal, answer fill and orders.
- `OwnCloses`: the event stream delivers each deal once, a deal found in the history was not delivered, and
  the close executes no more than it asked for.
- `AmbiguousClaims`: nothing executes unseen or is unresolved at a claim, and nothing between two closes moves
  the journal and the real share apart.  `LostCloses` needs neither; there the closes asked for known volumes,
  execute no more than that, and are sent with equal shares at first.
- `ShareBounds`: own executions up to the deal, with the parts of entries in flight that executed, add up
  to the journal net as the effects correct it.
- `HeldCloses`: the net interval a close is held with holds its real base; the venue's events have one
  order, and an acknowledgement tells of everything executed before it, one deal at most.
- `ShareReplay`, bounded branch: the journal share is the real start plus the own openings it counts
  less the real takes of judged deals, and no opening part of a pending deal is counted yet.
- `DealWalk`: a page holds the newest deals and splits no timestamp; deals appearing between calls
  are dated within the skew, and none appear while the clock stands still.  A window lowered to an
  earlier start needs that start to lie in the past.
- `FillBooking`: the executed volume stays within the row's quantity, fills have volume, and a history
  read lists the FILLED ones of the deals executed so far.
- `LiveBars`: what the venue has published does not change during one pass; its answers may be capped at
  either end.
- `Download`: the server caps to the same end throughout and keeps at least two bars.  `covered` in
  `TrendbarDrain` needs neither.
- `AskBars`: ticks of a window have distinct times and pages come newest first; a bucket itself does
  not depend on the order.
- `TokenRotation`: the venue accepts the current refresh token only, and the file lock excludes
  processes and dies with its holder.

## Model

| member | source | states |
|---|---|---|
| `Exposure.Journal.SignedShare` | src/pynecore_ctrader/protection.py:1927-1941 | The share is the signed unretired exposure of the own entry rows, and unknown exactly when there is none. |
| `Exposure.Journal.Retire` | src/pynecore_ctrader/protection.py:2207-2278 | The loop over the live rows leaves each row with what `AfterRetire` gives it: nothing for a nil share or volume, otherwise at most the share, oldest row of the net's side first; proved to mean that by the lemmas below. |
| `Exposure.Journal.Restore` | src/pynecore_ctrader/protection.py:2610-2647 | The newest-first loop leaves each row with what `AfterRestore` gives it and returns the volume given back: what was asked, up to everything retired. |
| `Exposure.RetireIsFifo` | src/pynecore_ctrader/protection.py:2207-2278 | If a row was touched, every older row of the net's side is empty. |
| `Exposure.RetireLowersShareIff` | src/pynecore_ctrader/protection.py:2207-2278 | A retirement never moves the net past zero, and lowers the share by exactly `min(q, abs(net))` if and only if no open linked row outside the share stands among the oldest rows that hold that amount. |
| `Exposure.RetireLowersShare` | src/pynecore_ctrader/protection.py:2207-2278 | Where every linked row counts in the share, retiring `q` lowers it by exactly `min(q, abs(net))`, on its side. |
| `Exposure.AdoptedRowSwallowsRetirement` | src/pynecore_ctrader/protection.py:2244-2278 | A concrete journal on which a linked startup-adopted row absorbs the whole retirement and the share does not move. |
| `Exposure.NetAfterRetire` | src/pynecore_ctrader/protection.py:2207-2278 | The net of any prefix of the rows falls by what the retirement took from its entry rows. |
| `Exposure.NetBoundedByOpen` | src/pynecore_ctrader/protection.py:1927-1941 | The share is never larger than the open exposure on its side. |
| `Exposure.RestoreUndoesRetireIff` | src/pynecore_ctrader/protection.py:2610-2647 | Giving back what was really retired restores the identical rows if and only if nothing newer than an open row of the net's side had been retired before. |
| `Exposure.RestoreUndoesRetire` | src/pynecore_ctrader/protection.py:2610-2647 | On a journal of that shape retire then restore is the identity, for every volume. |
| `Exposure.RestoreMissesOlderRetirement` | src/pynecore_ctrader/protection.py:2610-2647 | On any other journal retire then restore changes the rows. |
| `Exposure.RestoreRaisesShare` | src/pynecore_ctrader/protection.py:2610-2647 | On a one-sided journal restoring raises the share by exactly what it gave back. |
| `Exposure.RetireKeepsOwned` | src/pynecore_ctrader/protection.py:2207-2278 | On a journal whose linked rows are all own entries, of either side, retiring `q` lowers the share by exactly `min(q, share)` and keeps it such a journal. |
| `Exposure.RetireKeepsOneSided` | src/pynecore_ctrader/protection.py:2207-2278 | On a one-sided journal the retired amount moves from the share into the retired column. |
| `Exposure.UnknownShareRetires` | src/pynecore_ctrader/protection.py:2207-2278 | Where the journal knows no share, no row being an own entry, the linked rows give up exactly `q` or all they hold, oldest first, and no other row is touched. |
| `ShareReplay.ReplayShareCloses` | src/pynecore_ctrader/protection.py:763-824 | The backward rebuild of the venue volumes and the choice between the exact and the bounded replay compute `Verdict`, whose soundness the lemmas below prove. |
| `ShareReplay.ReplayExactly` | src/pynecore_ctrader/protection.py:772-791 | The running-share loop yields the exact takes, reports, bookings and total. |
| `ShareReplay.ReplayBounds` | src/pynecore_ctrader/protection.py:792-824 | The bounded loop yields the low and high takes, reports, ambiguous deals, bookings and total. |
| `ShareReplay.JournalAround` | src/pynecore_ctrader/protection.py:792-807 | The journal share now equals the real share at any deal, plus counted own openings after it, less uncounted ones before it, plus the pending takes before and less the judged takes after it. |
| `ShareReplay.BoundedReplayBrackets` | src/pynecore_ctrader/protection.py:792-815 | For every possible history the real share at each pending deal lies between the replay's low and high share, and the pending takes so far between its running totals. |
| `ShareReplay.ExactReplayIsTruth` | src/pynecore_ctrader/protection.py:772-791 | When the window holds the whole life, every possible history has exactly the replayed shares and takes. |
| `ShareReplay.BoundsBracketEveryHistory` | src/pynecore_ctrader/protection.py:761-824 | In either branch each pending deal's real take lies between its bounds, which coincide in the exact branch. |
| `ShareReplay.VerdictIsSound` | src/pynecore_ctrader/protection.py:761-824 | For every possible history: a reported deal took at least the reported amount, an ambiguous one lies in its bounds, a foreign pending deal that took anything is listed, `taken` is a lower bound. |
| `ShareReplay.ReportedOrAmbiguous` | src/pynecore_ctrader/protection.py:819-823 | No deal is both reported and ambiguous. |
| `ShareReplay.TakenIsLowerBound` | src/pynecore_ctrader/protection.py:814-816 | `taken` never exceeds what the pending deals really took, and equals it in the exact branch. |
| `ShareReplay.VerdictIsSharp` | src/pynecore_ctrader/protection.py:792-824 | In every possible history a foreign pending deal that took more than what the evidence leaves open is reported with no less than the rest, and an ambiguous one lies in bounds no further apart than that; in the exact branch nothing is left open. |
| `ShareReplay.TakesSpread` | src/pynecore_ctrader/protection.py:792-815 | The bounds of what a pending deal took, and of what all before it took, are no further apart than the own openings not seen and the judged closes after the first pending deal allow. |
| `ShareReplay.VerdictIsTruth` | src/pynecore_ctrader/protection.py:763-824 | In the exact branch, and in the bounded one where every own opening is seen and no judged close follows a pending deal: reported are exactly the foreign pending deals that took share, with what they took, none is ambiguous, booked are exactly the takes, in every possible history. |
| `ShareReplay.ForeignTakesLeast` | src/pynecore_ctrader/protection.py:774-781 | A close that is not the bot's takes the least that leaves the share within what it left of the position. |
| `ShareReplay.VenueRunsForward` | src/pynecore_ctrader/protection.py:763-769 | The volumes rebuilt backwards are those of the position run forwards to what is open now. |
| `ShareReplay.ExactReplayConserves` | src/pynecore_ctrader/protection.py:772-791 | After every deal the replayed share lies between nothing and the venue's volume, and own opened volume equals all takes plus the share. |
| `ShareReplay.GonePositionTookEverything` | src/pynecore_ctrader/protection.py:772-791 | On a position that is gone the closes took every unit the bot opened. |
| `ShareReplay.FilledThenClosedEvents` | src/pynecore_ctrader/reconcile.py:1575-1596 | The events are the entry fill still owed, if any, then one close for each judged close not seen live, in their order; their net quantity is the entry fill less those closes. |
| `ShareReplay.CloseEventsAreEach` | src/pynecore_ctrader/reconcile.py:1594-1595 | The close events are exactly the closes not seen live, one each with its deal and volume, in their order. |
| `ShareReplay.BookedCarriesTakes` | src/pynecore_ctrader/protection.py:783-786 | Where every closing deal is pending and unseen, the booked closes carry all the exact takes. |
| `ShareReplay.FilledThenClosedNet` | src/pynecore_ctrader/reconcile.py:1555-1596 | For a single-row order recovered as filled-then-closed, none of its fills or closes booked before, the engine ends at what the history lists of the order's fills less all of its executions. |
| `ShareReplay.FilledThenClosedNetsToZeroIff` | src/pynecore_ctrader/reconcile.py:255-259 | That is flat if and only if every execution of the order is listed as FILLED, none as PARTIALLY_FILLED. |
| `ShareReplay.PartialFillLeavesEngineShort` | src/pynecore_ctrader/reconcile.py:246-259 | The failing family: an execution listed as partially filled and one as filled, closed together, leave the engine short of the first. |
| `CloseClaims.BookingStep` | src/pynecore_ctrader/events.py:712-728 | One fill, a venue's taken with nothing unresolved: the booking is within the journal share, an own fill books no more than it took, and the real share falls behind the journal only where the close's requested volume is fully claimed. |
| `CloseClaims.SharesInStep` | src/pynecore_ctrader/events.py:712-728 | Of a close sent with no less than the journal share, nothing unresolved at its claims, whichever orders are the bot's: both shares stay non-negative, claims stay within the requested volume, and the real share is behind the journal share only once it is fully claimed. |
| `CloseClaims.CreditStep` | src/pynecore_ctrader/protection.py:2515-2541 | Where the walk takes the share for what it was, its step at a claim, the answer's fill before or after it, measures what that fill really took and leaves it right. |
| `CloseClaims.CreditTracksTruth` | src/pynecore_ctrader/protection.py:2509-2541 | Of a close sent with equal shares, nothing unresolved at its claims: after every claim the journal share plus the credit is the real share, less what the answer's fill closed once that executed, given which claims executed before it. |
| `CloseClaims.CutsSpendCredit` | src/pynecore_ctrader/protection.py:2545-2552 | The cuts of the first claims sum to the final credit as far as their excess goes. |
| `CloseClaims.CutWithinBooked` | src/pynecore_ctrader/protection.py:2544-2552 | For any claims, answer fill and further own orders: a cut is never negative and never more than its claim booked. |
| `CloseClaims.SettledCuts` | src/pynecore_ctrader/protection.py:2544-2552 | For any claims, answer fill and further own orders: together the cuts are the non-negative part of the final credit, which is no more than was booked. |
| `CloseClaims.CreditCoversTruth` | src/pynecore_ctrader/protection.py:2515-2541 | Whatever bounds of the share the claims were taken with, whatever fill the answer carried, whenever it executed and whatever further own orders are claimed, the real share is never above what the walk takes it for by more than it was when the close was sent. |
| `CloseClaims.SettlementNeverOverbooks` | src/pynecore_ctrader/protection.py:2420-2608 | Of a close sent with no less than the journal share, whatever bounds of the share its claims were taken with: what the settlement delivers, with what the stream then books of the fill the answer carried, never exceeds what the share really lost, whenever that fill executed and whatever further own orders are claimed. |
| `CloseClaims.SettlementAmidUnseen` | src/pynecore_ctrader/protection.py:2420-2608 | That holds too while further closes of the bot execute unseen among the fills. |
| `CloseClaims.NeverOverbooksIff` | src/pynecore_ctrader/protection.py:2420-2608 | It is so for all fills, with whatever bounds, if and only if the close was sent with no less than the journal share. |
| `CloseClaims.SettlementIsExactIff` | src/pynecore_ctrader/protection.py:2420-2608 | Of a close sent with equal shares, nothing unresolved at its claims: that total is exactly what the share lost if and only if the final credit is not negative or the answer's fill takes all the journal has left, given which claims executed before it. |
| `CloseClaims.NegativeCreditIsClaimedUp` | src/pynecore_ctrader/protection.py:2515-2541 | With whatever bounds: a negative credit needs a close whose requested volume is fully claimed, and what the walk takes the share for is never negative nor less than an own fill books. |
| `CloseClaims.NothingCarried` | src/pynecore_ctrader/protection.py:2509-2511 | Without a fill carried by the answer the share those statements speak of is the real share after the claims. |
| `CloseClaims.ReportsAreExact` | src/pynecore_ctrader/protection.py:2522-2543 | Of a close sent with equal shares, nothing unresolved at its claims: a claim is reported if and only if it is another party's close that took part of the share, the answer's fill included, given which claims executed before that. |
| `CloseClaims.ClaimReportsSoundIff` | src/pynecore_ctrader/protection.py:2518-2543 | Where the times are not known: reports are true for all fills if and only if the answer's fill closed nothing, or there was no share. |
| `CloseClaims.UnknownTimeReportsFalsely` | src/pynecore_ctrader/protection.py:2519-2541 | The failing family: a claim of unknown time is judged as if the answer's fill came first, and the credit this leaves reports another party's close of its own exposure. |
| `CloseClaims.CloseBook.constructor` | src/pynecore_ctrader/protection.py:2403-2418 | A close sent on any journal, whatever the bot really holds, starts with the journal share and no claims; it is tracked if and only if the journal's linked rows are all own entries. |
| `CloseClaims.FlightClaimed` | src/pynecore_ctrader/protection.py:513-515 | What the claims that are not the venue's booked is what the flight claimed of the requested volume. |
| `CloseClaims.CloseBook.TakeFill` | src/pynecore_ctrader/events.py:687-804 | A fill is claimed with the bounds of the share, or whole when the journal knew none (a venue close then not at all); its rows are retired by what it booked or, with nothing left on the bot's side, closed; a tracked journal keeps the share the flight has. |
| `CloseClaims.KnownShareBooks` | src/pynecore_ctrader/events.py:712-771 | With a known share the claim has it as upper bound and that less what is unresolved as lower one; an own or another party's fill books all of itself unless the share or the rest of the request is used up, a venue's the least that brings the lower bound to what is left open. |
| `CloseClaims.UnknownShareBooksWhole` | src/pynecore_ctrader/events.py:709-728 | Where the journal knows no share a fill is booked whole, its claim says so, and it is no venue claim. |
| `CloseClaims.TrackedFill` | src/pynecore_ctrader/events.py:712-771 | A fill taken on a tracked journal extends the flight by itself, and the journal's share and retired volume follow it. |
| `CloseClaims.CloseBook.RejudgeClaims` | src/pynecore_ctrader/protection.py:2478-2552 | The walk returns the cuts the credit function defines, answer fill and further own orders included, keeps exactly the close's own claims and reports what `ReportedAre` says. |
| `CloseClaims.ReportedAre` | src/pynecore_ctrader/protection.py:2864-2916 | Reported are exactly the claims of an order that is neither the close's, the venue's nor a further own one, which took part of the share, or whose share was unknown on a hedged account. |
| `CloseClaims.OwnClaimsAre` | src/pynecore_ctrader/protection.py:2515-2544 | The claims kept are those of the close's order, each in its place. |
| `CloseClaims.CloseBook.ReleaseHeldClaims` | src/pynecore_ctrader/protection.py:2554-2608 | Appends to what was delivered one event for each held claim of which something is left, in claim order, and gives the journal exactly the cuts back. |
| `CloseClaims.EventsAreEach` | src/pynecore_ctrader/protection.py:2576-2589 | The delivered events are exactly one for each held claim of which something is left after its own cut, in the order of the claims, each carrying that claim's deal and rest. |
| `CloseClaims.CutsAreExcess` | src/pynecore_ctrader/protection.py:2544-2552 | An event of the close's own order is delivered whole; of another claim only what it booked beyond what it took is cut, and a later claim is cut only once that of the earlier ones is cut whole. |
| `CloseClaims.EventsTotal` | src/pynecore_ctrader/protection.py:2576-2589 | Together they carry what was booked less the cuts, which the settled total speaks of. |
| `CloseClaims.CloseBook.Settle` | src/pynecore_ctrader/protection.py:2420-2476 | With any answer fill and further own orders the close keeps its own claims, counts the answer's fill if it is none of them, reports what `ReportedAre` says and delivers each held claim's event less its own cut; where the journal was tracked, these carry the settled total, at most what the share lost with the answer's fill, if none of the claims, booked after them and exactly that under the stated condition, and a one-sided journal keeps the rest of the start; an answered and a refused close alike. |
| `CloseClaims.OthersIrrelevant` | src/pynecore_ctrader/protection.py:2515-2552 | Further own orders that no claim names change no cut, with any answer fill. |
| `CloseClaims.CloseBook.SettleUnknown` | src/pynecore_ctrader/protection.py:2447-2452 | A close whose answer was lost delivers every held event whole and by itself, keeps its claims and leaves the journal as it is. |
| `OwnCloses.Live` | src/pynecore_ctrader/protection.py:476-536 | The whole life of a close whose answer names its order, with any fills before, any answer fill, later fills, recovered deals and cancellations: every deal is counted once, and what executed unseen is within the unresolved volume if and only if the request is known and the close not complete, or nothing was lost; then the unresolved volume is that and the rest of the request. |
| `OwnCloses.UnseenIsUnresolvedIff` | src/pynecore_ctrader/protection.py:525-536 | The same for any record that counts executions of its order once each. |
| `OwnCloses.CountKeepsAccount` | src/pynecore_ctrader/protection.py:517-523 | Counting a deal, counted before or not, keeps that account. |
| `OwnCloses.AnswerOpensAccount` | src/pynecore_ctrader/protection.py:2454-2457 | The own claims left by the answer and its fill, unless it is one of them, open it. |
| `OwnCloses.FinalFillHidesLostPartial` | src/pynecore_ctrader/protection.py:533-534 | The failing family: a final fill that was seen makes the unresolved volume nil while a partial fill was lost. |
| `OwnCloses.AnswerLostCoversIff` | src/pynecore_ctrader/protection.py:533-536 | Of a close whose answer was lost, the unresolved volume covers whatever may have executed unseen if and only if none of its claims was another party's, or nothing of the request is left. |
| `OwnCloses.UnresolvedOwnClose` | src/pynecore_ctrader/protection.py:2079-2084 | The sum over the position's closes, which `UnseenInAll` bounds the unseen volume with. |
| `OwnCloses.UnseenInAll` | src/pynecore_ctrader/protection.py:2079-2084 | Where each close's unseen volume is within its unresolved one, their sum is within the volume the share bounds take off the net. |
| `OwnCloses.RecordsBoundShare` | src/pynecore_ctrader/protection.py:2069-2084 | Of real records, each request known and the close not complete or nothing of it lost: what executed unseen is allowed by the evidence of the share bounds, which then bracket the real share where no unseen close can overshoot. |
| `AmbiguousClaims.ForeignClaimsTaken` | src/pynecore_ctrader/protection.py:845-863 | The walk returns the provable and possible volume charged to the orders taken as foreign. |
| `AmbiguousClaims.WeighingIsRejudging` | src/pynecore_ctrader/protection.py:827-863 | For every list of claims: weighed with the close's true order, the credit and the charge are those the answer naming it would give. |
| `AmbiguousClaims.TrueOrdersChargeTruth` | src/pynecore_ctrader/protection.py:827-863 | For the fills of any close sent with no less than the journal share, nothing unseen or unresolved, and any set of own orders: weighed with them, the credit is at most real share minus journal share and the charge at most what other parties really took, both exact where the shares were equal. |
| `AmbiguousClaims.CombinationsCoverSubsets` | src/pynecore_ctrader/reconcile.py:895-897 | The enumeration reaches every set of a given size of the possibly-own orders. |
| `AmbiguousClaims.CombinationsAreSubsets` | src/pynecore_ctrader/reconcile.py:895-897 | It reaches nothing else. |
| `AmbiguousClaims.LeastTaken` | src/pynecore_ctrader/reconcile.py:894-901 | The result is the least charge over every possible way, and some way attains it. |
| `AmbiguousClaims.JudgeAmbiguous` | src/pynecore_ctrader/reconcile.py:871-923 | On a netting account what waits is cleared unjudged; otherwise nothing is judged for a position reported already, and nothing before every claimed order is looked up; then a report is queued if and only if someone else is charged for every set of own orders the lookups allow: all orders of own origin, none of the venue's or another party's, and of the undecided ones at most as many as there are closes. |
| `AmbiguousClaims.WaysAreAllowed` | src/pynecore_ctrader/reconcile.py:883-901 | The ways weighed charge someone else in all cases exactly if every set of own orders the lookups allow does. |
| `AmbiguousClaims.JudgeFlights` | src/pynecore_ctrader/reconcile.py:860-923 | End to end, nothing unseen or unresolved: a report means that another party's fill really took share for every set of own orders the lookups allow, and where the closes were sent with equal shares and every order was looked up it is queued if and only if that is so. |
| `AmbiguousClaims.SomeoneTookIff` | src/pynecore_ctrader/reconcile.py:894-901 | Other parties took some volume in all exactly if one of their fills took share. |
| `AmbiguousClaims.LookUp` | src/pynecore_ctrader/reconcile.py:883-893 | The known own and the undecided orders are exactly those the lookups give such kinds; one failed lookup defers. |
| `AmbiguousClaims.TotalWithinTruth` | src/pynecore_ctrader/reconcile.py:898-900 | Over any number of such closes, the total charged with the true orders is at most what others really took, and exactly that where the shares were equal. |
| `AmbiguousClaims.ReportMeansSomeoneElseTook` | src/pynecore_ctrader/reconcile.py:860-923 | The case of nothing unseen and nothing unresolved at any claim: for any number of closes of unknown outcome, each sent with no less than the journal share, any further own orders and whichever undecided orders were really the bot's, where every way charges the others, another party's fill really took part of the share. |
| `AmbiguousClaims.ReportsSoundIff` | src/pynecore_ctrader/reconcile.py:860-923 | In that case, given the journal and the real share each close was sent with, reports are true for all fills, orders and ways if and only if none was sent with less than the journal share. |
| `AmbiguousClaims.ChainKeepsUp` | src/pynecore_ctrader/protection.py:2447-2452 | In that case, of closes sent one after another, each answer lost, none is sent with less than the journal share unless an earlier one's claims used up the volume it asked for and not the journal share. |
| `AmbiguousClaims.ChainedReportIsTrue` | src/pynecore_ctrader/reconcile.py:875-923 | So in that case a report about them is true under that condition, which the claims show. |
| `AmbiguousClaims.TwoClosesSoundIff` | src/pynecore_ctrader/reconcile.py:875-923 | In that case, of two closes, the first sent with equal shares and leaving nothing unresolved: reports are true for all fills if and only if the first asked for the whole share or its request is unknown. |
| `AmbiguousClaims.LostPartialThenForeignClose` | src/pynecore_ctrader/reconcile.py:894-923 | The failing family of that case, for every share and every smaller request: all ways charge the others, and nobody else took any of the share. |
| `LostCloses.SoundIff` | src/pynecore_ctrader/reconcile.py:860-923 | For any closes of one position, their answers and graces, and room for fills, from equal shares: reports are true for all fills and all unseen executions if and only if there is no share, or at each claim either the lost closes asked for the whole share and it is the first claim of its close, or all closes sent are lost and it is the first fill since they were sent. |
| `LostCloses.SafeReportIsTrue` | src/pynecore_ctrader/reconcile.py:860-923 | Where every claim is of that kind, a report means another party's claimed fill really took part of the share, whatever executed unseen and whichever undecided orders were the bot's. |
| `LostCloses.SafeChargeIsTrue` | src/pynecore_ctrader/protection.py:845-863 | What such a claim charges to another party, its fill really took. |
| `LostCloses.NothingCertain` | src/pynecore_ctrader/protection.py:2069-2077 | Where the lost closes asked for the whole share, the lower bound of the share is nothing, however much their claims ate of what is unresolved. |
| `LostCloses.LagsByUnseen` | src/pynecore_ctrader/protection.py:2069-2077 | Without a fill since the first close was sent, the real share is behind the journal share by no more than what the closes executed. |
| `LostCloses.UncountedFails` | src/pynecore_ctrader/protection.py:533-534 | A claim while a close that may have executed does not count as unresolved can be reported falsely: the close has executed unseen. |
| `LostCloses.StopOutFails` | src/pynecore_ctrader/events.py:733-741 | A claim after a fill that met a lower bound above nothing can be: a stop-out booked for nothing, then an unseen execution. |
| `LostCloses.SecondClaimFails` | src/pynecore_ctrader/protection.py:852-862 | A second claim of a close can be, where the lost closes asked for the whole share: what the first booked is credited to a lower bound of nothing. |
| `LostCloses.OneLostClose` | src/pynecore_ctrader/reconcile.py:875-923 | One close of any request: reports about a single claim taken once the answer was lost are true, those about one taken in flight, or about two, can be false for every share. |
| `LostCloses.PlainReportIsTrue` | src/pynecore_ctrader/reconcile.py:860-923 | With nothing executed unseen, a report is true if no close was unresolved at a fill of the venue, only such fills went unclaimed, and no older close's claims had used up its request at a claim, unless the journal share was gone. |
| `LostCloses.StopOutWhileUnresolved` | src/pynecore_ctrader/events.py:733-741 | The failing family without the first of these, for every share and earlier request and every second request of the whole share: a stop-out is booked for nothing, and a report follows though nobody else took anything. |
| `LostCloses.OwnFillUnclaimed` | src/pynecore_ctrader/events.py:733-741 | The failing family without the second: a fill of the first close after its grace is claimed by none and booked for nothing, and a report follows. |
| `LostCloses.AlwaysBalanced` | src/pynecore_ctrader/events.py:719-728 | Over any run the claims took no less off the journal share than they ate of the requests, unless that share is gone. |
| `LostCloses.Position.UnresolvedOwnClose` | src/pynecore_ctrader/protection.py:2079-2084 | The sum over the position's closes that the bounds take off the share. |
| `LostCloses.Position.OwnCloseWildcard` | src/pynecore_ctrader/protection.py:2799-2804 | The first close whose grace has not ended claims the next fill. |
| `LostCloses.Position.JudgeCloseFill` | src/pynecore_ctrader/events.py:687-771 | The fill is bounded by what is unresolved, booked by the rule of its claiming close or for what it provably took, and claimed with both bounds. |
| `LostCloses.Position.Run` | src/pynecore_ctrader/protection.py:2799-2842 | Any run of sent closes, lost answers, ended graces and fills leaves what `BookAt` says, of which the lemmas speak. |
| `ShareBounds.BoundsOfNet` | src/pynecore_ctrader/protection.py:599-608 | The widened interval is turned into the bounds that `BoundsAreExact` characterizes. |
| `ShareBounds.BoundsAreExact` | src/pynecore_ctrader/protection.py:602-608 | The bounds hold for every net of the interval, both are attained, and the side is decided if and only if some net is not nil and all such nets lie on it. |
| `ShareBounds.PartsStayInReach` | src/pynecore_ctrader/protection.py:599-601 | Whatever part of each entry in flight executed, the net stays within the widening. |
| `ShareBounds.PartsReach` | src/pynecore_ctrader/protection.py:599-601 | Every net within the widening is reached by some executions. |
| `ShareBounds.EntriesInFlight` | src/pynecore_ctrader/protection.py:2098-2107 | The pending entries are exactly the uncounted rests on the position's symbols, none on a hedged account, and reach as far as they do. |
| `ShareBounds.UncountedPartIsInFlight` | src/pynecore_ctrader/protection.py:2086-2107 | What a dispatch can add beyond what the journal counts is exactly a part of its pending rest. |
| `ShareBounds.NetBounds` | src/pynecore_ctrader/protection.py:2052-2077 | The loop over the own fills and the unresolved closes computes the interval that `IntervalHoldsIff` and `IntervalIsAttained` characterize. |
| `ShareBounds.ExtremesAreAttained` | src/pynecore_ctrader/protection.py:2053-2068 | Some ordering of the time-unknown fills reaches each end of the correction. |
| `ShareBounds.DriftBounded` | src/pynecore_ctrader/protection.py:2069-2077 | However unseen closes are spread over the own executions, together they move the net by no more than one of them could have at once. |
| `ShareBounds.RangeHoldsIff` | src/pynecore_ctrader/protection.py:2069-2077 | Wherever among the own executions the unseen closes executed, and in whatever parts, a range holding the net without them holds the real net if and only if at no point one close of all that is unresolved could have left it. |
| `ShareBounds.IntervalHoldsIff` | src/pynecore_ctrader/protection.py:2032-2077 | The code's interval holds the real net for all of them if and only if none can overshoot zero by more than the uncertain fills and entries may. |
| `ShareBounds.NoOvershootPlainly` | src/pynecore_ctrader/protection.py:2069-2077 | With no uncertain fill or entry that means: what the close could have taken then is still there now, on the same side. |
| `ShareBounds.OneSidedNeverOvershoots` | src/pynecore_ctrader/protection.py:2032-2077 | On a position the bot only traded on one side no unseen close can overshoot. |
| `ShareBounds.UnseenCloseThenOppositeFill` | src/pynecore_ctrader/protection.py:2069-2077 | The failing family: bought, closed unseen, then a smaller own sell on the same position; the bounds decide a long side and the bot is short. |
| `ShareBounds.IntervalIsAttained` | src/pynecore_ctrader/protection.py:2032-2077 | Both ends of the interval, entries in flight included, are reached by closes that do not overshoot. |
| `ShareBounds.ShareBoundsAt` | src/pynecore_ctrader/protection.py:2025-2030 | For every truth the evidence allows in which no close overshoots, the returned bounds bracket the share and do not contradict its side. |
| `ShareBounds.ShareBoundsBracketTruth` | src/pynecore_ctrader/protection.py:2006-2107 | The bounds bracket the real share and a decided side is not contradicted where no unseen close can overshoot; for all ways they can have executed, if and only if no close of all that is unresolved could have left the shares the bounds allow. |
| `ShareBounds.BoundsHoldInRange` | src/pynecore_ctrader/protection.py:602-608 | Bounds bracket a share, side included, if and only if its signed size lies in the range they allow. |
| `HeldCloses.Judgements.Hold` | src/pynecore_ctrader/protection.py:2109-2121 | Holding a close adds it to the waiting ones and keeps the account of held and judged closes. |
| `HeldCloses.Judgements.SettleEntryAnswer` | src/pynecore_ctrader/protection.py:2123-2166 | Each waiting close absorbs the answer; every close ever held is waiting or judged, exactly once. |
| `HeldCloses.JudgedOnce` | src/pynecore_ctrader/protection.py:2144-2166 | An answer splits the held closes into those still waiting and those judged, none lost or doubled. |
| `HeldCloses.AbsorbAllSums` | src/pynecore_ctrader/protection.py:2145-2163 | Absorbing answers moves both ends of the net by the sum of per-entry shifts and waits for exactly the rest. |
| `HeldCloses.Judgements.SettleEntryAnswers` | src/pynecore_ctrader/protection.py:2123-2166 | A run of answers leaves the closes and delivers the verdicts that `JudgedAfterAre` and `RunsJudgeAlike` characterize; every close ever held is waiting or judged, exactly once. |
| `HeldCloses.JudgedAfterAre` | src/pynecore_ctrader/protection.py:2123-2166 | The verdicts a run delivered are exactly those of the closes it left waiting for nobody, each judged as all its answers leave it. |
| `HeldCloses.RunsJudgeAlike` | src/pynecore_ctrader/protection.py:2123-2197 | Any two runs that answer every entry waited for judge every held close and deliver the same verdicts. |
| `HeldCloses.VerdictIsOrderIndependent` | src/pynecore_ctrader/protection.py:2123-2197 | Any two orders of answers that answer every entry waited for give a close the same final bounds and verdict. |
| `HeldCloses.PossibleNetsAreInterval` | src/pynecore_ctrader/protection.py:2176-2177 | The nets the close may have met are exactly the final interval. |
| `HeldCloses.SideCannotFlip` | src/pynecore_ctrader/events.py:717-750 | A side decided when the close was held is the side of every net still possible after the answers. |
| `HeldCloses.ReportIsSound` | src/pynecore_ctrader/protection.py:2168-2189 | A report means the close took at least the reported part of the share under every resolution of the unknown entries. |
| `HeldCloses.DecidedSideVerdictIff` | src/pynecore_ctrader/protection.py:2168-2197 | With a decided side: reported if and only if it took the share under every resolution, passed over if and only if it took nothing under any. |
| `HeldCloses.UndecidedSideVerdictIff` | src/pynecore_ctrader/protection.py:2168-2197 | With an undecided side: a close passed over took nothing under any resolution if and only if no net still possible lies opposite the venue's open side; with no such net both verdicts are exact. |
| `HeldCloses.UndecidedSidePassesOver` | src/pynecore_ctrader/protection.py:2281-2300 | The failing case: a close that took the bot's one short unit is passed over, as the whole open position was taken for its side. |
| `HeldCloses.ContributionAllowsTruth` | src/pynecore_ctrader/protection.py:2144-2163 | Where events have one order that the clock does not contradict and an answer tells of all that executed before it, the judged contribution is what the entry really added before the close, or allows it. |
| `HeldCloses.DecidedIsExact` | src/pynecore_ctrader/protection.py:2144-2163 | An answer that refuses the entry, shows nothing new, names another position, or dates its deal at another time than the close is absorbed as exactly what the entry really added before the close. |
| `HeldCloses.UndecidedIsAttained` | src/pynecore_ctrader/protection.py:2144-2163 | Any other answer leaves both ends possible: some story it tells of has the entry add nothing before the close, and some all of it. |
| `HeldCloses.AllDecided` | src/pynecore_ctrader/protection.py:2127-2166 | Where every answer decides, the net moves by exactly what the entries really added and nothing stays unknown. |
| `HeldCloses.DecidedVerdictIsTruth` | src/pynecore_ctrader/protection.py:2144-2197 | A close held with an exact net, every answer deciding, is reported if and only if it really took part of the share and passed over as others' otherwise, given a decided side or a real net not opposite the open side. |
| `HeldCloses.RealNetIsPossible` | src/pynecore_ctrader/protection.py:2127-2166 | Whatever the entries really executed, the real net is one of the nets judged possible. |
| `HeldCloses.ReportedCloseTookShare` | src/pynecore_ctrader/protection.py:2168-2189 | So a reported close really took the bot's share. |
| `DealWalk.Walk.constructor` | src/pynecore_ctrader/reconcile.py:1750-1752 | A new walk has read and owes nothing. |
| `DealWalk.Walk.Ingest` | src/pynecore_ctrader/reconcile.py:232-259 | The three records hold, by id, exactly the deals read that they want: own FILLED ones, closing ones, executed ones. |
| `DealWalk.Walk.Extend` | src/pynecore_ctrader/reconcile.py:1753-1763 | The window reaches the present; the newest unshortened segment is widened, otherwise what came since is added with the overlap, and what is read and owed still covers it, deals that appeared late within the skew included. |
| `DealWalk.Walk.ReadPage` | src/pynecore_ctrader/reconcile.py:1786-1796 | One page keeps the window covered and strictly shrinks the owed length. |
| `DealWalk.PageShrinksOwed` | src/pynecore_ctrader/reconcile.py:1788-1796 | The owed length is a termination measure for every honest page. |
| `DealWalk.PageCovers` | src/pynecore_ctrader/reconcile.py:1788-1796 | What a page takes off the owed window, it brought. |
| `DealWalk.ExtensionCovers` | src/pynecore_ctrader/reconcile.py:1753-1763 | Widening or adding segments leaves nothing uncovered. |
| `DealWalk.Walk.FindFillDeal` | src/pynecore_ctrader/reconcile.py:1702-1809 | Terminates; the result is inconclusive if and only if one more request, for the oldest segment still owed, was cut or failed, all before it having been answered; it then stays resumable; a conclusive result holds every FILLED deal of the order and every closing and executed deal of the target position present at the call's start, only real ones, each once, in execution order, with their totals and average price. |
| `DealWalk.Walk.ReadOwed` | src/pynecore_ctrader/reconcile.py:1765-1809 | Requests go to the oldest owed segment one after another, all answered but perhaps the last, and they stop exactly when nothing is owed or one is not answered. |
| `DealWalk.FillPositionIsNewest` | src/pynecore_ctrader/reconcile.py:274-281 | The target position is what the newest fill that names a position names, and unknown exactly if none does. |
| `DealWalk.TotalsAdd` | src/pynecore_ctrader/reconcile.py:261-301 | Totals and costs add up over the deals, each with its own volume and price. |
| `DealWalk.Walk.Aggregate` | src/pynecore_ctrader/reconcile.py:261-301 | The result of a fully read window is exactly its evidence: fills, total, average price, closes and position deals, sides and commissions included. |
| `DealWalk.TellsOfEach` | src/pynecore_ctrader/reconcile.py:261-301 | Of a conclusive result, deal by deal: one present at the start is among the fills if and only if it is the order's FILLED one, among the closes if and only if it closed volume of the target position, and among the executions if it executed there, clipped to what it filled; all in execution order. |
| `FillBooking.DealsCovering` | src/pynecore_ctrader/reconcile.py:1327-1345 | The covered deals are exactly the listed ones whose cumulative listed volume is within the given units. |
| `FillBooking.EntryRow.constructor` | src/pynecore_ctrader/execution.py:577-625 | A new row counts, has seen and has emitted nothing. |
| `FillBooking.EntryRow.Push` | src/pynecore_ctrader/events.py:284-326 | A pushed fill is emitted if and only if its deal is unseen and its cumulative volume is above the cursor, with its commission; otherwise at most remembered. |
| `FillBooking.EntryRow.Snapshot` | src/pynecore_ctrader/reconcile.py:1276-1325 | Emits exactly the cursor's advance, never completes the order, and books the commission of the covered unseen deals, those the history lists as FILLED. |
| `FillBooking.EntryRow.Promote` | src/pynecore_ctrader/reconcile.py:1465-1553 | Emits exactly the cursor's advance to the total of the listed FILLED deals, and books and remembers exactly the unseen ones. |
| `FillBooking.EntryRow.Answer` | src/pynecore_ctrader/execution.py:602-621 | The answer's cursor write only grows the cursor and emits nothing. |
| `FillBooking.EntryRow.Run` | src/pynecore_ctrader/events.py:407-427 | Any interleaving, loss or repetition of all the paths: each commission once, the cursor monotone and within the executed volume; where the history splits no execution, the events carry the cursor's whole advance if and only if the run stayed in order. |
| `FillBooking.StepKeepsGood` | src/pynecore_ctrader/reconcile.py:1276-1325 | Every step of every path keeps the cursor on executed volume, seen deals counted and commissions single. |
| `FillBooking.RunKeepsGood` | src/pynecore_ctrader/events.py:941-965 | So does every run, and the cursor never falls and never exceeds what was executed. |
| `FillBooking.StepDeficit` | src/pynecore_ctrader/events.py:407-427 | Where the history splits no execution, no step makes up for volume the events lack, and a step keeps the balance if and only if it is in order. |
| `FillBooking.RunDeficit` | src/pynecore_ctrader/events.py:407-427 | The same over every run from every good row. |
| `FillBooking.EmittedIsCursorIff` | src/pynecore_ctrader/events.py:407-427 | For a new order emitted is at most the cursor, and equal to it if and only if the run stayed in order: no push ahead of an unprocessed earlier one, no answer's cursor write ahead of an event. |
| `FillBooking.AnsweredFillIsNeverEmitted` | src/pynecore_ctrader/execution.py:602-621 | Volume an answer's cursor write counts ahead of its events is never emitted, whatever steps follow. |
| `FillBooking.NeverOverbookedIff` | src/pynecore_ctrader/reconcile.py:1465-1553 | No run emits more than the cursor counts, if and only if no total of listed FILLED deals falls strictly inside an execution listed as PARTIALLY_FILLED. |
| `FillBooking.SplitOverbooks` | src/pynecore_ctrader/reconcile.py:1465-1553 | The failing run: promotion, then the push of that execution; with a snapshot of a larger order more is emitted than was executed. |
| `FillBooking.AllWholeNoSplit` | src/pynecore_ctrader/reconcile.py:255-259 | An order whose executions are all FILLED has no such split. |
| `FillBooking.BookedOnce` | src/pynecore_ctrader/reconcile.py:1544-1545 | Booking unseen deals keeps every commission booked at most once. |
| `FillBooking.StepBooks` | src/pynecore_ctrader/reconcile.py:1262-1268 | A deal's commission is booked by the step that first makes the deal seen, if that step emits anything, and by no other. |
| `FillBooking.StepKeepsFees` | src/pynecore_ctrader/reconcile.py:1294-1317 | Where all executions are listed and exactly the counted deals have their commission booked, a step keeps that so if and only if it is in order and a snapshot that moves the cursor comes with a history read that covers it. |
| `FillBooking.RunBooksFees` | src/pynecore_ctrader/reconcile.py:1515-1543 | So over any such run of a new order exactly the deals the cursor counts have their commission booked. |
| `FillBooking.UnreadSnapshotLosesFee` | src/pynecore_ctrader/reconcile.py:1262-1268 | A snapshot without such a read books no commission, and the push of its deal after it is only remembered. |
| `FillBooking.ExecutedOrder` | src/pynecore_ctrader/reconcile.py:1328-1345 | Cumulative volumes order the deals as their sequence does. |
| `FillPrice.DeltaFillPrice` | src/pynecore_ctrader/reconcile.py:1598-1631 | `None` exactly when the deals do not cover the slice; otherwise the slice's price. |
| `FillPrice.DeltaPrice` | src/pynecore_ctrader/reconcile.py:1598-1631 | The slice's price times its quantity is what exactly its units cost in their executions. |
| `FillPrice.NotionalTelescopes` | src/pynecore_ctrader/reconcile.py:1598-1631 | Two consecutive ranges cost together what the whole costs. |
| `FillPrice.SlicesTelescope` | src/pynecore_ctrader/reconcile.py:1598-1631 | For any slicing into consecutive deltas, the sum of delta price times quantity is the notional of the whole range. |
| `FillPrice.WholeOrderNotional` | src/pynecore_ctrader/reconcile.py:1598-1631 | The whole order's range costs the sum over its executions. |
| `FillPrice.DeltaPriceWithinSpan` | src/pynecore_ctrader/reconcile.py:1598-1631 | A recovered price lies within the prices of the executions it stands for. |
| `TrendbarDrain.FoldIn` | src/pynecore_ctrader/provider.py:713-720 | One answer is merged; the oldest opening and whether anything was new are reported. |
| `TrendbarDrain.FetchWindow` | src/pynecore_ctrader/provider.py:673-734 | `covered` implies every bar of the window was read, even if the server chooses per request which end to cap, and holds after an uncapped first answer; it terminates because unread bars strictly decrease; a newest-capping server is always covered, an oldest-capping one leaves no hole below what it returned. |
| `Download.SavePage` | src/pynecore_ctrader/provider.py:655-660 | Exactly the page's bars of the range not saved before are appended, in increasing order. |
| `Download.PageReachesNext` | src/pynecore_ctrader/provider.py:632-669 | The page, less a newest bar handed back, is exactly the venue's bars from the cursor to where the next window starts. |
| `Download.ReadWindow` | src/pynecore_ctrader/provider.py:615-669 | One window extends what is saved exactly to the next cursor, which strictly grows. |
| `Download.DownloadBars` | src/pynecore_ctrader/provider.py:608-669 | Terminates and saves every venue bar opening in `[from, to)` exactly once in strictly increasing order, closed-market windows included. |
| `AskBars.BisectRight` | src/pynecore_ctrader/provider.py:792 | The index splits the openings at or before the tick from the later ones. |
| `AskBars.AddTick` | src/pynecore_ctrader/provider.py:787-809 | Adding a tick keeps every bucket the first, last, highest and lowest of its bar's ticks, in whatever order ticks come. |
| `AskBars.AddPage` | src/pynecore_ctrader/provider.py:787-809 | The same for a page of any size. |
| `AskBars.JoinAggregates` | src/pynecore_ctrader/provider.py:798-809 | Joining one more tick of the bar keeps the bucket its aggregate. |
| `AskBars.BucketedNext` | src/pynecore_ctrader/provider.py:792-809 | The other bars' buckets are untouched and still the aggregates. |
| `AskBars.AggregateIsOrderIndependent` | src/pynecore_ctrader/provider.py:763-764 | The same ticks in any other order, with any other page split, give the same bucket. |
| `AskBars.FetchAskBars` | src/pynecore_ctrader/provider.py:761-813 | For any page sizes the buckets are the aggregates of all the window's ticks, except the oldest one if and only if it lies at the window's start and a capped page ended right before it at the next millisecond. |
| `AskBars.NothingMissed` | src/pynecore_ctrader/provider.py:767-812 | A drain that reached the end is not that case. |
| `AskBars.OldestMissed` | src/pynecore_ctrader/provider.py:767-812 | A drain the guard ended is exactly that case. |
| `LiveBars.ReadPass` | src/pynecore_ctrader/provider.py:1350-1372 | A pass reads its window by window and brings only bars of it that the venue has published, what the first answer of each window gave, and all of them if it was covered, which it is if no answer is capped or fails; it is broken if and only if the request for one of its windows fails. |
| `LiveBars.PassBacks` | src/pynecore_ctrader/provider.py:1379-1393 | The ledger a covered pass leaves holds only times at which a covered read found the venue without the slot's bar, and each slot proven missing was so in two covered reads at least the evidence age apart. |
| `LiveBars.LiveStream.OnePass` | src/pynecore_ctrader/provider.py:1349-1393 | One pass is recorded with its window and what the venue had, and keeps the ledger backed. |
| `LiveBars.LiveStream.CollectGapHistory` | src/pynecore_ctrader/provider.py:1214-1428 | The bars are increasing, inside the window and exactly those its passes brought; a complete collection accounts for every slot as recovered, session-closed or long without a bar at the venue; it is complete if and only if its last pass was covered and every slot is brought, closed or proven empty by covered passes the evidence age apart; it makes another pass exactly while it is not complete, no pass failed for good, and attempts are left or a slot it lacks may not be published yet. |
| `LiveBars.LiveStream.OnReconnect` | src/pynecore_ctrader/_base.py:1378-1386 | With the backfill after it: the interrupted bar and the queue are dropped, delivered bars are kept, and a successful backfill accounts for every slot since the resume point; a failed one queues nothing. |
| `LiveBars.LiveStream.BackfillLiveGap` | src/pynecore_ctrader/provider.py:1430-1513 | Behind an empty queue: a complete collection is queued and accounts for its window, an incomplete one queues nothing. |
| `LiveBars.LiveStream.QueueAhead` | src/pynecore_ctrader/provider.py:1728-1732 | Collected bars go to the front of the queue and keep it gap-free up to the bar behind them. |
| `LiveBars.LiveStream.StartupBackfill` | src/pynecore_ctrader/provider.py:1522-1581 | A complete collection accounts for every slot since the warm-up and moves the resume point past the newest bar held; an incomplete one hands over nothing and moves nothing. |
| `LiveBars.LiveStream.IngestLiveBar` | src/pynecore_ctrader/provider.py:1848-1882 | Accepted exactly when newer than the last delivered bar and not older than the one in progress; a newer opening queues the tracked bar as closed. |
| `LiveBars.LiveStream.SpotEvent` | src/pynecore_ctrader/provider.py:1785-1807 | The queue grows exactly when some bar is not stale, by closed bars older than the bar in progress and that bar last; of increasing openings every one that is not stale, and the bar tracked before, is then queued as closed or in progress. |
| `LiveBars.LiveStream.RepairConnectedGap` | src/pynecore_ctrader/provider.py:1583-1732 | A complete collection puts the missing bars ahead of the candidate so that it follows gap-free, as it does if the connection stays and the first pass finds every missing slot; an incomplete one, or a connection or queue that changed meanwhile, changes nothing queued. |
| `LiveBars.LiveStream.DeliverFront` | src/pynecore_ctrader/provider.py:1809-1846 | At most one bar is delivered, the delivered bars stay increasing and gap-free; a closed front that skips nothing is delivered, one that skips slots has a bar delivered if the first pass finds them all, a stale one is dropped, and any other stays queued. |
| `LiveBars.LiveStream.PopFront` | src/pynecore_ctrader/provider.py:1840-1844 | The front bar leaves the queue and, if closed, becomes the newest delivered one. |
| `LiveBars.LiveStream.Splice` | src/pynecore_ctrader/provider.py:1728-1732 | Consecutive bars of a complete collection skip only closed or proven-empty slots. |
| `LiveBars.LiveStream.Run` | src/pynecore_ctrader/provider.py:1735-1846 | Over every run of a new stream: delivered closed bars strictly increase; each was streamed or brought by a pass made; and every slot skipped between two of them was session-closed, or two covered passes over windows that hold it, at least the evidence age apart, found that the venue had no bar for it. |
| `TokenRotation.Grant.Start` | src/pynecore_ctrader/_base.py:191-199 | A process starts with the stored pair, read without the lock, at any moment of another's rotation. |
| `TokenRotation.Grant.Acquire` | src/pynecore_ctrader/session.py:145-168 | The lock goes to one process at a time. |
| `TokenRotation.Grant.AdoptRotatedSession` | src/pynecore_ctrader/_base.py:754-779 | The stored pair is adopted exactly when it differs from the one last exchanged with the file, and it is then strictly newer than the pair in use, failed saves included. |
| `TokenRotation.Grant.Refresh` | src/pynecore_ctrader/_base.py:719-724 | Accepted exactly when the current refresh token is presented; while rotations are answered and saved it always is, and by a process holding the current pair. |
| `TokenRotation.Grant.Rotate` | src/pynecore_ctrader/_base.py:719-724 | A rotation extends the chain by one issue and leaves every process sound. |
| `TokenRotation.Grant.Save` | src/pynecore_ctrader/session.py:82-113 | A save makes the file the current pair; a failed one leaves file and reference pair as they were. |
| `TokenRotation.Grant.Crash` | src/pynecore_ctrader/session.py:116-142 | A dying process frees the lock and leaves the others sound. |
| `TokenRotation.Grant.Take` | src/pynecore_ctrader/_base.py:692-779 | Any step of any process that its state and the lock allow happens with that effect on processes, file, lock and venue; any other changes nothing. |
| `TokenRotation.Grant.RefreshAndPersist` | src/pynecore_ctrader/_base.py:692-737 | While every rotation is answered and saved: a process using the current pair rotates it, any other adopts it, and both end with the file's pair, which is the venue's; the pair in use never gets older. |
| `TokenRotation.Grant.Run` | src/pynecore_ctrader/_base.py:692-779 | Any interleaving of any number of processes: while every rotation was answered and saved, a free lock means the file holds the current pair, nothing was rejected, and each pair was refreshed exactly once in issue order; while the refresh token rotates, an unsaved pair is still the venue's current one. |
| `TokenRotation.RotationExtendsChain` | src/pynecore_ctrader/_base.py:719-726 | A rotation is made from the current pair while all are answered and saved. |
| `TokenRotation.RotationKeepsSound` | src/pynecore_ctrader/_base.py:719-726 | A rotation keeps the invariant of every process. |
| `TokenRotation.SaveKeepsSound` | src/pynecore_ctrader/_base.py:725-726 | The pair saved is the venue's current one, and a save, failed or not, keeps the invariant. |
| `TokenRotation.AdoptionKeepsSound` | src/pynecore_ctrader/_base.py:754-779 | Adoption moves to a strictly newer pair and keeps the invariant. |
| `TokenRotation.Reauthorization.Burst` | src/pynecore_ctrader/_base.py:781-854 | Of callers that saw the same loss, they try in turn until one succeeds and the generation grows by exactly one. |
| `ReportQueue.CloseReports.QueueExternalClose` | src/pynecore_ctrader/protection.py:3014-3043 | Suppressed exactly while a report of the position waits or after one halted or failed in the process; otherwise journalled and queued. |
| `ReportQueue.CloseReports.Defer` | src/pynecore_ctrader/protection.py:2750-2753 | A pending report joins the queue once, with its position closed to others, and at most one of a position is the process's own. |
| `ReportQueue.CloseReports.LoadCloseEvidence` | src/pynecore_ctrader/protection.py:2675-2753 | After it the unhandled reports are exactly the undone ones, each queued once unless its policy failed in this process. |
| `ReportQueue.CloseReports.HandleFirst` | src/pynecore_ctrader/protection.py:3894-3906 | The done record is written exactly when the policy settled or halted; the position is open again exactly when it settled and no other report of it waits. |
| `ReportQueue.CloseReports.FlushExternalInterventions` | src/pynecore_ctrader/protection.py:3883-3906 | Unless a policy raises or the process dies, the queue is empty and every report is done but those whose policy had failed; nothing counts as run that the policy did not run on. |
| `ReportQueue.CloseReports.JournalReportDone` | src/pynecore_ctrader/protection.py:3925-3931 | Exactly that report is no longer undone, and the position's openness is the only thing left to book. |
| `ReportQueue.CloseReports.ReopenPosition` | src/pynecore_ctrader/protection.py:3903-3906 | A halt leaves the position closed to reports; otherwise it is open if and only if no report of it waits. |
| `ReportQueue.CloseReports.EnsureVenueWritesAllowed` | src/pynecore_ctrader/protection.py:3908-3923 | A write is allowed if and only if every journalled report of the run, whichever process queued it, has its done record and no quarantine is latched; the policy then ran on all of them. |
| `ReportQueue.CloseReports.Restart` | src/pynecore_ctrader/protection.py:2730-2753 | After a crash at any point exactly the undone reports wait again. |
| `ReportQueue.CloseReports.Run` | src/pynecore_ctrader/protection.py:3908-3923 | Over any run of reports, flushes, writes and crashes: a write attempted leaves if and only if every report journalled before it was done by then and no quarantine is latched, and a done record implies the policy ran. |
| `ReportQueue.Journalled` | src/pynecore_ctrader/protection.py:3925-3931 | A pending record adds one undone report, a done record removes exactly its own. |

## Left out

- CloseClaims.ReportsAreExact: claims taken with an unknown share, or while another close was unresolved, are judged as the code does, without a truth to compare with.
- LostCloses.SoundIff: closes whose answers name their orders, entries that add to the share, and closes loaded from an earlier process, whose requests are unknown, do not come between the lost ones.
- LostCloses.PlainReportIsTrue: with nothing unseen the condition is shown to suffice, and each of its three parts to be needed by a failing family.
- AmbiguousClaims.WeighingIsRejudging: the weighing knows no answer fill, and it takes a further own order as this close's where the re-judgement leaves it as booked; the equality is stated without both.
- AmbiguousClaims.JudgeAmbiguous: the wording of the report and its candidate orders are not modelled.
- OwnCloses.Live: a fill without a deal id, and claims a close takes after its answer was lost, are not part of the life modelled.
- ShareReplay.FilledThenClosedNet: the order's own deals only open volume, and one journal row owns the order.
- DealWalk.Walk.FindFillDeal: the turn-taking of unfinished walks is not modelled.
- FillBooking.EntryRow.Run: each path is one atomic step of a single order's row; prices, position links and the cancel path are not modelled.
- LiveBars.LiveStream.OnReconnect: the connect that clears the queue and the backfill after it are one step; bars are named by their slot on the venue's fixed-length grid, so monthly bars are not modelled.
- LiveBars.LiveStream.RepairConnectedGap: what changed the connection or the queue meanwhile is a step of its own before or after the repair.
- TokenRotation.Grant.Start: a fresh consent from the command line, which writes the file without the lock, is not modelled.
- ReportQueue.CloseReports.Run: a run without a store, which journals nothing, and the core's quarantine rules are not modelled.
- Quotes, bar prices and ask columns of live bars; only which bars are delivered, and in which order.
- Protection level verdicts, the disappearance tracker, position shrink watches and own-order terms: rules of the core library or flat comparisons.
- Wire transport, message encoding, command line, consent flow, symbol metadata, volume quantization, time zones and holidays.
- Float rounding: tolerances are exact on integer cents.

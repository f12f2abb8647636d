/** One entry order's fills booked over four paths: pushed events, snapshot progress, promotion from
the deal history, and the cursor write of the dispatch answer.

All four share the row's fill cursor and the set of seen deals.  `deals` is the venue's ledger of
the order, oldest first; a deal is named by its index.  The deal history lists a deal only if its
status is FILLED (`whole`), not if it is PARTIALLY_FILLED.  Steps may come in any order, be lost or
repeated.
*/
module FillBooking {
  import opened Common

  datatype Deal = Deal(volume: nat, whole: bool)

  /** Volume of the first `n` deals. */
  function Executed(deals: seq<Deal>, n: nat): int
    requires n <= |deals|
  {
    if n == 0 then 0 else Executed(deals, n - 1) + deals[n - 1].volume
  }

  /** Volume the history lists of the first `n` deals. */
  function Listed(deals: seq<Deal>, n: nat): int
    requires n <= |deals|
  {
    if n == 0 then 0 else Listed(deals, n - 1) + if deals[n - 1].whole then deals[n - 1].volume else 0
  }

  /** The order's cumulative volume through deal `k`, and what the history lists of it. */
  function Through(deals: seq<Deal>, k: int): int
    requires 0 <= k < |deals|
  {
    Executed(deals, k + 1)
  }

  function ListedThrough(deals: seq<Deal>, k: int): int
    requires 0 <= k < |deals|
  {
    Listed(deals, k + 1)
  }

  /** Every deal has volume, and all of them together no more than the order asked for. */
  predicate Fills(deals: seq<Deal>, qty: int) {
    (forall i :: 0 <= i < |deals| ==> deals[i].volume > 0) && Executed(deals, |deals|) <= qty
  }

  lemma {:induction false} ExecutedGrows(deals: seq<Deal>, qty: int, i: nat, j: nat)
    requires i < j <= |deals| && Fills(deals, qty)
    ensures 0 <= Executed(deals, i) < Executed(deals, j)
  {
    if i < j - 1 {
      ExecutedGrows(deals, qty, i, j - 1);
    } else if i > 0 {
      ExecutedGrows(deals, qty, i - 1, i);
    }
  }

  /** Cumulative volumes are ordered as the deals are. */
  lemma ExecutedOrder(deals: seq<Deal>, qty: int, i: nat, j: nat)
    requires i <= |deals| && j <= |deals| && Fills(deals, qty)
    ensures Executed(deals, i) <= Executed(deals, j) <==> i <= j
    ensures 0 <= Executed(deals, i) <= qty
  {
    if i < j {
      ExecutedGrows(deals, qty, i, j);
    } else if j < i {
      ExecutedGrows(deals, qty, j, i);
    }
    if 0 < i {
      ExecutedGrows(deals, qty, 0, i);
    }
    if i < |deals| {
      ExecutedGrows(deals, qty, i, |deals|);
    }
  }

  lemma {:induction false} ListedGrows(deals: seq<Deal>, i: nat, j: nat)
    requires i <= j <= |deals|
    ensures 0 <= Listed(deals, i) <= Listed(deals, j) <= Executed(deals, j)
  {
    if i < j {
      ListedGrows(deals, i, j - 1);
    } else if i > 0 {
      ListedGrows(deals, i - 1, i - 1);
    }
  }

  /** The deals below `n` that the history lists and `seen` does not hold, oldest first, as far as
      `upTo` units of the history reach. */
  function Unbooked(deals: seq<Deal>, n: nat, upTo: int, seen: set<int>): seq<int>
    requires n <= |deals|
  {
    if n == 0 then []
    else Unbooked(deals, n - 1, upTo, seen)
         + if deals[n - 1].whole && Listed(deals, n) <= upTo && n - 1 !in seen then [n - 1] else []
  }

  /** The deals of the history's first `upTo` units. */
  function Covering(deals: seq<Deal>, n: nat, upTo: int): set<int>
    requires n <= |deals|
  {
    set k | 0 <= k < n && deals[k].whole && ListedThrough(deals, k) <= upTo
  }

  lemma {:induction false} UnbookedAre(deals: seq<Deal>, n: nat, upTo: int, seen: set<int>)
    requires n <= |deals|
    ensures Distinct(Unbooked(deals, n, upTo, seen))
    ensures forall k: int :: k in Unbooked(deals, n, upTo, seen) <==> k in Covering(deals, n, upTo) && k !in seen
  {
    if n > 0 {
      UnbookedAre(deals, n - 1, upTo, seen);
    }
  }

  /** Booking unseen deals keeps every booking single. */
  lemma BookedOnce(fees: seq<int>, more: seq<int>, seen: set<int>)
    requires Distinct(fees) && Distinct(more) && forall k :: k in fees ==> k in seen
    requires forall k :: k in more ==> k !in seen
    ensures Distinct(fees + more)
  {
    forall i, j | 0 <= i < j < |fees + more|
      ensures (fees + more)[i] != (fees + more)[j]
    {
      if i < |fees| <= j {
        assert fees[i] in fees && more[j - |fees|] in more;
      }
    }
  }

  // --- the row and what each step makes of it ----------------------------------------

  /** The deals executed so far; the row's `filled_qty`; whether the order id is linked to the row;
      the seen deals; the quantity of all emitted events and the deals whose commission they carried. */
  datatype Row = Row(executed: nat, cursor: int, linked: bool, seen: set<int>, emitted: int, fees: seq<int>)

  /** `Push` is a fill event of a deal, `Snapshot` a look at the working order with its first `shown`
      deals executed and perhaps a conclusive read of the history, `Promote` such a read of the
      vanished order, `Answer` the dispatch answer. */
  datatype Step = Execute | Push(deal: nat) | Snapshot(shown: nat, history: Option<nat>) | Promote(read: nat)
                | Answer(shown: nat)

  const Unfilled := Row(0, 0, false, {}, 0, [])

  predicate Enabled(deals: seq<Deal>, row: Row, step: Step)
    requires row.executed <= |deals|
  {
    match step
    case Execute => row.executed < |deals|
    case Push(k) => k < row.executed
    case Snapshot(shown, history) =>
      row.linked && shown <= row.executed && (history.Some? ==> history.value <= row.executed)
    case Promote(read) => row.linked && read <= row.executed && Listed(deals, read) > 0
    case Answer(shown) => shown <= row.executed
  }

  /** The row after the step: an emitting path moves the cursor and emits what it moved by, a push
      emits its deal's volume. */
  function Next(deals: seq<Deal>, qty: int, row: Row, step: Step): Row
    requires row.executed <= |deals| && Enabled(deals, row, step)
  {
    match step
    case Execute => row.(executed := row.executed + 1)
    case Push(k) =>
      if k in row.seen then row
      else if Through(deals, k) <= row.cursor then row.(linked := true, seen := row.seen + {k})
      else row.(linked := true, seen := row.seen + {k}, cursor := Min(qty, Through(deals, k)),
                emitted := row.emitted + deals[k].volume, fees := row.fees + [k])
    case Snapshot(shown, history) =>
      var filled := Executed(deals, shown);
      if filled <= row.cursor || filled >= qty then row
      else
        var read := if history.Some? && Listed(deals, history.value) >= filled then history.value else 0;
        Advanced(deals, row, read, filled, filled)
    case Promote(read) =>
      var total := Listed(deals, read);
      if Unbooked(deals, read, total, row.seen) == [] then row.(cursor := Max(row.cursor, Min(qty, total)))
      else Advanced(deals, row, read, total, Max(row.cursor, Min(qty, total)))
    case Answer(shown) => row.(linked := true, cursor := Max(row.cursor, Executed(deals, shown)))
  }

  /** The cursor moves to `cursor` and the move is emitted; the listed deals within `upTo` units are
      seen, and booked if anything was emitted. */
  function Advanced(deals: seq<Deal>, row: Row, read: nat, upTo: int, cursor: int): Row
    requires read <= |deals|
  {
    row.(cursor := cursor, emitted := row.emitted + cursor - row.cursor,
         seen := row.seen + Covering(deals, read, upTo),
         fees := row.fees + if cursor > row.cursor then Unbooked(deals, read, upTo, row.seen) else [])
  }

  /** The row after the first `n` steps; a step the venue's progress does not allow yet is skipped. */
  function RowAt(deals: seq<Deal>, qty: int, start: Row, steps: seq<Step>, n: nat): (row: Row)
    requires n <= |steps| && start.executed <= |deals|
    ensures row.executed <= |deals|
  {
    if n == 0 then start
    else
      var row := RowAt(deals, qty, start, steps, n - 1);
      if Enabled(deals, row, steps[n - 1]) then Next(deals, qty, row, steps[n - 1]) else row
  }

  // --- what every run keeps -------------------------------------------------------------

  /** The cursor is the volume of the first deals, or what the history lists of them, all seen. */
  predicate CursorAt(deals: seq<Deal>, row: Row, n: nat)
    requires n <= |deals|
  {
    || row.cursor == Executed(deals, n)
    || (row.cursor == Listed(deals, n) && forall k :: 0 <= k < n && deals[k].whole ==> k in row.seen)
  }

  /** The cursor counts executed volume, seen deals are counted, and each commission is booked once. */
  ghost predicate Good(deals: seq<Deal>, row: Row) {
    && row.executed <= |deals|
    && (exists n :: 0 <= n <= row.executed && CursorAt(deals, row, n))
    && (row.linked || (row.cursor == 0 && row.seen == {}))
    && (forall k :: k in row.seen ==> 0 <= k < row.executed && ListedThrough(deals, k) <= row.cursor)
    && Distinct(row.fees) && (forall k :: k in row.fees ==> k in row.seen)
  }

  lemma CursorWithinExecuted(deals: seq<Deal>, qty: int, row: Row)
    requires Fills(deals, qty) && Good(deals, row)
    ensures 0 <= row.cursor <= Executed(deals, row.executed) <= qty
  {
    var n :| 0 <= n <= row.executed && CursorAt(deals, row, n);
    ExecutedOrder(deals, qty, n, row.executed);
    ExecutedOrder(deals, qty, row.executed, |deals|);
    ListedGrows(deals, n, n);
  }

  lemma AdvanceKeepsGood(deals: seq<Deal>, qty: int, row: Row, read: nat, upTo: int, cursor: int, n: nat)
    requires Fills(deals, qty) && Good(deals, row) && row.linked && read <= row.executed && n <= row.executed
    requires row.cursor <= cursor && upTo <= cursor
    requires CursorAt(deals, Advanced(deals, row, read, upTo, cursor), n)
    ensures Good(deals, Advanced(deals, row, read, upTo, cursor))
  {
    UnbookedAre(deals, read, upTo, row.seen);
    BookedOnce(row.fees, Unbooked(deals, read, upTo, row.seen), row.seen);
  }

  lemma PushKeepsGood(deals: seq<Deal>, qty: int, row: Row, k: nat)
    requires Fills(deals, qty) && Good(deals, row) && k < row.executed
    ensures Good(deals, Next(deals, qty, row, Push(k)))
  {
    ExecutedOrder(deals, qty, k + 1, row.executed);
    ListedGrows(deals, k + 1, k + 1);
    var n :| 0 <= n <= row.executed && CursorAt(deals, row, n);
    var now := Next(deals, qty, row, Push(k));
    if now.cursor == row.cursor {
      assert CursorAt(deals, now, n);
    } else {
      assert CursorAt(deals, now, k + 1);
    }
  }

  lemma SnapshotKeepsGood(deals: seq<Deal>, qty: int, row: Row, shown: nat, history: Option<nat>)
    requires Fills(deals, qty) && Good(deals, row) && Enabled(deals, row, Snapshot(shown, history))
    ensures Good(deals, Next(deals, qty, row, Snapshot(shown, history)))
  {
    var filled := Executed(deals, shown);
    if filled > row.cursor && filled < qty {
      var read := if history.Some? && Listed(deals, history.value) >= filled then history.value else 0;
      assert CursorAt(deals, Advanced(deals, row, read, filled, filled), shown);
      AdvanceKeepsGood(deals, qty, row, read, filled, filled, shown);
    }
  }

  /** A read that lists nothing unseen does not move the cursor. */
  lemma SeenReadIsCounted(deals: seq<Deal>, row: Row, read: nat)
    requires Good(deals, row) && read <= row.executed && Listed(deals, read) > 0
    requires Unbooked(deals, read, Listed(deals, read), row.seen) == []
    ensures Listed(deals, read) <= row.cursor
  {
  }

  lemma {:induction false} LastListed(deals: seq<Deal>, n: nat) returns (k: nat)
    requires n <= |deals| && Listed(deals, n) > 0
    ensures k < n && deals[k].whole && ListedThrough(deals, k) == Listed(deals, n)
  {
    if deals[n - 1].whole {
      k := n - 1;
    } else {
      k := LastListed(deals, n - 1);
    }
  }

  lemma PromoteKeepsGood(deals: seq<Deal>, qty: int, row: Row, read: nat)
    requires Fills(deals, qty) && Good(deals, row) && Enabled(deals, row, Promote(read))
    ensures Good(deals, Next(deals, qty, row, Promote(read)))
  {
    var total := Listed(deals, read);
    ListedGrows(deals, read, read);
    ExecutedOrder(deals, qty, read, read);
    var n :| 0 <= n <= row.executed && CursorAt(deals, row, n);
    if Unbooked(deals, read, total, row.seen) == [] {
      SeenReadIsCounted(deals, row, read);
      assert Next(deals, qty, row, Promote(read)) == row;
    } else {
      var now := Advanced(deals, row, read, total, Max(row.cursor, total));
      forall k | 0 <= k < read && deals[k].whole
        ensures k in now.seen
      {
        ListedGrows(deals, k + 1, read);
        assert k in Covering(deals, read, total);
      }
      assert CursorAt(deals, now, if total > row.cursor then read else n);
      AdvanceKeepsGood(deals, qty, row, read, total, now.cursor, if total > row.cursor then read else n);
    }
  }

  /** Every step keeps the row good and never moves the cursor back. */
  lemma StepKeepsGood(deals: seq<Deal>, qty: int, row: Row, step: Step)
    requires Fills(deals, qty) && Good(deals, row) && Enabled(deals, row, step)
    ensures Good(deals, Next(deals, qty, row, step)) && row.cursor <= Next(deals, qty, row, step).cursor
  {
    CursorWithinExecuted(deals, qty, row);
    var n :| 0 <= n <= row.executed && CursorAt(deals, row, n);
    match step {
      case Execute => assert CursorAt(deals, Next(deals, qty, row, step), n);
      case Push(k) => PushKeepsGood(deals, qty, row, k);
                      ExecutedOrder(deals, qty, k + 1, |deals|);
      case Snapshot(shown, history) => SnapshotKeepsGood(deals, qty, row, shown, history);
      case Promote(read) => PromoteKeepsGood(deals, qty, row, read);
      case Answer(shown) =>
        var now := Next(deals, qty, row, step);
        assert CursorAt(deals, now, if now.cursor == row.cursor then n else shown);
    }
  }

  // --- booked at most once, and exactly when in order ------------------------------------

  /** A total the history lists falls strictly inside an execution it does not list. */
  predicate SplitsAt(deals: seq<Deal>, n: nat, k: nat)
    requires k < n <= |deals|
  {
    !deals[k].whole && Executed(deals, k) < Listed(deals, n) < Through(deals, k)
  }

  predicate NoSplit(deals: seq<Deal>) {
    forall n, k :: 0 <= k < n <= |deals| ==> !SplitsAt(deals, n, k)
  }

  /** A push is not processed ahead of an unprocessed earlier one, and the answer's cursor write does
      not precede the event of a fill. */
  predicate StepInOrder(deals: seq<Deal>, row: Row, step: Step)
    requires row.executed <= |deals| && Enabled(deals, row, step)
  {
    match step
    case Push(k) => k in row.seen || Executed(deals, k) <= row.cursor
    case Answer(shown) => Executed(deals, shown) <= row.cursor
    case _ => true
  }

  predicate InOrder(deals: seq<Deal>, qty: int, start: Row, steps: seq<Step>, n: nat)
    requires n <= |steps| && start.executed <= |deals|
  {
    n == 0 || (InOrder(deals, qty, start, steps, n - 1)
               && var row := RowAt(deals, qty, start, steps, n - 1);
                  Enabled(deals, row, steps[n - 1]) ==> StepInOrder(deals, row, steps[n - 1]))
  }

  /** Volume the cursor counts and no event carried. */
  function Deficit(row: Row): int {
    row.cursor - row.emitted
  }

  /** The cursor never stands inside an unseen execution. */
  lemma CursorOutside(deals: seq<Deal>, qty: int, row: Row, k: nat)
    requires Fills(deals, qty) && NoSplit(deals) && Good(deals, row) && k < row.executed && k !in row.seen
    ensures row.cursor <= Executed(deals, k) || Through(deals, k) <= row.cursor
  {
    var n :| 0 <= n <= row.executed && CursorAt(deals, row, n);
    ExecutedOrder(deals, qty, n, k);
    ExecutedOrder(deals, qty, k + 1, n);
    ListedGrows(deals, n, n);
    if k < n {
      assert !SplitsAt(deals, n, k);
    }
  }

  /** A step never makes up for volume not emitted, and keeps the balance exactly when in order. */
  lemma StepDeficit(deals: seq<Deal>, qty: int, row: Row, step: Step)
    requires Fills(deals, qty) && NoSplit(deals) && Good(deals, row) && Enabled(deals, row, step)
    ensures Deficit(row) <= Deficit(Next(deals, qty, row, step))
    ensures Deficit(row) == Deficit(Next(deals, qty, row, step)) <==> StepInOrder(deals, row, step)
  {
    if step.Push? && step.deal !in row.seen {
      CursorOutside(deals, qty, row, step.deal);
      ExecutedOrder(deals, qty, step.deal + 1, |deals|);
    } else if step.Promote? && Unbooked(deals, step.read, Listed(deals, step.read), row.seen) == [] {
      SeenReadIsCounted(deals, row, step.read);
    }
  }

  /** Every run keeps the row good, whatever is lost, repeated or reordered: each commission is booked
      at most once, and the cursor never falls and never exceeds what was executed. */
  lemma {:induction false} RunKeepsGood(deals: seq<Deal>, qty: int, start: Row, steps: seq<Step>, n: nat)
    requires Fills(deals, qty) && Good(deals, start) && n <= |steps|
    ensures var row := RowAt(deals, qty, start, steps, n);
            && Good(deals, row) && Distinct(row.fees)
            && start.cursor <= row.cursor <= Executed(deals, row.executed)
  {
    CursorWithinExecuted(deals, qty, RowAt(deals, qty, start, steps, 0));
    if n > 0 {
      RunKeepsGood(deals, qty, start, steps, n - 1);
      var row := RowAt(deals, qty, start, steps, n - 1);
      if Enabled(deals, row, steps[n - 1]) {
        StepKeepsGood(deals, qty, row, steps[n - 1]);
        CursorWithinExecuted(deals, qty, Next(deals, qty, row, steps[n - 1]));
      }
    }
  }

  /** Over any run: volume once missing from the events is never made up, and the balance of cursor
      and events stays what it was if and only if the run stays in order. */
  lemma {:induction false} RunDeficit(deals: seq<Deal>, qty: int, start: Row, steps: seq<Step>, n: nat)
    requires Fills(deals, qty) && NoSplit(deals) && Good(deals, start) && n <= |steps|
    ensures Deficit(start) <= Deficit(RowAt(deals, qty, start, steps, n))
    ensures Deficit(start) == Deficit(RowAt(deals, qty, start, steps, n)) <==> InOrder(deals, qty, start, steps, n)
  {
    if n > 0 {
      RunDeficit(deals, qty, start, steps, n - 1);
      RunKeepsGood(deals, qty, start, steps, n - 1);
      var row := RowAt(deals, qty, start, steps, n - 1);
      if Enabled(deals, row, steps[n - 1]) {
        StepDeficit(deals, qty, row, steps[n - 1]);
      }
    }
  }

  lemma UnfilledIsGood(deals: seq<Deal>)
    ensures Good(deals, Unfilled)
  {
    assert CursorAt(deals, Unfilled, 0);
  }

  /** A new order's run emits at most what the cursor counts, and exactly that if and only if it stays
      in order. */
  lemma EmittedIsCursorIff(deals: seq<Deal>, qty: int, steps: seq<Step>)
    requires Fills(deals, qty) && NoSplit(deals)
    ensures var row := RowAt(deals, qty, Unfilled, steps, |steps|);
            && row.emitted <= row.cursor <= Executed(deals, row.executed)
            && (row.emitted == row.cursor <==> InOrder(deals, qty, Unfilled, steps, |steps|))
  {
    UnfilledIsGood(deals);
    RunDeficit(deals, qty, Unfilled, steps, |steps|);
    RunKeepsGood(deals, qty, Unfilled, steps, |steps|);
  }

  /** A fill the dispatch answer counts ahead of its event is never emitted, whatever follows. */
  lemma AnsweredFillIsNeverEmitted(deals: seq<Deal>, qty: int, row: Row, shown: nat, steps: seq<Step>)
    requires Fills(deals, qty) && NoSplit(deals) && Good(deals, row) && shown <= row.executed
    requires Executed(deals, shown) > row.cursor >= row.emitted
    ensures var answered := Next(deals, qty, row, Answer(shown));
            var last := RowAt(deals, qty, answered, steps, |steps|);
            last.emitted + (Executed(deals, shown) - row.cursor) <= last.cursor <= Executed(deals, last.executed)
  {
    var answered := Next(deals, qty, row, Answer(shown));
    StepKeepsGood(deals, qty, row, Answer(shown));
    RunDeficit(deals, qty, answered, steps, |steps|);
    RunKeepsGood(deals, qty, answered, steps, |steps|);
  }

  /** An order whose executions are all listed as filled has no split. */
  lemma AllWholeNoSplit(deals: seq<Deal>)
    requires forall k :: 0 <= k < |deals| ==> deals[k].whole
    ensures NoSplit(deals)
  {
  }

  // --- which commissions are booked ---------------------------------------------------------

  /** The deals a step makes seen: the pushed one, those of the first units a snapshot's read covers, or
      those a promotion's read lists. */
  predicate SeenBy(deals: seq<Deal>, qty: int, row: Row, step: Step, k: int)
    requires row.executed <= |deals| && Enabled(deals, row, step)
  {
    match step
    case Execute => false
    case Push(deal) => k == deal
    case Snapshot(shown, history) =>
      && row.cursor < Executed(deals, shown) < qty
      && history.Some? && Listed(deals, history.value) >= Executed(deals, shown)
      && 0 <= k < history.value && deals[k].whole && ListedThrough(deals, k) <= Executed(deals, shown)
    case Promote(read) => 0 <= k < read && deals[k].whole
    case Answer(shown) => false
  }

  /** A deal's commission is booked by the step that first makes it seen, if that emits anything; no other
      step books it. */
  lemma StepBooks(deals: seq<Deal>, qty: int, row: Row, step: Step, k: int)
    requires Fills(deals, qty) && Good(deals, row) && Enabled(deals, row, step)
    ensures var now := Next(deals, qty, row, step);
            && (k in now.seen <==> k in row.seen || SeenBy(deals, qty, row, step, k))
            && (k in now.fees <==>
                k in row.fees || (now.emitted > row.emitted && SeenBy(deals, qty, row, step, k) && k !in row.seen))
  {
    match step {
      case Execute =>
      case Push(deal) => ExecutedOrder(deals, qty, deal + 1, |deals|);
      case Snapshot(shown, history) =>
        if history.Some? {
          UnbookedAre(deals, history.value, Executed(deals, shown), row.seen);
        }
      case Promote(read) =>
        UnbookedAre(deals, read, Listed(deals, read), row.seen);
        AllListed(deals, read);
        if Unbooked(deals, read, Listed(deals, read), row.seen) == [] {
          SeenReadIsCounted(deals, row, read);
          assert SeenBy(deals, qty, row, step, k) ==> k in Covering(deals, read, Listed(deals, read));
        }
      case Answer(shown) =>
    }
  }

  /** Every deal the cursor counts has its commission booked, and no other. */
  ghost predicate FeesComplete(deals: seq<Deal>, row: Row) {
    forall k: int :: Booked(deals, row, k)
  }

  /** A snapshot that moves the cursor comes with a read that covers it. */
  predicate ReadWithFees(deals: seq<Deal>, qty: int, row: Row, step: Step)
    requires row.executed <= |deals| && Enabled(deals, row, step)
  {
    step.Snapshot? && row.cursor < Executed(deals, step.shown) < qty ==>
      step.history.Some? && Listed(deals, step.history.value) >= Executed(deals, step.shown)
  }

  lemma {:induction false} AllListedIsExecuted(deals: seq<Deal>, n: nat)
    requires n <= |deals| && forall k :: 0 <= k < |deals| ==> deals[k].whole
    ensures Listed(deals, n) == Executed(deals, n)
  {
    if n > 0 {
      AllListedIsExecuted(deals, n - 1);
    }
  }

  /** Where all executions are listed, a step keeps the commissions complete if and only if it is in order
      and a snapshot comes with its read. */
  lemma StepKeepsFees(deals: seq<Deal>, qty: int, row: Row, step: Step)
    requires Fills(deals, qty) && Good(deals, row) && Enabled(deals, row, step) && FeesComplete(deals, row)
    requires forall k :: 0 <= k < |deals| ==> deals[k].whole
    ensures FeesComplete(deals, Next(deals, qty, row, step)) <==>
            StepInOrder(deals, row, step) && ReadWithFees(deals, qty, row, step)
  {
    var now := Next(deals, qty, row, step);
    StepKeepsGood(deals, qty, row, step);
    if StepInOrder(deals, row, step) && ReadWithFees(deals, qty, row, step) {
      forall k: int
        ensures Booked(deals, now, k)
      {
        FeeOf(deals, qty, row, step, k);
      }
    } else {
      StepLosesFee(deals, qty, row, step);
    }
  }

  /** Otherwise the commission of the newest deal the step passed over is missing. */
  lemma StepLosesFee(deals: seq<Deal>, qty: int, row: Row, step: Step)
    requires Fills(deals, qty) && Good(deals, row) && Enabled(deals, row, step) && FeesComplete(deals, row)
    requires !StepInOrder(deals, row, step) || !ReadWithFees(deals, qty, row, step)
    ensures !FeesComplete(deals, Next(deals, qty, row, step))
  {
    CursorWithinExecuted(deals, qty, row);
    var k := match step
      case Push(deal) => deal - 1
      case Snapshot(shown, history) => shown - 1
      case Answer(shown) => shown - 1
      case _ => 0;
    assert 0 <= k < row.executed && Through(deals, k) > row.cursor;
    StepBooks(deals, qty, row, step, k);
    if step.Push? {
      ExecutedOrder(deals, qty, k + 2, k + 1);
      ExecutedOrder(deals, qty, k + 2, |deals|);
    }
    assert Booked(deals, row, k) && !Booked(deals, Next(deals, qty, row, step), k);
  }

  /** A deal's commission is booked if and only if the cursor counts the deal. */
  predicate Booked(deals: seq<Deal>, row: Row, k: int) {
    k in row.fees <==> 0 <= k < row.executed && row.executed <= |deals| && Through(deals, k) <= row.cursor
  }

  lemma FeeOf(deals: seq<Deal>, qty: int, row: Row, step: Step, k: int)
    requires Fills(deals, qty) && Good(deals, row) && Enabled(deals, row, step) && Booked(deals, row, k)
    requires forall j :: 0 <= j < |deals| ==> deals[j].whole
    requires StepInOrder(deals, row, step) && ReadWithFees(deals, qty, row, step)
    ensures Booked(deals, Next(deals, qty, row, step), k)
  {
    StepBooks(deals, qty, row, step, k);
    CursorWithinExecuted(deals, qty, row);
    var n :| 0 <= n <= row.executed && CursorAt(deals, row, n);
    AllListedIsExecuted(deals, n);
    if 0 <= k < |deals| {
      AllListedIsExecuted(deals, k + 1);
      ExecutedOrder(deals, qty, k + 1, n);
      ExecutedOrder(deals, qty, k + 1, row.executed);
      AllListedIsExecuted(deals, if step.Push? then step.deal + 1 else 0);
      StepCounts(deals, qty, row, step, n, k);
    }
  }

  /** What the step makes seen it counts, and the cursor passes over no other deal. */
  lemma StepCounts(deals: seq<Deal>, qty: int, row: Row, step: Step, n: nat, k: nat)
    requires Fills(deals, qty) && n <= row.executed <= |deals| && Enabled(deals, row, step) && k < |deals|
    requires row.cursor == Executed(deals, n) && forall j :: 0 <= j < |deals| ==> deals[j].whole
    requires StepInOrder(deals, row, step) && ReadWithFees(deals, qty, row, step)
    requires step.Push? ==> step.deal !in row.seen || Through(deals, step.deal) <= row.cursor
    ensures k < row.executed && row.cursor < Through(deals, k) ==>
              (Through(deals, k) <= Next(deals, qty, row, step).cursor <==> SeenBy(deals, qty, row, step, k))
  {
    var reach := match step
      case Push(deal) => deal + 1
      case Snapshot(shown, history) => shown
      case Promote(read) => read
      case _ => n;
    AllListedIsExecuted(deals, k + 1);
    AllListedIsExecuted(deals, if step.Promote? then reach else 0);
    ExecutedOrder(deals, qty, reach, |deals|);
    ExecutedOrder(deals, qty, k + 1, reach);
    ExecutedOrder(deals, qty, k + 1, n);
    match step {
      case Push(deal) =>
        ExecutedOrder(deals, qty, deal, n);
        ExecutedOrder(deals, qty, deal + 1, n);
      case Snapshot(shown, history) =>
        if history.Some? {
          AllListedIsExecuted(deals, history.value);
          ExecutedOrder(deals, qty, shown, history.value);
        }
      case _ =>
    }
  }

  predicate FeesInOrder(deals: seq<Deal>, qty: int, start: Row, steps: seq<Step>, n: nat)
    requires n <= |steps| && start.executed <= |deals|
  {
    n == 0 || (FeesInOrder(deals, qty, start, steps, n - 1)
               && var row := RowAt(deals, qty, start, steps, n - 1);
                  Enabled(deals, row, steps[n - 1]) ==>
                    StepInOrder(deals, row, steps[n - 1]) && ReadWithFees(deals, qty, row, steps[n - 1]))
  }

  /** So over a run of a new order in order, its snapshots read, exactly the deals the cursor counts have
      their commission booked. */
  lemma {:induction false} RunBooksFees(deals: seq<Deal>, qty: int, steps: seq<Step>, n: nat)
    requires Fills(deals, qty) && n <= |steps| && FeesInOrder(deals, qty, Unfilled, steps, n)
    requires forall k :: 0 <= k < |deals| ==> deals[k].whole
    ensures FeesComplete(deals, RowAt(deals, qty, Unfilled, steps, n))
  {
    if n > 0 {
      RunBooksFees(deals, qty, steps, n - 1);
      UnfilledIsGood(deals);
      RunKeepsGood(deals, qty, Unfilled, steps, n - 1);
      var row := RowAt(deals, qty, Unfilled, steps, n - 1);
      if Enabled(deals, row, steps[n - 1]) {
        StepKeepsFees(deals, qty, row, steps[n - 1]);
      }
    } else {
      forall k | 0 <= k < |deals|
        ensures Through(deals, k) > 0
      {
        ExecutedOrder(deals, qty, k + 1, 0);
      }
    }
  }

  /** A snapshot without such a read books no commission, and the pushes after it none either: the commission
      of the deals it counted waits for a promotion that moves the cursor further. */
  lemma UnreadSnapshotLosesFee(deals: seq<Deal>, qty: int, k: nat)
    requires Fills(deals, qty) && 0 <= k < |deals| && Through(deals, k) < qty
    ensures var row := Row(k + 1, Executed(deals, k), true, {}, 0, []);
            var shown := Next(deals, qty, row, Snapshot(k + 1, None));
            && shown.cursor == Through(deals, k) && shown.fees == []
            && Next(deals, qty, shown, Push(k)).fees == [] && k in Next(deals, qty, shown, Push(k)).seen
  {
    ExecutedOrder(deals, qty, k, k + 1);
    ExecutedOrder(deals, qty, k + 1, k);
  }

  // --- without that, volume is booked twice ------------------------------------------------

  /** All deals execute, the order is linked, its history promoted, then the push of the split
      execution arrives, and a snapshot shows them all. */
  function SplitRun(n: nat, k: nat): seq<Step> {
    seq(n, i => Execute) + [Answer(0), Promote(n), Push(k), Snapshot(n, None)]
  }

  lemma {:induction false} ExecutesAll(deals: seq<Deal>, qty: int, n: nat, k: nat, m: nat)
    requires m <= n <= |deals|
    ensures RowAt(deals, qty, Unfilled, SplitRun(n, k), m) == Unfilled.(executed := m)
  {
    if m > 0 {
      ExecutesAll(deals, qty, n, k, m - 1);
      assert SplitRun(n, k)[m - 1] == Execute;
    }
  }

  /** A listed total inside an unlisted execution (3 units not listed, then 2 listed, say) is booked,
      and the execution's push then books all of it: the events carry more than the cursor counts,
      and with the next snapshot more than was executed. */
  lemma SplitOverbooks(deals: seq<Deal>, qty: int, n: nat, k: nat)
    requires Fills(deals, qty) && k < n <= |deals| && SplitsAt(deals, n, k)
    ensures var row := RowAt(deals, qty, Unfilled, SplitRun(n, k), n + 3);
            row.cursor == Through(deals, k) < row.emitted == Listed(deals, n) + deals[k].volume
    ensures var last := RowAt(deals, qty, Unfilled, SplitRun(n, k), n + 4);
            last.cursor < last.emitted && (Executed(deals, n) < qty ==> Executed(deals, last.executed) < last.emitted)
  {
    var steps := SplitRun(n, k);
    ExecutesAll(deals, qty, n, k, n);
    assert steps[n] == Answer(0) && steps[n + 1] == Promote(n) && steps[n + 2] == Push(k);
    assert steps[n + 3] == Snapshot(n, None);
    ListedGrows(deals, n, n);
    ExecutedOrder(deals, qty, n, n);
    ExecutedOrder(deals, qty, k, k + 1);
    ExecutedOrder(deals, qty, k + 1, n);
    var linked := Unfilled.(executed := n, linked := true);
    assert RowAt(deals, qty, Unfilled, steps, n + 1) == linked;
    UnbookedAre(deals, n, Listed(deals, n), {});
    var last := LastListed(deals, n);
    assert last in Covering(deals, n, Listed(deals, n));
    var promoted := RowAt(deals, qty, Unfilled, steps, n + 2);
    assert promoted == Advanced(deals, linked, n, Listed(deals, n), Listed(deals, n));
    assert k !in promoted.seen;
  }

  predicate Overbooks(deals: seq<Deal>, qty: int, steps: seq<Step>) {
    var row := RowAt(deals, qty, Unfilled, steps, |steps|); row.emitted > row.cursor
  }

  /** No run emits more than the cursor counts: if and only if no total the history lists falls
      inside an execution it does not list. */
  lemma NeverOverbookedIff(deals: seq<Deal>, qty: int)
    requires Fills(deals, qty)
    ensures NoSplit(deals) <==> forall steps :: !Overbooks(deals, qty, steps)
  {
    if NoSplit(deals) {
      forall steps
        ensures !Overbooks(deals, qty, steps)
      {
        EmittedIsCursorIff(deals, qty, steps);
      }
    } else {
      var n, k :| 0 <= k < n <= |deals| && SplitsAt(deals, n, k);
      SplitOverbooks(deals, qty, n, k);
      assert |SplitRun(n, k)| == n + 4;
      assert Overbooks(deals, qty, SplitRun(n, k));
    }
  }

  // --- the code ----------------------------------------------------------------------------

  /** `_deals_covering`: the oldest listed executions within the first `filled` units. */
  method DealsCovering(deals: seq<Deal>, read: nat, filled: int) returns (covered: set<int>)
    requires read <= |deals|
    ensures covered == Covering(deals, read, filled)
  {
    covered := {};
    var total := 0;
    for i := 0 to read
      invariant total == Listed(deals, i) && covered == Covering(deals, i, filled)
    {
      if deals[i].whole {
        total := total + deals[i].volume;
        if total > filled {
          CoveringEnds(deals, i, read, filled);
          return;
        }
        covered := covered + {i};
      }
      assert Covering(deals, i + 1, filled) == Covering(deals, i, filled)
                                               + if deals[i].whole && Listed(deals, i + 1) <= filled then {i} else {};
    }
  }

  /** Once the listed total exceeds `filled`, no later deal is within it. */
  lemma CoveringEnds(deals: seq<Deal>, i: nat, read: nat, filled: int)
    requires i < read <= |deals| && deals[i].whole && Listed(deals, i + 1) > filled
    ensures Covering(deals, read, filled) == Covering(deals, i, filled)
  {
    forall k | i <= k < read
      ensures ListedThrough(deals, k) > filled
    {
      ListedGrows(deals, i + 1, k + 1);
    }
  }

  class EntryRow {
    const qty: int
    /** The order's executions, and how many have happened. */
    const deals: seq<Deal>
    var executed: nat
    /** The row's `filled_qty`, whether the order id is linked to the row, and the seen deals. */
    var cursor: int
    var linked: bool
    var seen: set<int>
    /** The quantity of all emitted events, and the deals whose commission they carried. */
    var emitted: int
    var fees: seq<int>

    constructor (qty: int, deals: seq<Deal>)
      requires Fills(deals, qty)
      ensures Valid() && this.qty == qty && this.deals == deals && View() == Unfilled
    {
      this.qty, this.deals := qty, deals;
      executed, cursor, linked, seen, emitted, fees := 0, 0, false, {}, 0, [];
      new;
      UnfilledIsGood(deals);
    }

    function View(): Row
      reads this
    {
      Row(executed, cursor, linked, seen, emitted, fees)
    }

    ghost predicate Valid()
      reads this
    {
      Fills(deals, qty) && Good(deals, View())
    }

    predicate CanTake(step: Step)
      reads this
    {
      executed <= |deals| && Enabled(deals, View(), step)
    }

    /** The venue executes the order's next deal. */
    method Execute()
      requires Valid() && CanTake(Step.Execute)
      modifies this`executed
      ensures Valid() && View() == Next(deals, qty, old(View()), Step.Execute)
    {
      StepKeepsGood(deals, qty, View(), Step.Execute);
      executed := executed + 1;
    }

    /** `_translate_exec_event` for a fill of the entry: a deal seen before is dropped; one whose
        cumulative volume the cursor had already reached is only remembered; any other one advances
        the cursor and is emitted with its commission. */
    method Push(k: nat)
      requires Valid() && CanTake(Step.Push(k))
      modifies this`cursor, this`linked, this`seen, this`emitted, this`fees
      ensures Valid() && View() == Next(deals, qty, old(View()), Step.Push(k))
      ensures emitted - old(emitted) ==
              if k !in old(seen) && Through(deals, k) > old(cursor) then deals[k].volume else 0
    {
      StepKeepsGood(deals, qty, View(), Step.Push(k));
      ExecutedOrder(deals, qty, k + 1, 0);
      ghost var next := Next(deals, qty, View(), Step.Push(k));
      if k in seen {
        assert View() == next;
        return;
      }
      var prior := if linked then Some(cursor) else None;
      var cumulative := Through(deals, k);
      seen := seen + {k};
      if !linked {
        cursor, linked := cumulative, true;
      }
      if prior.Some? && cumulative <= prior.value {
        assert View() == next;
        return;
      }
      cursor := Min(qty, Max(cursor, cumulative));
      emitted := emitted + deals[k].volume;
      fees := fees + [k];
      assert View() == next;
    }

    /** `_reconcile_working_row`: a snapshot shows the order with its first `shown` deals executed
        and still working; `history` tells how many deals had executed when its conclusive history
        read was made. */
    method Snapshot(shown: nat, history: Option<nat>)
      requires Valid() && CanTake(Step.Snapshot(shown, history))
      modifies this`cursor, this`seen, this`emitted, this`fees
      ensures Valid() && View() == Next(deals, qty, old(View()), Step.Snapshot(shown, history))
      ensures emitted - old(emitted) == cursor - old(cursor)
      ensures cursor == if Executed(deals, shown) < qty then Max(old(cursor), Executed(deals, shown)) else old(cursor)
    {
      StepKeepsGood(deals, qty, View(), Step.Snapshot(shown, history));
      ghost var next := Next(deals, qty, View(), Step.Snapshot(shown, history));
      var filled := Executed(deals, shown);
      if filled <= cursor || filled >= qty {
        assert View() == next;
        return;
      }
      var fillQty := filled - cursor;
      var covered, booked := {}, [];
      if history.Some? && Listed(deals, history.value) >= filled {
        covered := DealsCovering(deals, history.value, filled);
        booked := Unbooked(deals, history.value, filled, seen);
      }
      cursor := filled;
      seen := seen + covered;
      emitted := emitted + fillQty;
      fees := fees + booked;
      assert cursor == next.cursor && seen == next.seen && emitted == next.emitted && fees == next.fees;
    }

    /** `_promote_from_deal` on a position still open: the conclusive history lists the FILLED ones of
        the order's first `read` deals. */
    method Promote(read: nat)
      requires Valid() && CanTake(Step.Promote(read))
      modifies this`cursor, this`seen, this`emitted, this`fees
      ensures Valid() && View() == Next(deals, qty, old(View()), Step.Promote(read))
      ensures emitted - old(emitted) == cursor - old(cursor) && cursor == Max(old(cursor), Listed(deals, read))
    {
      StepKeepsGood(deals, qty, View(), Step.Promote(read));
      CursorWithinExecuted(deals, qty, View());
      ListedGrows(deals, read, read);
      ExecutedOrder(deals, qty, read, read);
      AllListed(deals, read);
      var unbooked := Unbooked(deals, read, Listed(deals, read), seen);
      UnbookedAre(deals, read, Listed(deals, read), seen);
      var cumulative := Min(qty, Max(cursor, Listed(deals, read)));
      var fillQty := cumulative - cursor;
      ghost var next := Next(deals, qty, View(), Step.Promote(read));
      if unbooked == [] {
        SeenReadIsCounted(deals, View(), read);
      }
      cursor := cumulative;
      if unbooked == [] {
        assert View() == next;
        return;
      }
      seen := seen + Elements(unbooked);
      assert cursor == next.cursor && seen == next.seen;
      if fillQty <= 0 {
        assert fees == next.fees && emitted == next.emitted;
        return;
      }
      emitted := emitted + fillQty;
      fees := fees + unbooked;
      assert View() == next;
    }

    /** `_persist_entry`: the dispatch answer shows the first `shown` deals executed; it emits nothing. */
    method Answer(shown: nat)
      requires Valid() && CanTake(Step.Answer(shown))
      modifies this`cursor, this`linked
      ensures Valid() && View() == Next(deals, qty, old(View()), Step.Answer(shown))
      ensures cursor == Max(old(cursor), Executed(deals, shown)) && linked
    {
      StepKeepsGood(deals, qty, View(), Step.Answer(shown));
      cursor := Max(Executed(deals, shown), cursor);
      linked := true;
    }

    /** Any run: steps the venue's progress does not allow yet are skipped.  Whatever the
        interleaving, losses and repetitions, each commission is booked once and the cursor never
        falls; where the history splits no execution, the events make up the cursor's advance if and
        only if the run stayed in order. */
    method Run(steps: seq<Step>)
      requires Valid()
      modifies this
      ensures Valid() && View() == RowAt(deals, qty, old(View()), steps, |steps|)
      ensures Distinct(fees) && old(cursor) <= cursor <= Executed(deals, executed)
      ensures NoSplit(deals) ==>
                && emitted - old(emitted) <= cursor - old(cursor)
                && (emitted - old(emitted) == cursor - old(cursor) <==>
                    InOrder(deals, qty, old(View()), steps, |steps|))
    {
      for i := 0 to |steps|
        invariant Valid() && View() == RowAt(deals, qty, old(View()), steps, i)
      {
        if CanTake(steps[i]) {
          match steps[i]
          case Execute => Execute();
          case Push(k) => Push(k);
          case Snapshot(shown, history) => Snapshot(shown, history);
          case Promote(read) => Promote(read);
          case Answer(shown) => Answer(shown);
        }
      }
      RunKeepsGood(deals, qty, old(View()), steps, |steps|);
      if NoSplit(deals) {
        RunDeficit(deals, qty, old(View()), steps, |steps|);
      }
    }
  }

  /** Every listed deal is within the listed total. */
  lemma AllListed(deals: seq<Deal>, read: nat)
    requires read <= |deals|
    ensures Covering(deals, read, Listed(deals, read)) == set k | 0 <= k < read && deals[k].whole
  {
    forall k | 0 <= k < read
      ensures ListedThrough(deals, k) <= Listed(deals, read)
    {
      ListedGrows(deals, k + 1, read);
    }
  }
}

/** The live bar stream: reconnect backfill, live trendbars, connected-gap repair and delivery.

A bar of a fixed-length period is named by its slot on the venue's own grid, so the next bar of
slot `s` is slot `s + 1`.  The session calendar is an arbitrary oracle.
*/
module LiveBars {
  import opened Common
  import Sorting
  import TrendbarDrain

  /** Slots one history window spans. */
  const WINDOW := 2000

  /** `history` marks a bar a history collection brought; such a bar is delivered unchecked. */
  datatype Bar = Bar(slot: int, closed: bool, history: bool)

  /** The venue during one pass over a missing window: the bars it has `published`, its answer to
      request `k` of the window from `lo`, the windows whose request fails, for good or not, when the
      pass ends, and the first slot too young to be published for certain. */
  datatype Pass = Pass(
    published: set<int>,
    server: (int, nat, int) -> TrendbarDrain.Reply,
    fails: int -> bool,
    transient: bool,
    now: int,
    unpublishedFrom: int)

  datatype Step =
    | Reconnect(nowSlot: int, passes: seq<Pass>)
    | Spot(slots: seq<int>)
    | Deliver(passes: seq<Pass>, changed: bool)
    | Startup(since: int, nowSlot: int, passes: seq<Pass>)

  /** The venue's bars from slot `lo` on. */
  function From(published: set<int>, lo: int): set<int> {
    set b | b in published && lo <= b
  }

  /** The venue serves the bars it has published, capped at either end as it likes. */
  ghost predicate Honest(pass: Pass) {
    forall lo, k: nat, upper :: TrendbarDrain.Honest(From(pass.published, lo), upper, pass.server(lo, k, upper))
  }

  /** No request of the pass fails, and no first answer is capped. */
  ghost predicate Whole(pass: Pass) {
    (forall lo :: !pass.fails(lo)) && forall lo, upper :: !pass.server(lo, 0, upper).hasMore
  }

  ghost predicate AllHonest(passes: seq<Pass>) {
    forall i :: 0 <= i < |passes| ==> Honest(passes[i])
  }

  // --- the record of what was read -------------------------------------------------------

  /** One pass made: its window, when it ended, the bars it brought, whether it was covered, and what
      the venue had published. */
  datatype Read = Read(cursor: int, ceiling: int, now: int, bars: set<int>, covered: bool, published: set<int>)

  /** A pass brings bars of its window that the venue has, and all of them if it was covered. */
  predicate Sound(read: Read) {
    && (forall b :: b in read.bars ==> b in read.published && read.cursor <= b < read.ceiling)
    && (read.covered ==> forall b :: b in read.published && read.cursor <= b < read.ceiling ==> b in read.bars)
  }

  /** The pass covered a window with the slot in it, and the venue had no bar for the slot. */
  predicate Missed(read: Read, slot: int) {
    read.covered && read.cursor <= slot < read.ceiling && slot !in read.published
  }

  predicate MissedAt(log: seq<Read>, slot: int, time: int) {
    exists j :: 0 <= j < |log| && Missed(log[j], slot) && log[j].now == time
  }

  /** The venue still had no bar for the slot at least `age` after a pass had missed it. */
  predicate LongMissing(log: seq<Read>, age: nat, slot: int) {
    exists i, j :: 0 <= i < |log| && 0 <= j < |log| && Missed(log[i], slot) && Missed(log[j], slot)
                   && log[i].now - log[j].now >= age
  }

  /** The slot's bar was streamed, or brought by a pass. */
  predicate Known(log: seq<Read>, streamed: set<int>, slot: int) {
    slot in streamed || exists k :: 0 <= k < |log| && slot in log[k].bars
  }

  /** A read of the log from place `from` on brought the bar. */
  ghost predicate BroughtBy(log: seq<Read>, from: nat, bar: int) {
    exists k :: from <= k < |log| && bar in log[k].bars
  }

  lemma BroughtByMore(log: seq<Read>, from: nat, read: Read, bar: int)
    requires from <= |log|
    ensures BroughtBy(log + [read], from, bar) <==> BroughtBy(log, from, bar) || bar in read.bars
  {
    var more := log + [read];
    if BroughtBy(log, from, bar) {
      var k :| from <= k < |log| && bar in log[k].bars;
      assert bar in more[k].bars;
    }
    if bar in read.bars {
      assert bar in more[|log|].bars;
    }
    if BroughtBy(more, from, bar) {
      var k :| from <= k < |more| && bar in more[k].bars;
      assert k < |log| ==> bar in log[k].bars;
    }
  }

  /** What was read stays read. */
  lemma ReadsStay(log: seq<Read>, more: seq<Read>, age: nat, streamed: set<int>, slot: int, time: int)
    requires log <= more
    ensures MissedAt(log, slot, time) ==> MissedAt(more, slot, time)
    ensures LongMissing(log, age, slot) ==> LongMissing(more, age, slot)
    ensures Known(log, streamed, slot) ==> Known(more, streamed, slot)
  {
  }

  /** The reads of a log are sound, and every time in the ledger of missing slots is one at which the
      venue had no bar for the slot. */
  ghost predicate Backed(log: seq<Read>, firstMissing: map<int, int>) {
    && (forall k :: 0 <= k < |log| ==> Sound(log[k]))
    && forall s :: s in firstMissing ==> MissedAt(log, s, firstMissing[s])
  }

  /** The log grew by reads of the window, by the first passes in their order. */
  ghost predicate Reads(log: seq<Read>, more: seq<Read>, cursor: int, ceiling: int, passes: seq<Pass>) {
    && log <= more && |more| - |log| <= |passes|
    && forall i :: 0 <= i < |more| - |log| ==> ReadBy(more[|log| + i], cursor, ceiling, passes[i])
  }

  ghost predicate ReadBy(read: Read, cursor: int, ceiling: int, pass: Pass) {
    && read.cursor == cursor && read.ceiling == ceiling && read.published == pass.published && read.now == pass.now
    && (Whole(pass) ==> read.covered)
  }

  /** A request of the pass fails, the first for the window from `query` on. */
  predicate Breaks(pass: Pass, query: int, ceiling: int)
    decreases ceiling - query
  {
    query < ceiling && (pass.fails(query) || Breaks(pass, Min(query + WINDOW, ceiling), ceiling))
  }

  /** The bars hold what the first answers for the windows from `query` on gave, up to one that fails. */
  predicate KeepsAnswers(pass: Pass, bars: set<int>, cursor: int, query: int, ceiling: int)
    decreases ceiling - query
  {
    query < ceiling && !pass.fails(query) ==>
      var end := Min(query + WINDOW, ceiling);
      && (forall b :: b in pass.server(query, 0, end).bars && cursor <= b < end ==> b in bars)
      && KeepsAnswers(pass, bars, cursor, end, ceiling)
  }

  /** When a slot that no read from place `from` on brought was first missed: what the ledger said before, or
      the first covered read since. */
  function FirstMissed(was: map<int, int>, log: seq<Read>, from: nat, slot: int): Option<int>
    requires from <= |log|
  {
    if slot in was then Some(was[slot])
    else if |log| == from then None
    else
      var older := FirstMissed(was, log[..|log| - 1], from, slot);
      if older.None? && log[|log| - 1].covered then Some(log[|log| - 1].now) else older
  }

  /** Some covered read from place `from` on ended `age` or more after that. */
  predicate ProvenEmpty(was: map<int, int>, age: nat, log: seq<Read>, from: nat, slot: int)
    requires from <= |log|
  {
    from < |log| && (ProvenEmpty(was, age, log[..|log| - 1], from, slot)
                     || (log[|log| - 1].covered
                         && log[|log| - 1].now - FirstMissed(was, log, from, slot).value >= age))
  }

  /** The ledger and the proven slots, of those of the window that are not recovered, after the reads. */
  predicate Ledgers(
    was: map<int, int>, age: nat, log: seq<Read>, from: nat, cursor: int, ceiling: int, recovered: set<int>,
    ledger: map<int, int>, empty: set<int>)
    requires from <= |log|
  {
    forall s :: cursor <= s < ceiling && s !in recovered ==>
      && FirstMissed(was, log, from, s) == (if s in ledger then Some(ledger[s]) else None)
      && (s in empty <==> ProvenEmpty(was, age, log, from, s))
  }

  /** One more pass; `more` is what it brought. */
  lemma LedgersNext(
    was: map<int, int>, age: nat, log: seq<Read>, from: nat, read: Read, recovered: set<int>, ledger: map<int, int>,
    empty: set<int>, now: map<int, int>, proven: set<int>)
    requires from <= |log| && Ledgers(was, age, log, from, read.cursor, read.ceiling, recovered, ledger, empty)
    requires Noted(ledger, read, recovered, age, now, proven)
    ensures Ledgers(was, age, log + [read], from, read.cursor, read.ceiling, recovered + read.bars, now, empty + proven)
  {
    var more := log + [read];
    assert more[..|more| - 1] == log;
  }

  /** What a read makes of the ledger, and the slots it proves empty. */
  ghost predicate Noted(
    was: map<int, int>, read: Read, recovered: set<int>, age: nat, now: map<int, int>, proven: set<int>)
  {
    if read.covered then
      && (forall s :: s in now <==> read.cursor <= s < read.ceiling && s !in recovered + read.bars)
      && (forall s :: s in now ==> now[s] == if s in was then was[s] else read.now)
      && forall s :: s in proven <==> s in now && read.now - now[s] >= age
    else now == was && proven == {}
  }

  /** One pass over `[cursor, ceiling)`, window by window. */
  method ReadPass(cursor: int, ceiling: int, pass: Pass) returns (bars: set<int>, covered: bool, broken: bool)
    requires Honest(pass)
    ensures Sound(Read(cursor, ceiling, pass.now, bars, covered, pass.published))
    ensures broken <==> Breaks(pass, cursor, ceiling)
    ensures broken ==> !covered
    ensures Whole(pass) ==> covered
    ensures KeepsAnswers(pass, bars, cursor, cursor, ceiling)
  {
    bars, covered := {}, true;
    var query := cursor;
    while query < ceiling
      invariant cursor <= query
      invariant forall b :: b in bars ==> b in pass.published && cursor <= b < ceiling
      invariant covered ==> forall b :: b in pass.published && cursor <= b < query && b < ceiling ==> b in bars
      invariant Whole(pass) ==> covered
      invariant Breaks(pass, cursor, ceiling) <==> Breaks(pass, query, ceiling)
      invariant forall more: set<int> :: bars <= more && KeepsAnswers(pass, more, cursor, query, ceiling) ==>
                  KeepsAnswers(pass, more, cursor, cursor, ceiling)
      decreases ceiling - query
    {
      if pass.fails(query) {
        return bars, false, true;
      }
      var end := Min(query + WINDOW, ceiling);
      var held, complete := TrendbarDrain.FetchWindow(
        query, end, From(pass.published, query), (k: nat, upper: int) => pass.server(query, k, upper),
        TrendbarDrain.EitherEnd);
      covered := covered && complete;
      bars := bars + set b | b in held && cursor <= b < end;
      query := end;
    }
    broken := false;
  }

  /** The slots of the ledger that are still missing. */
  method DropRecovered(was: map<int, int>, cursor: int, ceiling: int, recovered: set<int>)
    returns (ledger: map<int, int>)
    ensures forall s :: s in ledger <==> s in was && cursor <= s < ceiling && s !in recovered
    ensures forall s :: s in ledger ==> ledger[s] == was[s]
  {
    ledger := was;
    var rest := was.Keys;
    while exists s :: s in rest
      invariant forall s :: s in ledger ==> s in was && ledger[s] == was[s]
      invariant forall s :: s in was && s !in rest ==> (s in ledger <==> cursor <= s < ceiling && s !in recovered)
      invariant forall s :: s in rest ==> s in ledger
      decreases rest
    {
      var slot :| slot in rest;
      if !(cursor <= slot < ceiling) || slot in recovered {
        ledger := ledger - {slot};
      }
      rest := rest - {slot};
    }
  }

  /** The ledger of missing slots after a covered pass: slots no longer missing leave it, the others
      keep the time they were first missed, and are proven once that is long enough ago. */
  method NoteMissing(was: map<int, int>, cursor: int, ceiling: int, recovered: set<int>, now: int, age: nat)
    returns (ledger: map<int, int>, proven: set<int>)
    ensures forall s :: s in ledger <==> cursor <= s < ceiling && s !in recovered
    ensures forall s :: s in ledger ==> ledger[s] == if s in was then was[s] else now
    ensures forall s :: s in proven <==> s in ledger && now - ledger[s] >= age
  {
    ledger := DropRecovered(was, cursor, ceiling, recovered);
    proven := {};
    var slot := cursor;
    while slot < ceiling
      invariant cursor <= slot <= Max(cursor, ceiling)
      invariant forall s :: s in ledger <==> cursor <= s < ceiling && s !in recovered && (s < slot || s in was)
      invariant forall s :: s in ledger ==> ledger[s] == if s in was then was[s] else now
      invariant forall s :: s in proven <==> s in ledger && s < slot && now - ledger[s] >= age
    {
      if slot !in recovered {
        ledger := ledger[slot := if slot in ledger then ledger[slot] else now];
        if now - ledger[slot] >= age {
          proven := proven + {slot};
        }
      }
      slot := slot + 1;
    }
  }

  /** A covered pass backs the ledger it leaves, and shows the proven slots to be long missing. */
  lemma PassBacks(
    log: seq<Read>, read: Read, was: map<int, int>, ledger: map<int, int>, proven: set<int>, age: nat)
    requires Backed(log, was) && Sound(read) && read.covered
    requires forall s :: s in ledger ==> read.cursor <= s < read.ceiling && s !in read.bars
    requires forall s :: s in ledger ==> ledger[s] == if s in was then was[s] else read.now
    requires forall s :: s in proven ==> s in ledger && read.now - ledger[s] >= age
    ensures Backed(log + [read], ledger)
    ensures forall s :: s in proven ==> LongMissing(log + [read], age, s)
  {
    var more := log + [read];
    assert more[|log|] == read && log <= more;
    forall s | s in ledger
      ensures MissedAt(more, s, ledger[s]) && Missed(more[|log|], s)
    {
      assert Missed(read, s);
      if s in was {
        ReadsStay(log, more, age, {}, s, was[s]);
      }
    }
    forall s | s in proven
      ensures LongMissing(more, age, s)
    {
      var j :| 0 <= j < |more| && Missed(more[j], s) && more[j].now == ledger[s];
      assert Missed(more[|log|], s);
    }
  }

  class LiveStream {
    /** Whether the calendar has a session in the slot; `None` when it cannot tell. */
    const isOpen: int -> Option<bool>
    const settleAttempts: nat
    const evidenceAge: nat

    var anchor: Option<int>
    var gapCursor: Option<int>
    var current: Option<int>
    var pending: seq<Bar>
    var firstMissing: map<int, int>
    /** The closed bars delivered so far. */
    var delivered: seq<int>

    /** How many pending bars came from history; every pass made; the slots streamed. */
    ghost var fromHistory: nat
    ghost var log: seq<Read>
    ghost var streamed: set<int>

    constructor (isOpen: int -> Option<bool>, settleAttempts: nat, evidenceAge: nat)
      ensures Valid() && delivered == [] && pending == [] && log == [] && streamed == {}
    {
      this.isOpen, this.settleAttempts, this.evidenceAge := isOpen, settleAttempts, evidenceAge;
      anchor, gapCursor, current, pending, firstMissing, delivered := None, None, None, [], map[], [];
      fromHistory, log, streamed := 0, [], {};
    }

    predicate Closed(slot: int) {
      isOpen(slot) == Some(false)
    }

    /** The slot was classified session-closed, or the venue long had no bar for it. */
    predicate Excused(log: seq<Read>, slot: int) {
      isOpen(slot) == Some(false) || LongMissing(log, evidenceAge, slot)
    }

    /** Bar `b` may follow bar `a`: it is newer and every slot in between is excused. */
    predicate Follows(log: seq<Read>, a: int, b: int) {
      a < b && forall s :: a < s < b ==> Excused(log, s)
    }

    /** The bars are strictly increasing and gap-free. */
    predicate GapFree(log: seq<Read>, bars: seq<int>) {
      forall i :: 0 <= i < |bars| - 1 ==> Follows(log, bars[i], bars[i + 1])
    }

    /** The first `n` queued bars came from history and continue the delivered ones. */
    predicate HistoryFollows(log: seq<Read>, queue: seq<Bar>, n: nat, last: Option<int>)
      requires n <= |queue|
    {
      && (forall i :: 0 <= i < |queue| ==> queue[i].history == (i < n))
      && (forall i :: 0 <= i < n ==> queue[i].closed)
      && (forall i :: 0 <= i < n - 1 ==> Follows(log, queue[i].slot, queue[i + 1].slot))
      && (n > 0 && last.Some? ==> Follows(log, last.value, queue[0].slot))
    }

    predicate AllKnown(log: seq<Read>, streamed: set<int>, slots: seq<int>) {
      forall i :: 0 <= i < |slots| ==> Known(log, streamed, slots[i])
    }

    ghost predicate Valid()
      reads this
    {
      && fromHistory <= |pending|
      && anchor == Last(delivered)
      && Backed(log, firstMissing)
      && GapFree(log, delivered)
      && HistoryFollows(log, pending, fromHistory, anchor)
      && AllKnown(log, streamed, delivered) && AllKnown(log, streamed, Slots(pending))
      && (current.Some? ==> Known(log, streamed, current.value))
    }

    function Last(bars: seq<int>): Option<int> {
      if bars == [] then None else Some(bars[|bars| - 1])
    }

    function Slots(queue: seq<Bar>): seq<int> {
      seq(|queue|, i requires 0 <= i < |queue| => queue[i].slot)
    }

    /** Collected bars in order, as queue entries. */
    function Marked(bars: seq<int>): seq<Bar> {
      seq(|bars|, i requires 0 <= i < |bars| => Bar(bars[i], true, true))
    }

    /** More reads take nothing back. */
    lemma StaysGapFree(less: seq<Read>, more: seq<Read>, bars: seq<int>, queue: seq<Bar>, n: nat, last: Option<int>)
      requires less <= more && n <= |queue| && GapFree(less, bars) && HistoryFollows(less, queue, n, last)
      ensures GapFree(more, bars) && HistoryFollows(more, queue, n, last)
    {
      forall s | Excused(less, s)
        ensures Excused(more, s)
      {
        ReadsStay(less, more, evidenceAge, {}, s, 0);
      }
    }

    lemma StaysKnown(less: seq<Read>, more: seq<Read>, was: set<int>, streamed: set<int>, slots: seq<int>)
      requires less <= more && was <= streamed && AllKnown(less, was, slots)
      ensures AllKnown(more, streamed, slots)
    {
    }

    /** Every slot of `[cursor, ceiling)` is recovered, closed, or shown to have no bar. */
    predicate Accounted(log: seq<Read>, cursor: int, ceiling: int, recovered: seq<int>) {
      forall s :: cursor <= s < ceiling ==> s in recovered || Excused(log, s)
    }

    predicate Settled(cursor: int, ceiling: int, recovered: set<int>, empty: set<int>) {
      forall s :: cursor <= s < ceiling ==> s in recovered || Closed(s) || s in empty
    }

    /** A pass that covers the window and finds a bar for every slot with a session. */
    ghost predicate Finds(pass: Pass, cursor: int, ceiling: int) {
      Whole(pass) && forall s :: cursor <= s < ceiling ==> s in pass.published || isOpen(s) == Some(false)
    }

    /** The read covered its window, and each slot of it has a bar or is closed. */
    predicate FoundAll(read: Read) {
      read.covered && forall s :: read.cursor <= s < read.ceiling ==> s in read.published || isOpen(s) == Some(false)
    }

    /** The last read was covered, and every slot is brought, closed or proven empty. */
    ghost predicate Complete(was: map<int, int>, log: seq<Read>, from: nat, cursor: int, ceiling: int)
      requires from <= |log|
    {
      && from < |log| && log[|log| - 1].covered
      && forall s :: cursor <= s < ceiling ==>
           BroughtBy(log, from, s) || isOpen(s) == Some(false) || ProvenEmpty(was, evidenceAge, log, from, s)
    }

    /** A collection goes on after these reads, the last of them by `pass`: it is not complete, the pass did
        not fail for good, and there are attempts left or a slot it lacks may not be published yet. */
    ghost predicate GoesOn(
      was: map<int, int>, log: seq<Read>, from: nat, cursor: int, ceiling: int, pass: Pass)
      requires from < |log|
    {
      && !Complete(was, log, from, cursor, ceiling) && !(Breaks(pass, cursor, ceiling) && !pass.transient)
      && (|log| - from < settleAttempts
          || (log[|log| - 1].covered
              && exists s :: cursor <= s < ceiling && !BroughtBy(log, from, s)
                             && !ProvenEmpty(was, evidenceAge, log, from, s) && pass.unpublishedFrom <= s
                             && isOpen(s) != Some(false)))
    }

    /** `_collect_live_gap_history` over `[cursor, ceiling)`.  A complete collection accounts for every
        slot.  Its bars are those its passes brought, and it goes on exactly while `GoesOn` says so. */
    method CollectGapHistory(cursor: int, ceiling: int, passes: seq<Pass>) returns (bars: seq<int>, complete: bool)
      requires Backed(log, firstMissing) && AllHonest(passes)
      modifies this`firstMissing, this`log
      ensures Backed(log, firstMissing) && Reads(old(log), log, cursor, ceiling, passes)
      ensures Increasing(bars) && AllKnown(log, {}, bars) && forall b :: b in bars ==> cursor <= b < ceiling
      ensures complete ==> Accounted(log, cursor, ceiling, bars)
      ensures forall b :: b in bars <==> BroughtBy(log, |old(log)|, b)
      ensures cursor >= ceiling ==> complete && log == old(log)
      ensures cursor < ceiling ==>
                CollectedAs(old(firstMissing), log, |old(log)|, cursor, ceiling, passes, complete)
      ensures |passes| > 0 && Finds(passes[0], cursor, ceiling) ==> complete
    {
      if cursor >= ceiling {
        return [], true;
      }
      var recovered, empty, covered := CollectPasses(cursor, ceiling, passes);
      bars := Sorting.Sort(recovered, (a: int, b: int) => a < b);
      complete := covered && Settled(cursor, ceiling, recovered, empty);
      CollectedBars(log, cursor, ceiling, recovered, empty, bars);
      SettledIsComplete(old(firstMissing), log, |old(log)|, cursor, ceiling, recovered, firstMissing, empty);
      if |passes| > 0 && Finds(passes[0], cursor, ceiling) {
        FirstFindsAll(old(firstMissing), old(log), log, cursor, ceiling, passes);
      }
    }

    /** The collection stopped when it no longer went on, or had no pass left, and says whether it is complete. */
    ghost predicate CollectedAs(
      was: map<int, int>, log: seq<Read>, from: nat, cursor: int, ceiling: int, passes: seq<Pass>, complete: bool)
      requires |log| - |passes| <= from <= |log|
    {
      && (complete <==> Complete(was, log, from, cursor, ceiling))
      && WentOn(was, log, from, cursor, ceiling, passes) && Ended(was, log, from, cursor, ceiling, passes)
    }

    ghost predicate Ended(
      was: map<int, int>, log: seq<Read>, from: nat, cursor: int, ceiling: int, passes: seq<Pass>)
      requires |log| - |passes| <= from <= |log|
    {
      |log| - from < |passes| ==> |log| > from && !GoesOn(was, log, from, cursor, ceiling, passes[|log| - from - 1])
    }

    lemma FirstFindsAll(
      was: map<int, int>, before: seq<Read>, log: seq<Read>, cursor: int, ceiling: int, passes: seq<Pass>)
      requires Reads(before, log, cursor, ceiling, passes) && (forall k :: 0 <= k < |log| ==> Sound(log[k]))
      requires WentOn(was, log, |before|, cursor, ceiling, passes) && Ended(was, log, |before|, cursor, ceiling, passes)
      requires |passes| > 0 && Finds(passes[0], cursor, ceiling)
      ensures Complete(was, log, |before|, cursor, ceiling)
    {
      var n := |before| + 1;
      assert ReadBy(log[|before| + 0], cursor, ceiling, passes[0]);
      FoundAllCompletes(was, log[..n], |before|, cursor, ceiling);
      assert log[..|log|] == log;
    }

    /** The passes made, all but the last of which it went on after. */
    ghost predicate WentOn(
      was: map<int, int>, log: seq<Read>, from: nat, cursor: int, ceiling: int, passes: seq<Pass>)
      requires |log| - |passes| <= from <= |log|
    {
      forall n :: from < n < |log| ==> GoesOn(was, log[..n], from, cursor, ceiling, passes[n - from - 1])
    }

    /** What a collection holds after its reads: the bars they brought, and the slots they prove empty. */
    ghost predicate Holding(
      was: map<int, int>, log: seq<Read>, from: nat, cursor: int, ceiling: int, recovered: set<int>,
      ledger: map<int, int>, empty: set<int>)
      requires from <= |log|
    {
      && (forall b :: b in recovered ==> cursor <= b < ceiling && Known(log, {}, b))
      && (forall b :: b in recovered <==> BroughtBy(log, from, b))
      && (forall s :: s in empty ==> LongMissing(log, evidenceAge, s))
      && Ledgers(was, evidenceAge, log, from, cursor, ceiling, recovered, ledger, empty)
    }

    /** The passes of a collection, as long as it goes on and there are any. */
    method CollectPasses(cursor: int, ceiling: int, passes: seq<Pass>)
      returns (recovered: set<int>, empty: set<int>, covered: bool)
      requires Backed(log, firstMissing) && AllHonest(passes)
      modifies this`firstMissing, this`log
      ensures Backed(log, firstMissing) && Reads(old(log), log, cursor, ceiling, passes)
      ensures Holding(old(firstMissing), log, |old(log)|, cursor, ceiling, recovered, firstMissing, empty)
      ensures covered <==> |log| > |old(log)| && log[|log| - 1].covered
      ensures WentOn(old(firstMissing), log, |old(log)|, cursor, ceiling, passes)
      ensures Ended(old(firstMissing), log, |old(log)|, cursor, ceiling, passes)
    {
      recovered, empty, covered := {}, {}, false;
      var attempt := 0;
      while attempt < |passes|
        invariant 0 <= attempt <= |passes| && |log| == |old(log)| + attempt
        invariant Backed(log, firstMissing) && Reads(old(log), log, cursor, ceiling, passes)
        invariant Holding(old(firstMissing), log, |old(log)|, cursor, ceiling, recovered, firstMissing, empty)
        invariant covered <==> attempt > 0 && log[|log| - 1].covered
        invariant WentOn(old(firstMissing), log, |old(log)|, cursor, ceiling, passes)
        invariant attempt > 0 ==> GoesOn(old(firstMissing), log, |old(log)|, cursor, ceiling, passes[attempt - 1])
        decreases |passes| - attempt
      {
        var onward;
        recovered, empty, covered, onward := OneMorePass(
          cursor, ceiling, passes, attempt, recovered, empty, old(firstMissing), old(log));
        attempt := attempt + 1;
        if !onward {
          return;
        }
      }
    }

    lemma WentOnNext(
      was: map<int, int>, before: seq<Read>, log: seq<Read>, from: nat, cursor: int, ceiling: int, passes: seq<Pass>)
      requires |log| - |passes| <= from <= |before| && |log| == |before| + 1 && before == log[..|before|]
      requires WentOn(was, before, from, cursor, ceiling, passes)
      requires from < |before| ==> GoesOn(was, before, from, cursor, ceiling, passes[|before| - from - 1])
      ensures WentOn(was, log, from, cursor, ceiling, passes)
    {
      forall n | from < n < |log|
        ensures GoesOn(was, log[..n], from, cursor, ceiling, passes[n - from - 1])
      {
        assert log[..n] == before[..n];
        assert n == |before| ==> before[..n] == before;
      }
    }

    /** One more pass of a collection, and whether it then goes on. */
    method OneMorePass(
      cursor: int, ceiling: int, passes: seq<Pass>, attempt: nat, recovered: set<int>, empty: set<int>,
      ghost was: map<int, int>, ghost first: seq<Read>)
      returns (now: set<int>, gone: set<int>, covered: bool, onward: bool)
      requires attempt < |passes| && |log| == |first| + attempt
      requires Backed(log, firstMissing) && AllHonest(passes) && Reads(first, log, cursor, ceiling, passes)
      requires Holding(was, log, |first|, cursor, ceiling, recovered, firstMissing, empty)
      requires WentOn(was, log, |first|, cursor, ceiling, passes)
      requires attempt > 0 ==> GoesOn(was, log, |first|, cursor, ceiling, passes[attempt - 1])
      modifies this`firstMissing, this`log
      ensures Backed(log, firstMissing) && Reads(first, log, cursor, ceiling, passes) && |log| == |old(log)| + 1
      ensures Holding(was, log, |first|, cursor, ceiling, now, firstMissing, gone)
      ensures covered <==> log[|log| - 1].covered
      ensures WentOn(was, log, |first|, cursor, ceiling, passes)
      ensures onward <==> GoesOn(was, log, |first|, cursor, ceiling, passes[attempt])
    {
      ghost var before := log;
      var broken;
      now, gone, covered, broken := PassInto(cursor, ceiling, passes[attempt], recovered, empty, was, |first|);
      ReadsNext(first, before, log, cursor, ceiling, passes);
      WentOnNext(was, before, log, |first|, cursor, ceiling, passes);
      onward := StillGoes(
        cursor, ceiling, passes[attempt], attempt + 1, now, gone, covered, broken, was, |first|);
    }

    /** What one pass adds to what a collection holds. */
    method PassInto(
      cursor: int, ceiling: int, pass: Pass, recovered: set<int>, empty: set<int>, ghost was: map<int, int>,
      ghost from: nat)
      returns (now: set<int>, gone: set<int>, covered: bool, broken: bool)
      requires Backed(log, firstMissing) && Honest(pass) && from <= |log|
      requires Holding(was, log, from, cursor, ceiling, recovered, firstMissing, empty)
      modifies this`firstMissing, this`log
      ensures Backed(log, firstMissing) && |log| == |old(log)| + 1 && log[..|old(log)|] == old(log)
      ensures ReadBy(log[|old(log)|], cursor, ceiling, pass) && (covered <==> log[|old(log)|].covered)
      ensures Holding(was, log, from, cursor, ceiling, now, firstMissing, gone)
      ensures broken <==> Breaks(pass, cursor, ceiling)
    {
      var more, proven;
      ghost var before, ledger := log, firstMissing;
      more, covered, proven, broken := OnePass(cursor, ceiling, pass, recovered);
      now, gone := recovered + more, empty + proven;
      ghost var read := log[|before|];
      LedgersNext(was, evidenceAge, before, from, read, recovered, ledger, empty, firstMissing, proven);
      forall b
        ensures b in now <==> BroughtBy(log, from, b)
      {
        BroughtByMore(before, from, read, b);
      }
    }

    lemma ReadsNext(
      first: seq<Read>, before: seq<Read>, log: seq<Read>, cursor: int, ceiling: int, passes: seq<Pass>)
      requires Reads(first, before, cursor, ceiling, passes) && |before| - |first| < |passes|
      requires |log| == |before| + 1 && before == log[..|before|]
      requires ReadBy(log[|before|], cursor, ceiling, passes[|before| - |first|])
      ensures Reads(first, log, cursor, ceiling, passes)
    {
    }

    /** Whether another pass is made. */
    method StillGoes(
      cursor: int, ceiling: int, pass: Pass, attempt: nat, recovered: set<int>, empty: set<int>, covered: bool,
      broken: bool, ghost was: map<int, int>, ghost from: nat)
      returns (onward: bool)
      requires |log| == from + attempt && attempt > 0 && (covered <==> log[|log| - 1].covered)
      requires Holding(was, log, from, cursor, ceiling, recovered, firstMissing, empty)
      requires broken <==> Breaks(pass, cursor, ceiling)
      ensures onward <==> GoesOn(was, log, from, cursor, ceiling, pass)
    {
      SettledIsComplete(was, log, from, cursor, ceiling, recovered, firstMissing, empty);
      if broken && !pass.transient {
        return false;
      }
      if covered && Settled(cursor, ceiling, recovered, empty) {
        return false;
      }
      if attempt < settleAttempts {
        return true;
      }
      onward := covered && exists s :: cursor <= s < ceiling && s !in recovered && s !in empty
                                       && pass.unpublishedFrom <= s && !Closed(s);
    }

    lemma SettledIsComplete(
      was: map<int, int>, log: seq<Read>, from: nat, cursor: int, ceiling: int, recovered: set<int>,
      ledger: map<int, int>, empty: set<int>)
      requires from <= |log| && Holding(was, log, from, cursor, ceiling, recovered, ledger, empty)
      ensures from < |log| && log[|log| - 1].covered && Settled(cursor, ceiling, recovered, empty) <==>
              Complete(was, log, from, cursor, ceiling)
    {
      if Settled(cursor, ceiling, recovered, empty) {
        forall s | cursor <= s < ceiling
          ensures BroughtBy(log, from, s) || isOpen(s) == Some(false) || ProvenEmpty(was, evidenceAge, log, from, s)
        {
        }
      }
      if Complete(was, log, from, cursor, ceiling) {
        forall s | cursor <= s < ceiling
          ensures s in recovered || Closed(s) || s in empty
        {
        }
      }
    }

    /** A read that finds every slot completes the collection, as a whole pass over such a window does. */
    lemma FoundAllCompletes(was: map<int, int>, log: seq<Read>, from: nat, cursor: int, ceiling: int)
      requires from < |log| && Sound(log[|log| - 1])
      requires log[|log| - 1].cursor == cursor && log[|log| - 1].ceiling == ceiling && FoundAll(log[|log| - 1])
      ensures Complete(was, log, from, cursor, ceiling)
    {
      forall s | cursor <= s < ceiling
        ensures BroughtBy(log, from, s) || isOpen(s) == Some(false)
      {
        if s in log[|log| - 1].published {
          assert s in log[|log| - 1].bars;
        }
      }
    }

    /** What the collection's bars account for. */
    lemma CollectedBars(
      log: seq<Read>, cursor: int, ceiling: int, recovered: set<int>, empty: set<int>, bars: seq<int>)
      requires forall b :: b in bars <==> b in recovered
      requires forall b :: b in recovered ==> cursor <= b < ceiling && Known(log, {}, b)
      requires forall s :: s in empty ==> LongMissing(log, evidenceAge, s)
      ensures AllKnown(log, {}, bars) && forall b :: b in bars ==> cursor <= b < ceiling
      ensures Settled(cursor, ceiling, recovered, empty) ==> Accounted(log, cursor, ceiling, bars)
    {
    }

    /** One pass of a collection: its bars are kept, and a covered one updates the ledger. */
    method OnePass(cursor: int, ceiling: int, pass: Pass, recovered: set<int>)
      returns (bars: set<int>, covered: bool, proven: set<int>, broken: bool)
      requires Backed(log, firstMissing) && Honest(pass)
      modifies this`firstMissing, this`log
      ensures Backed(log, firstMissing)
      ensures log == old(log) + [Read(cursor, ceiling, pass.now, bars, covered, pass.published)]
      ensures Sound(log[|old(log)|]) && (Whole(pass) ==> covered)
      ensures forall b :: b in bars ==> cursor <= b < ceiling && Known(log, {}, b)
      ensures forall b :: Known(old(log), {}, b) ==> Known(log, {}, b)
      ensures forall s :: s in proven || LongMissing(old(log), evidenceAge, s) ==> LongMissing(log, evidenceAge, s)
      ensures broken ==> !covered
      ensures broken <==> Breaks(pass, cursor, ceiling)
      ensures Noted(old(firstMissing), log[|old(log)|], recovered, evidenceAge, firstMissing, proven)
    {
      bars, covered, broken := ReadPass(cursor, ceiling, pass);
      proven := {};
      ghost var read := Read(cursor, ceiling, pass.now, bars, covered, pass.published);
      ghost var was := log;
      if covered {
        var ledger;
        ledger, proven := NoteMissing(firstMissing, cursor, ceiling, recovered + bars, pass.now, evidenceAge);
        PassBacks(log, read, firstMissing, ledger, proven, evidenceAge);
        firstMissing := ledger;
      }
      log := log + [read];
      assert log[|was|] == read;
      forall s
        ensures Known(was, {}, s) ==> Known(log, {}, s)
        ensures LongMissing(was, evidenceAge, s) ==> LongMissing(log, evidenceAge, s)
      {
        ReadsStay(was, log, evidenceAge, {}, s, 0);
      }
      forall s | s in firstMissing
        ensures MissedAt(log, s, firstMissing[s])
      {
        if !covered {
          ReadsStay(was, log, evidenceAge, {}, s, firstMissing[s]);
        }
      }
    }

    /** `connect` then `on_reconnect`: the bar in progress and the queue are dropped, and the closed
        bars missed since the last delivered one are collected.  An incomplete collection queues
        nothing. */
    method OnReconnect(nowSlot: int, passes: seq<Pass>) returns (ok: bool)
      requires Valid() && AllHonest(passes)
      modifies this`current, this`pending, this`fromHistory, this`firstMissing, this`log
      ensures Valid() && current == None
      ensures old(log) <= log && forall k :: |old(log)| <= k < |log| ==> ReadByOne(log[k], passes)
      ensures !ok ==> pending == []
      ensures anchor.None? && gapCursor.None? ==> ok && pending == []
      ensures anchor.Some? ==> Resumed(anchor.value + 1, nowSlot, passes, ok)
      ensures anchor.None? && gapCursor.Some? ==> Resumed(gapCursor.value, nowSlot, passes, ok)
    {
      current, pending := None, [];
      fromHistory := 0;
      if anchor.None? && gapCursor.None? {
        return true;
      }
      var cursor := if anchor.None? then gapCursor.value else anchor.value + 1;
      if cursor >= nowSlot {
        return true;
      }
      ok := BackfillLiveGap(cursor, nowSlot, passes);
    }

    /** `_backfill_live_gap` over a window behind an empty queue. */
    method BackfillLiveGap(cursor: int, nowSlot: int, passes: seq<Pass>) returns (ok: bool)
      requires Valid() && AllHonest(passes) && pending == [] && (anchor.Some? ==> cursor == anchor.value + 1)
      modifies this`pending, this`fromHistory, this`firstMissing, this`log
      ensures Valid()
      ensures old(log) <= log && forall k :: |old(log)| <= k < |log| ==> ReadByOne(log[k], passes)
      ensures if ok then Accounted(log, cursor, nowSlot, Slots(pending)) else pending == []
      ensures |passes| > 0 && Finds(passes[0], cursor, nowSlot) ==> ok
      ensures ok ==> forall b :: b in Slots(pending) <==> BroughtBy(log, |old(log)|, b)
    {
      var bars;
      bars, ok := CollectMissing(cursor, nowSlot, passes);
      if ok {
        QueueAhead(bars, cursor, nowSlot);
        assert Slots(pending) == bars;
      }
    }

    /** A backfill from the slot on: on success the queue accounts for all that closed since, and it succeeds
        if nothing did or the first pass finds it all. */
    ghost predicate Resumed(from: int, nowSlot: int, passes: seq<Pass>, ok: bool)
      reads this`pending, this`log
    {
      && (ok ==> Accounted(log, from, nowSlot, Slots(pending)))
      && (from >= nowSlot || (|passes| > 0 && Finds(passes[0], from, nowSlot)) ==> ok)
    }

    /** Collected bars go to the front of a queue that holds only live ones. */
    method QueueAhead(bars: seq<int>, ghost cursor: int, ghost ceiling: int)
      requires Valid() && fromHistory == 0 && (anchor.Some? ==> cursor == anchor.value + 1)
      requires Increasing(bars) && AllKnown(log, {}, bars) && forall b :: b in bars ==> cursor <= b < ceiling
      requires Accounted(log, cursor, ceiling, bars)
      modifies this`pending, this`fromHistory
      ensures Valid() && pending == Marked(bars) + old(pending) && fromHistory == |bars|
      ensures bars == [] && cursor <= ceiling ==> Follows(log, cursor - 1, ceiling)
    {
      Splice(log, cursor, ceiling, bars, pending);
      StaysKnown(log, log, {}, streamed, bars);
      assert Slots(Marked(bars) + pending) == bars + Slots(pending);
      pending := Marked(bars) + pending;
      fromHistory := |bars|;
    }

    /** `backfill_closed_bars`: the bars that closed since the warm-up history.  An incomplete
        collection hands over nothing; otherwise a reconnect without a delivered bar resumes at the
        slot after the newest bar the run holds. */
    method StartupBackfill(since: int, nowSlot: int, passes: seq<Pass>) returns (bars: seq<int>, complete: bool)
      requires Valid() && AllHonest(passes)
      modifies this`gapCursor, this`firstMissing, this`log
      ensures Valid()
      ensures old(log) <= log && forall k :: |old(log)| <= k < |log| ==> ReadByOne(log[k], passes)
      ensures Increasing(bars) && AllKnown(log, {}, bars) && forall b :: b in bars ==> since < b < nowSlot
      ensures if complete then Accounted(log, since + 1, nowSlot, bars)
                               && gapCursor == Some(if bars == [] then since + 1 else bars[|bars| - 1] + 1)
              else bars == [] && gapCursor == old(gapCursor)
      ensures |passes| > 0 && Finds(passes[0], since + 1, nowSlot) ==> complete
      ensures complete ==> forall b :: b in bars <==> BroughtBy(log, |old(log)|, b)
    {
      bars, complete := CollectMissing(since + 1, nowSlot, passes);
      if !complete {
        return [], false;
      }
      var newestHeld := if bars == [] then since else bars[|bars| - 1];
      gapCursor := Some(newestHeld + 1);
    }

    /** The queue and the delivered bars keep their standing as the log grows. */
    lemma KeepAcross(was: seq<Read>)
      requires was <= log && fromHistory <= |pending|
      requires GapFree(was, delivered) && HistoryFollows(was, pending, fromHistory, anchor)
      requires AllKnown(was, streamed, delivered) && AllKnown(was, streamed, Slots(pending))
      requires current.Some? ==> Known(was, streamed, current.value)
      ensures GapFree(log, delivered) && HistoryFollows(log, pending, fromHistory, anchor)
      ensures AllKnown(log, streamed, delivered) && AllKnown(log, streamed, Slots(pending))
      ensures current.Some? ==> Known(log, streamed, current.value)
    {
      StaysGapFree(was, log, delivered, pending, fromHistory, anchor);
      StaysKnown(was, log, streamed, streamed, delivered);
      StaysKnown(was, log, streamed, streamed, Slots(pending));
      if current.Some? {
        ReadsStay(was, log, evidenceAge, streamed, current.value, 0);
      }
    }

    /** A collection, as the stream sees it. */
    method CollectMissing(cursor: int, ceiling: int, passes: seq<Pass>) returns (bars: seq<int>, complete: bool)
      requires Valid() && AllHonest(passes)
      modifies this`firstMissing, this`log
      ensures Valid()
      ensures old(log) <= log && forall k :: |old(log)| <= k < |log| ==> ReadByOne(log[k], passes)
      ensures Increasing(bars) && AllKnown(log, {}, bars) && forall b :: b in bars ==> cursor <= b < ceiling
      ensures complete ==> Accounted(log, cursor, ceiling, bars)
      ensures forall b :: b in bars <==> BroughtBy(log, |old(log)|, b)
      ensures |passes| > 0 && Finds(passes[0], cursor, ceiling) ==> complete
      ensures cursor >= ceiling ==> complete
    {
      bars, complete := CollectGapHistory(cursor, ceiling, passes);
      KeepAcross(old(log));
      ReadsAreByPasses(old(log), log, cursor, ceiling, passes);
    }

    lemma ReadsAreByPasses(was: seq<Read>, now: seq<Read>, cursor: int, ceiling: int, passes: seq<Pass>)
      requires Reads(was, now, cursor, ceiling, passes)
      ensures forall k :: |was| <= k < |now| ==> ReadByOne(now[k], passes)
    {
      forall k | |was| <= k < |now|
        ensures ReadByOne(now[k], passes)
      {
        assert ReadBy(now[|was| + (k - |was|)], cursor, ceiling, passes[k - |was|]);
      }
    }

    /** `_ingest_live_bar`: a stale bar is ignored; a newer one closes the bar being tracked. */
    method IngestLiveBar(slot: int) returns (accepted: bool)
      requires Valid()
      modifies this`gapCursor, this`pending, this`current, this`streamed
      ensures Valid() && streamed == old(streamed) + {slot}
      ensures accepted <==> (anchor.Some? ==> anchor.value < slot)
                            && (old(current).Some? ==> old(current).value <= slot)
      ensures accepted ==> current == Some(slot)
      ensures !accepted ==> current == old(current) && pending == old(pending)
      ensures accepted && old(current).Some? && slot > old(current).value ==>
                pending == old(pending) + [Bar(old(current).value, true, false)]
      ensures old(current) == None || old(current) == Some(slot) ==> pending == old(pending)
      ensures gapCursor == if accepted && old(gapCursor).None? then Some(slot) else old(gapCursor)
    {
      StaysKnown(log, log, streamed, streamed + {slot}, delivered);
      StaysKnown(log, log, streamed, streamed + {slot}, Slots(pending));
      streamed := streamed + {slot};
      if anchor.Some? && slot <= anchor.value {
        return false;
      }
      if current.Some? && slot < current.value {
        return false;
      }
      if gapCursor.None? {
        gapCursor := Some(slot);
      }
      if current.Some? && slot > current.value {
        Append(Bar(current.value, true, false));
      }
      current := Some(slot);
      accepted := true;
    }

    /** A live bar goes to the end of the queue. */
    method Append(bar: Bar)
      requires Valid() && !bar.history && Known(log, streamed, bar.slot)
      modifies this`pending
      ensures Valid() && pending == old(pending) + [bar]
    {
      assert Slots(pending + [bar]) == Slots(pending) + [bar.slot];
      pending := pending + [bar];
    }

    /** A spot event's trendbars, oldest first.  One that is not stale queues the bars it closes, and
        then the bar in progress. */
    method SpotEvent(slots: seq<int>)
      requires Valid()
      modifies this`gapCursor, this`pending, this`current, this`streamed
      ensures Valid() && streamed == old(streamed) + Elements(slots) && old(pending) <= pending
      ensures pending == old(pending) <==> AllStale(slots, |slots|, anchor, old(current))
      ensures pending == old(pending) ==> current == old(current)
      ensures pending != old(pending) ==> current.Some? && pending[|pending| - 1] == Bar(current.value, false, false)
      ensures forall i :: |old(pending)| <= i < |pending| - 1 ==> pending[i].closed && pending[i].slot < current.value
      ensures Increasing(slots) ==> HoldsAll(slots, |slots|, old(current))
      ensures old(current).Some? ==> current.Some? && Holds(old(current).value)
    {
      var accepted := IngestAll(slots);
      if accepted {
        Append(Bar(current.value, false, false));
      }
    }

    /** Every trendbar is ingested; each that was not stale is then held. */
    method IngestAll(slots: seq<int>) returns (accepted: bool)
      requires Valid()
      modifies this`gapCursor, this`pending, this`current, this`streamed
      ensures Valid() && streamed == old(streamed) + Elements(slots) && old(pending) <= pending
      ensures Ingested(slots, |slots|, old(current), old(pending), accepted)
    {
      accepted := false;
      for i := 0 to |slots|
        invariant Valid() && streamed == old(streamed) + Elements(slots[..i]) && old(pending) <= pending
        invariant Ingested(slots, i, old(current), old(pending), accepted)
      {
        assert slots[..i + 1] == slots[..i] + [slots[i]];
        ghost var was, queued := current, pending;
        var one := IngestLiveBar(slots[i]);
        IngestedNext(slots, i, old(current), old(pending), accepted, was, queued, one);
        accepted := accepted || one;
      }
      assert slots[..|slots|] == slots;
    }

    /** The state after the first `n` bars, `first` having been in progress and `queued` waiting. */
    ghost predicate Ingested(slots: seq<int>, n: nat, first: Option<int>, queued: seq<Bar>, accepted: bool)
      requires n <= |slots|
      reads this
    {
      IngestedAs(slots, n, first, queued, accepted, current, pending)
    }

    ghost predicate IngestedAs(
      slots: seq<int>, n: nat, first: Option<int>, queued: seq<Bar>, accepted: bool, now: Option<int>, queue: seq<Bar>)
      requires n <= |slots|
      reads this`anchor
    {
      && (accepted <==> !AllStale(slots, n, anchor, first))
      && (if accepted then now.Some? else now == first && queue == queued)
      && (forall k :: |queued| <= k < |queue| ==> queue[k].closed && now.Some? && queue[k].slot < now.value)
      && (first.Some? ==> HeldIn(first.value, now, queue))
      && (Increasing(slots) ==>
            && (now == first || AmongFirst(slots, n, now))
            && forall k :: 0 <= k < n && !Stale(slots[k], anchor, first) ==> HeldIn(slots[k], now, queue))
    }

    /** One more bar ingested. */
    lemma IngestedNext(
      slots: seq<int>, i: nat, first: Option<int>, queued: seq<Bar>, accepted: bool, was: Option<int>,
      queue: seq<Bar>, one: bool)
      requires i < |slots| && IngestedAs(slots, i, first, queued, accepted, was, queue)
      requires one <==> !Stale(slots[i], anchor, was)
      requires current == if one then Some(slots[i]) else was
      requires pending == queue + if one && was.Some? && slots[i] > was.value then [Bar(was.value, true, false)] else []
      ensures Ingested(slots, i + 1, first, queued, accepted || one)
    {
    }

    /** The bar in progress is one of the first `n`. */
    ghost predicate AmongFirst(slots: seq<int>, n: nat, inProgress: Option<int>)
      requires n <= |slots|
    {
      exists k :: 0 <= k < n && inProgress == Some(slots[k])
    }

    /** The slot's bar is in progress, or queued as closed. */
    predicate Holds(slot: int)
      reads this`current, this`pending
    {
      HeldIn(slot, current, pending)
    }

    predicate HeldIn(slot: int, inProgress: Option<int>, queue: seq<Bar>) {
      inProgress == Some(slot) || Bar(slot, true, false) in queue
    }

    /** Each of the first `n` bars that were not stale. */
    predicate HoldsAll(slots: seq<int>, n: nat, was: Option<int>)
      requires n <= |slots|
      reads this`anchor, this`current, this`pending
    {
      forall k :: 0 <= k < n && !Stale(slots[k], anchor, was) ==> Holds(slots[k])
    }

    predicate AllStale(slots: seq<int>, n: nat, last: Option<int>, inProgress: Option<int>)
      requires n <= |slots|
    {
      forall k :: 0 <= k < n ==> Stale(slots[k], last, inProgress)
    }

    predicate Stale(slot: int, last: Option<int>, inProgress: Option<int>) {
      (last.Some? && slot <= last.value) || (inProgress.Some? && slot < inProgress.value)
    }

    /** One turn of `watch_ohlcv` over the queue's front: a stale closed bar is dropped, a bar that
        skips slots first has them collected, and the front is delivered.  A gap that cannot be
        accounted for delivers nothing. */
    method DeliverFront(passes: seq<Pass>, changed: bool)
      requires Valid() && AllHonest(passes)
      modifies this`pending, this`delivered, this`anchor, this`fromHistory, this`firstMissing, this`log
      ensures Valid()
      ensures old(log) <= log && forall k :: |old(log)| <= k < |log| ==> ReadByOne(log[k], passes)
      ensures delivered == old(delivered) || exists s :: delivered == old(delivered) + [s]
      ensures old(pending) != [] && old(pending)[0].closed && !OutOfDate(old(pending)[0], old(anchor)) ==>
                delivered != old(delivered) || pending == old(pending)
      ensures old(pending) != [] && OutOfDate(old(pending)[0], old(anchor)) ==>
                pending == old(pending)[1..] && delivered == old(delivered)
      ensures old(pending) != [] && old(pending)[0].closed && !Skips(old(pending)[0], old(anchor))
              && !OutOfDate(old(pending)[0], old(anchor)) ==>
                pending == old(pending)[1..] && delivered == old(delivered) + [old(pending)[0].slot]
      ensures old(pending) != [] && Skips(old(pending)[0], old(anchor)) && !changed && |passes| > 0
              && Finds(passes[0], old(anchor).value + 1, old(pending)[0].slot) ==>
                delivered != old(delivered)
      ensures old(pending) != [] && !old(pending)[0].closed ==>
                pending == old(pending)[1..] && delivered == old(delivered)
    {
      if pending == [] {
        return;
      }
      var candidate := pending[0];
      var checked := candidate.closed && !candidate.history && anchor.Some?;
      if OutOfDate(candidate, anchor) {
        assert Slots(pending[1..]) == Slots(pending)[1..];
        pending := pending[1..];
        return;
      }
      if checked && candidate.slot > anchor.value + 1 {
        var ok := RepairConnectedGap(candidate, passes, changed);
        if !ok {
          return;
        }
      }
      PopFront();
    }

    /** A live closed bar that leaves slots out after the last delivered one. */
    predicate Skips(bar: Bar, last: Option<int>) {
      bar.closed && !bar.history && last.Some? && bar.slot > last.value + 1
    }

    /** A live closed bar no newer than the last delivered one. */
    predicate OutOfDate(bar: Bar, last: Option<int>) {
      bar.closed && !bar.history && last.Some? && bar.slot <= last.value
    }

    /** `_repair_connected_gap`: the bars between the last delivered one and the candidate are put
        ahead of it, unless the connection or the queue `changed` while they were requested. */
    method RepairConnectedGap(candidate: Bar, passes: seq<Pass>, changed: bool) returns (ok: bool)
      requires Valid() && pending != [] && pending[0] == candidate && anchor.Some? && AllHonest(passes)
      requires candidate.closed && !candidate.history && candidate.slot > anchor.value + 1
      modifies this`pending, this`fromHistory, this`firstMissing, this`log
      ensures Valid()
      ensures old(log) <= log && forall k :: |old(log)| <= k < |log| ==> ReadByOne(log[k], passes)
      ensures changed ==> !ok
      ensures !changed && |passes| > 0 && Finds(passes[0], anchor.value + 1, candidate.slot) ==> ok
      ensures !ok ==> pending == old(pending) && fromHistory == old(fromHistory)
      ensures ok ==> fromHistory <= |pending| && pending[fromHistory..] == old(pending)
      ensures ok ==> Accounted(log, anchor.value + 1, candidate.slot, Slots(pending[..fromHistory]))
      ensures ok ==> FrontFollows() && pending[0].closed
    {
      var bars;
      bars, ok := CollectMissing(anchor.value + 1, candidate.slot, passes);
      ok := ok && !changed;
      if ok {
        QueueAhead(bars, anchor.value + 1, candidate.slot);
        assert pending[..fromHistory] == Marked(bars);
        assert Slots(Marked(bars)) == bars;
      }
    }

    /** A closed front bar continues the delivered ones. */
    ghost predicate FrontFollows()
      reads this
    {
      pending != [] && (pending[0].closed && anchor.Some? ==> Follows(log, anchor.value, pending[0].slot))
    }

    /** Deliver the front bar. */
    method PopFront()
      requires Valid() && FrontFollows()
      modifies this`pending, this`delivered, this`anchor, this`fromHistory
      ensures Valid() && pending == old(pending)[1..]
      ensures delivered == old(delivered) + if old(pending)[0].closed then [old(pending)[0].slot] else []
    {
      var front := pending[0];
      assert Known(log, streamed, Slots(pending)[0]);
      assert Slots(pending[1..]) == Slots(pending)[1..];
      pending := pending[1..];
      if front.closed {
        delivered := delivered + [front.slot];
        anchor := Some(front.slot);
      }
      fromHistory := if fromHistory > 0 then fromHistory - 1 else 0;
    }

    /** A complete collection put ahead of live bars keeps the queue's history gap-free, up to the
        bar it was collected for. */
    lemma Splice(log: seq<Read>, cursor: int, ceiling: int, bars: seq<int>, rest: seq<Bar>)
      requires Increasing(bars) && forall b :: b in bars ==> cursor <= b < ceiling
      requires Accounted(log, cursor, ceiling, bars)
      requires forall i :: 0 <= i < |rest| ==> !rest[i].history
      ensures HistoryFollows(log, Marked(bars) + rest, |bars|, Some(cursor - 1))
      ensures bars == [] && cursor <= ceiling ==> Follows(log, cursor - 1, ceiling)
    {
      forall i, s | 0 <= i < |bars| - 1 && bars[i] < s < bars[i + 1]
        ensures Excused(log, s)
      {
        assert bars[i] in bars && bars[i + 1] in bars;
        NoneBetween(bars, i, s);
      }
      if bars != [] {
        assert bars[0] in bars;
        forall s | cursor <= s < bars[0]
          ensures Excused(log, s)
        {
          assert s !in bars;
        }
      }
    }

    lemma NoneBetween(bars: seq<int>, i: int, s: int)
      requires Increasing(bars) && 0 <= i < |bars| - 1 && bars[i] < s < bars[i + 1]
      ensures s !in bars
    {
    }

    /** One step of the stream. */
    method Take(step: Step)
      requires Valid() && (!step.Spot? ==> AllHonest(step.passes))
      modifies this
      ensures Valid() && old(delivered) <= delivered && old(log) <= log
      ensures forall k :: |old(log)| <= k < |log| ==> !step.Spot? && ReadByOne(log[k], step.passes)
      ensures forall s :: s in streamed ==> s in old(streamed) || (step.Spot? && s in step.slots)
    {
      match step
      case Reconnect(nowSlot, passes) => var ok := OnReconnect(nowSlot, passes);
      case Spot(slots) => SpotEvent(slots);
      case Deliver(passes, changed) => DeliverFront(passes, changed);
      case Startup(since, nowSlot, passes) => var bars, complete := StartupBackfill(since, nowSlot, passes);
    }

    /** Any run of connects, spot events and deliveries of a new stream.  The delivered bars strictly
        increase; each was streamed or is a bar the venue had at a pass made; and (`GapFree`) each slot
        skipped between two of them is closed, or covered passes over windows that hold it found the
        venue without its bar at least the evidence age apart. */
    method Run(steps: seq<Step>)
      requires Valid() && delivered == [] && log == [] && streamed == {}
      requires forall i :: 0 <= i < |steps| && !steps[i].Spot? ==> AllHonest(steps[i].passes)
      modifies this
      ensures Valid()
      ensures forall i, j :: 0 <= i < j < |delivered| ==> delivered[i] < delivered[j]
      ensures AllKnown(log, streamed, delivered) && GapFree(log, delivered)
      ensures forall k :: 0 <= k < |log| ==> Sound(log[k]) && MadeIn(steps, |steps|, log[k])
      ensures forall s :: s in streamed ==> StreamedIn(steps, |steps|, s)
    {
      for i := 0 to |steps|
        invariant Valid()
        invariant forall k :: 0 <= k < |log| ==> MadeIn(steps, i, log[k])
        invariant forall s :: s in streamed ==> StreamedIn(steps, i, s)
      {
        Take(steps[i]);
      }
      StrictlyIncreasing(delivered, |delivered|);
    }

    lemma {:induction false} StrictlyIncreasing(bars: seq<int>, n: nat)
      requires n <= |bars| && GapFree(log, bars)
      ensures forall i, j :: 0 <= i < j < n ==> bars[i] < bars[j]
    {
      if n > 1 {
        StrictlyIncreasing(bars, n - 1);
        assert Follows(log, bars[n - 2], bars[n - 1]);
      }
    }
  }

  predicate ReadByOne(read: Read, passes: seq<Pass>) {
    exists i :: 0 <= i < |passes| && read.published == passes[i].published && read.now == passes[i].now
  }

  /** The read was made by a pass of one of the first `n` steps. */
  predicate MadeIn(steps: seq<Step>, n: nat, read: Read)
    requires n <= |steps|
  {
    exists k :: 0 <= k < n && !steps[k].Spot? && ReadByOne(read, steps[k].passes)
  }

  predicate StreamedIn(steps: seq<Step>, n: nat, slot: int)
    requires n <= |steps|
  {
    exists k :: 0 <= k < n && steps[k].Spot? && slot in steps[k].slots
  }
}

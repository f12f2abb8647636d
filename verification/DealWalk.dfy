/** The resumable backward walk over paged deal history (`_DealWalk`, `_find_fill_deal`).

The window is read newest page first.  A deadline or a failed request may stop the walk before any
page; the next call resumes it, and a finished walk reads only what came since, with an overlap.
*/
module DealWalk {
  import opened Common
  import Sorting

  /** How far (ms) below the last read time a deal may still appear late. */
  const SKEW := 60_000

  datatype Status = Filled | PartiallyFilled | Other

  /** A deal of the history; `ms` is its execution (or creation) time, `position` 0 for none. */
  datatype Deal = Deal(
    id: int,
    order: int,
    position: int,
    ms: int,
    filled: nat,
    closed: nat,
    side: Side,
    price: real,
    fee: real,
    status: Status)

  /** The records a walk keeps: the order's FILLED deals, the deals that closed volume, and those that
      executed any. */
  datatype Kind = OwnFill | Closing | Executing

  predicate Wants(kind: Kind, order: int, d: Deal) {
    match kind
    case OwnFill => d.order == order && d.status == Filled
    case Closing => d.closed > 0
    case Executing => d.filled > 0 && d.status in {Filled, PartiallyFilled}
  }

  /** The venue's answer to one page request. */
  datatype Reply = Page(deals: seq<Deal>, hasMore: bool) | Failed

  datatype Segment = Segment(lo: int, hi: int)

  datatype Result = Inconclusive | Conclusive(
    fills: seq<Deal>, filledCents: int, average: Option<real>, closing: seq<Deal>, closedCents: int, deals: seq<Deal>)

  function Oldest(deals: seq<Deal>): int
    requires deals != []
  {
    if |deals| == 1 then deals[0].ms else Min(deals[0].ms, Oldest(deals[1..]))
  }

  lemma {:induction false} OldestIsLeast(deals: seq<Deal>)
    requires deals != []
    ensures forall d :: d in deals ==> Oldest(deals) <= d.ms
    ensures exists d :: d in deals && d.ms == Oldest(deals)
  {
    if |deals| > 1 {
      OldestIsLeast(deals[1..]);
      assert deals[0] in deals;
      assert forall d :: d in deals ==> d == deals[0] || d in deals[1..];
    } else {
      assert deals[0] in deals;
    }
  }

  /** A page of the deals of `[lo, hi]`: everything, or the newest ones with no timestamp split. */
  ghost predicate Honest(ledger: set<Deal>, lo: int, hi: int, reply: Reply) {
    reply.Page? ==>
      && (forall d :: d in reply.deals ==> d in ledger && lo <= d.ms <= hi)
      && (reply.hasMore ==> reply.deals != [])
      && forall d :: d in ledger && lo <= d.ms <= hi && (reply.hasMore ==> d.ms >= Oldest(reply.deals)) ==>
           d in reply.deals
  }

  /** One deal id is one deal. */
  ghost predicate UniqueIds(ledger: set<Deal>) {
    forall d, e :: d in ledger && e in ledger && d.id == e.id ==> d == e
  }

  /** The history during one call: `ledger(k)` at its `k`-th request, answered by `venue`. */
  ghost predicate HonestVenue(ledger: nat -> set<Deal>, venue: (nat, int, int) -> Reply) {
    && (forall k: nat :: UniqueIds(ledger(k)) && forall m: nat :: k <= m ==> ledger(k) <= ledger(m))
    && forall k: nat, lo, hi :: Honest(ledger(k), lo, hi, venue(k, lo, hi))
  }

  ghost predicate Owed(segments: seq<Segment>, ms: int) {
    exists i :: 0 <= i < |segments| && segments[i].lo <= ms <= segments[i].hi
  }

  function OwedLength(segments: seq<Segment>): int {
    if segments == [] then 0 else OwedLength(segments[1..]) + segments[0].hi - segments[0].lo + 1
  }

  predicate WellFormed(segments: seq<Segment>, lo: int, hi: int) {
    forall i :: 0 <= i < |segments| ==> lo <= segments[i].lo <= segments[i].hi <= hi
  }

  lemma {:induction false} OwedLengthNonNegative(segments: seq<Segment>, lo: int, hi: int)
    requires WellFormed(segments, lo, hi)
    ensures OwedLength(segments) >= |segments|
  {
    if segments != [] {
      OwedLengthNonNegative(segments[1..], lo, hi);
    }
  }

  // --- order of executions --------------------------------------------------------

  predicate Before(d: Deal, e: Deal) {
    d.ms < e.ms || (d.ms == e.ms && d.id < e.id)
  }

  predicate Sorted(deals: seq<Deal>) {
    Sorting.SortedBy(deals, Before)
  }

  method SortDeals(kept: map<int, Deal>) returns (deals: seq<Deal>)
    requires forall id :: id in kept ==> kept[id].id == id
    ensures Sorted(deals) && forall d :: d in deals <==> d.id in kept && kept[d.id] == d
  {
    var values := set id | id in kept :: kept[id];
    forall d | d in values
      ensures d.id in kept && kept[d.id] == d
    {
      var id :| id in kept && kept[id] == d;
    }
    deals := Sorting.Sort(values, Before);
  }

  function Total(deals: seq<Deal>, closed: bool): int {
    if deals == [] then 0
    else Total(deals[..|deals| - 1], closed)
         + if closed then deals[|deals| - 1].closed else deals[|deals| - 1].filled
  }

  /** What the deals cost: price times filled volume. */
  function Notional(deals: seq<Deal>): real {
    if deals == [] then 0.0
    else Notional(deals[..|deals| - 1]) + deals[|deals| - 1].price * (deals[|deals| - 1].filled as real)
  }

  /** The position the newest fill names. */
  function FillPosition(fills: seq<Deal>): Option<int> {
    if fills == [] then None
    else if fills[|fills| - 1].position != 0 then Some(fills[|fills| - 1].position)
    else FillPosition(fills[..|fills| - 1])
  }

  // --- what a conclusive result says ------------------------------------------------

  predicate InWindow(d: Deal, from: int, high: int) {
    from <= d.ms <= high
  }

  /** The list holds, sorted, every such deal of the window in `known`, on the position if one is given,
      and nothing but such deals of `latest`. */
  ghost predicate Lists(
    list: seq<Deal>, kind: Kind, order: int, position: Option<Option<int>>, from: int, high: int,
    known: set<Deal>, latest: set<Deal>)
  {
    && Sorted(list)
    && (forall d :: d in known && InWindow(d, from, high) && Wants(kind, order, d) && On(d, position) ==> d in list)
    && forall d :: d in list ==> d in latest && InWindow(d, from, high) && Wants(kind, order, d) && On(d, position)
  }

  /** The deal is on the target position; without a target none is. */
  predicate On(d: Deal, position: Option<Option<int>>) {
    position.Some? ==> position.value == Some(d.position)
  }

  /** A deal as the share replay takes it: it closes no more than it filled. */
  function Clip(d: Deal): Deal {
    d.(closed := Min(d.closed, d.filled))
  }

  function ClipAll(deals: seq<Deal>): seq<Deal> {
    seq(|deals|, i requires 0 <= i < |deals| => Clip(deals[i]))
  }

  /** The result is the window's evidence: the order's fills with their total and average price, and
      the closes and executions on its position. */
  ghost predicate Tells(
    result: Result, order: int, closePosition: Option<int>, from: int, high: int, known: set<Deal>, latest: set<Deal>)
    requires result.Conclusive?
  {
    var newest := FillPosition(result.fills);
    var target := Some(if newest.Some? then newest else closePosition);
    && Lists(result.fills, OwnFill, order, None, from, high, known, latest)
    && result.filledCents == Total(result.fills, false)
    && result.average == (if result.filledCents == 0 then None
                          else Some(Notional(result.fills) / (result.filledCents as real)))
    && Lists(result.closing, Closing, order, target, from, high, known, latest)
    && result.closedCents == Total(result.closing, true)
    && exists deals ::
         Lists(deals, Executing, order, target, from, high, known, latest) && result.deals == ClipAll(deals)
  }

  /** Said of single deals: a deal of the window present at the start is among the fills if and only if the
      order's FILLED one, and among the closes and executions if it closed or executed volume on the target
      position; nothing else is listed, and all in execution order. */
  lemma TellsOfEach(
    result: Result, order: int, closePosition: Option<int>, from: int, high: int, known: set<Deal>, latest: set<Deal>,
    d: Deal)
    requires result.Conclusive? && Tells(result, order, closePosition, from, high, known, latest) && known <= latest
    requires d in known && from <= d.ms && d.ms <= high
    ensures var newest := FillPosition(result.fills);
            var target := if newest.Some? then newest else closePosition;
            && (d in result.fills <==> d.order == order && d.status == Filled)
            && (d in result.closing <==> d.closed > 0 && target == Some(d.position))
            && (d.filled > 0 && d.status in {Filled, PartiallyFilled} && target == Some(d.position) ==>
                  exists c :: c in result.deals && (c.id, c.ms, c.filled, c.side) == (d.id, d.ms, d.filled, d.side)
                              && (if d.closed <= d.filled then c.closed == d.closed else c.closed == d.filled))
    ensures InExecutionOrder(result.fills) && InExecutionOrder(result.closing) && InExecutionOrder(result.deals)
    ensures forall e :: e in result.fills ==> e in latest && from <= e.ms <= high
    ensures forall e :: e in result.deals ==> 0 < e.filled && e.closed <= e.filled && from <= e.ms <= high
  {
    var newest := FillPosition(result.fills);
    var target := if newest.Some? then newest else closePosition;
    var deals :| Lists(deals, Executing, order, Some(target), from, high, known, latest)
                 && result.deals == ClipAll(deals);
    if d.filled > 0 && d.status in {Filled, PartiallyFilled} && target == Some(d.position) {
      var i :| 0 <= i < |deals| && deals[i] == d;
      assert result.deals[i] == Clip(d);
    }
    forall e | e in result.deals
      ensures 0 < e.filled && e.closed <= e.filled && from <= e.ms <= high
    {
      var i :| 0 <= i < |deals| && e == Clip(deals[i]);
      assert deals[i] in deals;
    }
    SortedInOrder(result.fills);
    SortedInOrder(result.closing);
    SortedInOrder(deals);
  }

  /** Oldest first, deals of one time by id. */
  predicate InExecutionOrder(deals: seq<Deal>) {
    forall i, j :: 0 <= i < j < |deals| ==>
      deals[i].ms <= deals[j].ms && (deals[i].ms == deals[j].ms ==> deals[i].id < deals[j].id)
  }

  lemma SortedInOrder(deals: seq<Deal>)
    requires Sorted(deals)
    ensures InExecutionOrder(deals)
  {
  }

  /** The target is what the newest of the fills that name a position names, if any does. */
  lemma {:induction false} FillPositionIsNewest(fills: seq<Deal>)
    ensures FillPosition(fills).None? <==> forall i :: 0 <= i < |fills| ==> fills[i].position == 0
    ensures FillPosition(fills).Some? ==>
              exists i :: 0 <= i < |fills| && fills[i].position == FillPosition(fills).value != 0
                          && forall j :: i < j < |fills| ==> fills[j].position == 0
  {
    if fills != [] && fills[|fills| - 1].position == 0 {
      FillPositionIsNewest(fills[..|fills| - 1]);
    }
  }

  /** Totals and costs add up over the deals, each with its own volume and price. */
  lemma {:induction false} TotalsAdd(some: seq<Deal>, more: seq<Deal>)
    ensures forall closed :: Total(some + more, closed) == Total(some, closed) + Total(more, closed)
    ensures Notional(some + more) == Notional(some) + Notional(more)
    ensures |more| == 1 ==> Total(more, true) == more[0].closed && Total(more, false) == more[0].filled
                            && Notional(more) == more[0].price * (more[0].filled as real)
  {
    if more == [] {
      assert some + more == some;
    } else {
      TotalsAdd(some, more[..|more| - 1]);
      assert (some + more)[..|some + more| - 1] == some + more[..|more| - 1];
    }
  }

  // --- the walk ---------------------------------------------------------------------

  /** A record keeps, by id, exactly the deals read that it wants. */
  ghost predicate Keeps(record: map<int, Deal>, kind: Kind, order: int, read: set<Deal>) {
    && (forall id :: id in record ==> record[id].id == id && record[id] in read && Wants(kind, order, record[id]))
    && forall d :: d in read && Wants(kind, order, d) ==> d.id in record && record[d.id] == d
  }

  /** One more deal read. */
  lemma KeepsOneMore(record: map<int, Deal>, kind: Kind, order: int, read: set<Deal>, d: Deal, latest: set<Deal>)
    requires Keeps(record, kind, order, read) && read <= latest && d in latest && UniqueIds(latest)
    ensures Keeps(if Wants(kind, order, d) then record[d.id := d] else record, kind, order, read + {d})
  {
  }

  /** Request `k`, for the segment, was made in time and answered by a page. */
  predicate Answered(cut: nat -> bool, venue: (nat, int, int) -> Reply, k: nat, segment: Segment) {
    !cut(k) && venue(k, segment.lo, segment.hi).Page?
  }

  predicate AllAnswered(cut: nat -> bool, venue: (nat, int, int) -> Reply, asked: seq<Segment>, n: nat) {
    n <= |asked| && forall k: nat :: k < n ==> Answered(cut, venue, k, asked[k])
  }

  /** What a call at `now` leaves owed: the newest segment widened if no page has shortened it yet,
      otherwise what came since the last call, with the overlap. */
  function Extended(segments: seq<Segment>, from: int, high: int, now: int): seq<Segment> {
    if now <= high then segments
    else if segments != [] && segments[|segments| - 1].hi == high then
      segments[..|segments| - 1] + [Segment(segments[|segments| - 1].lo, now)]
    else segments + [Segment(Max(from, high - SKEW), now)]
  }

  class Walk {
    const orderId: int
    var fromMs: int
    var highMs: int
    var segments: seq<Segment>
    var fills: map<int, Deal>
    var closes: map<int, Deal>
    var deals: map<int, Deal>
    /** The deals read; the history as of the last call's start, and as of the last request. */
    ghost var read: set<Deal>
    ghost var known: set<Deal>
    ghost var latest: set<Deal>

    constructor (orderId: int, fromMs: int)
      ensures Valid() && this.orderId == orderId && this.fromMs == highMs == fromMs
      ensures segments == [] && fills == closes == deals == map[] && known == latest == {}
    {
      this.orderId, this.fromMs, highMs := orderId, fromMs, fromMs;
      segments, fills, closes, deals := [], map[], map[], map[];
      read, known, latest := {}, {}, {};
    }

    /** The records are what was read, deals of the window and the history. */
    ghost predicate Recorded()
      reads this
    {
      && read <= latest && UniqueIds(latest) && (forall d :: d in read ==> InWindow(d, fromMs, highMs))
      && Keeps(fills, OwnFill, orderId, read) && Keeps(closes, Closing, orderId, read)
      && Keeps(deals, Executing, orderId, read)
    }

    /** What was read and what is owed cover the whole window. */
    ghost predicate Covered()
      reads this
    {
      forall d :: d in known && InWindow(d, fromMs, highMs) ==> d in read || Owed(segments, d.ms)
    }

    ghost predicate Valid()
      reads this
    {
      && fromMs <= highMs && WellFormed(segments, fromMs, highMs)
      && known <= latest && Recorded() && Covered() && NewestReachesBack()
    }

    /** A newest segment no page has shortened yet starts no later than the skew's overlap. */
    ghost predicate NewestReachesBack()
      reads this
    {
      segments != [] && segments[|segments| - 1].hi == highMs ==>
        segments[|segments| - 1].lo <= Max(fromMs, highMs - SKEW)
    }

    /** A deal that appeared since the last call is dated within the skew of the last read time;
        none appears while the clock stands still. */
    ghost predicate LateWithinSkew(ledger: set<Deal>, now: int)
      reads this
    {
      forall d :: d in ledger - known && InWindow(d, fromMs, Max(highMs, now)) ==> now > highMs && d.ms >= highMs - SKEW
    }

    /** `_DealWalk.ingest`: each record takes the deal if it wants it, a re-read one in place of its
        earlier copy. */
    method Ingest(deal: Deal)
      requires Recorded() && deal in latest && InWindow(deal, fromMs, highMs)
      modifies this`fills, this`closes, this`deals, this`read
      ensures Recorded() && read == old(read) + {deal}
    {
      KeepsOneMore(closes, Closing, orderId, read, deal, latest);
      KeepsOneMore(deals, Executing, orderId, read, deal, latest);
      KeepsOneMore(fills, OwnFill, orderId, read, deal, latest);
      if deal.closed > 0 {
        closes := closes[deal.id := deal];
      }
      if deal.filled > 0 && deal.status in {Filled, PartiallyFilled} {
        deals := deals[deal.id := deal];
      }
      if deal.order == orderId && deal.status == Filled {
        fills := fills[deal.id := deal];
      }
      read := read + {deal};
    }

    method IngestPage(page: seq<Deal>)
      requires Recorded() && forall d :: d in page ==> d in latest && InWindow(d, fromMs, highMs)
      modifies this`fills, this`closes, this`deals, this`read
      ensures Recorded() && read == old(read) + set d | d in page
    {
      for i := 0 to |page|
        invariant Recorded() && read == old(read) + set d | d in page[..i]
      {
        assert page[i] in page && page[..i + 1] == page[..i] + [page[i]];
        Ingest(page[i]);
      }
      assert page[..|page|] == page;
    }

    /** A call extends the window to `now`: the newest segment still unread is widened, otherwise a
        new one re-reads the skew's overlap. */
    method Extend(now: int, ghost ledger: set<Deal>)
      requires Valid() && latest <= ledger && UniqueIds(ledger) && LateWithinSkew(ledger, now)
      modifies this`highMs, this`segments, this`known, this`latest
      ensures Valid() && known == latest == ledger && highMs == Max(old(highMs), now)
      ensures segments == Extended(old(segments), fromMs, old(highMs), now)
    {
      ghost var was, high := segments, highMs;
      if now > highMs {
        if segments != [] && segments[|segments| - 1].hi == highMs {
          var newest := segments[|segments| - 1];
          segments := segments[..|segments| - 1] + [Segment(newest.lo, now)];
        } else {
          segments := segments + [Segment(Max(fromMs, highMs - SKEW), now)];
        }
        ExtensionCovers(was, segments);
        NewestCovers(segments, Max(fromMs, highMs - SKEW), now);
        highMs := now;
      }
      forall d | d in ledger && InWindow(d, fromMs, highMs)
        ensures d in read || Owed(segments, d.ms)
      {
        assert d in known && d.ms <= high ==> d in read || Owed(was, d.ms);
      }
      known, latest := ledger, ledger;
    }

    /** One answered request: its deals are kept and the oldest owed segment shrinks or is done. */
    method ReadPage(reply: Reply)
      requires Valid() && segments != [] && reply.Page?
      requires Honest(latest, segments[0].lo, segments[0].hi, reply)
      modifies this`fills, this`closes, this`deals, this`read, this`segments
      ensures Valid() && OwedLength(segments) < OwedLength(old(segments))
    {
      ghost var was := segments;
      IngestPage(reply.deals);
      segments := Consume(segments, reply, latest);
      if reply.hasMore {
        OldestIsLeast(reply.deals);
      }
      PageShrinksOwed(was, segments, latest, reply);
      forall d | d in known && InWindow(d, fromMs, highMs)
        ensures d in read || Owed(segments, d.ms)
      {
        PageCovers(was, segments, latest, reply, d);
      }
      ConsumeKeepsForm(was, segments, reply, fromMs, highMs);
    }

    /** The next page, for the oldest segment still owed. */
    method AskNext(k: nat, cut: nat -> bool, venue: (nat, int, int) -> Reply) returns (answered: bool)
      requires Valid() && segments != []
      requires Honest(latest, segments[0].lo, segments[0].hi, venue(k, segments[0].lo, segments[0].hi))
      modifies this`fills, this`closes, this`deals, this`read, this`segments
      ensures Valid() && answered == Answered(cut, venue, k, old(segments[0]))
      ensures answered ==> 0 <= OwedLength(segments) < OwedLength(old(segments))
      ensures !answered ==> segments == old(segments)
    {
      if cut(k) {
        return false;
      }
      var reply := venue(k, segments[0].lo, segments[0].hi);
      if reply.Failed? {
        return false;
      }
      ReadPage(reply);
      OwedLengthNonNegative(segments, fromMs, highMs);
      answered := true;
    }

    /** `_find_fill_deal`: `cut(k)` says that the deadline has passed before request `k`.  The first
        `requests` requests, for the windows `asked`, were answered; the result is inconclusive exactly if
        there was one more to make, for the oldest segment still owed, and it was cut or failed. */
    method FindFillDeal(
      from: int, now: int, closePosition: Option<int>, cut: nat -> bool,
      ghost ledger: nat -> set<Deal>, venue: (nat, int, int) -> Reply)
      returns (result: Result, requests: nat, ghost asked: seq<Segment>)
      requires Valid() && HonestVenue(ledger, venue) && latest <= ledger(0)
      requires if from < fromMs then from < now else LateWithinSkew(ledger(0), now)
      modifies this
      ensures Valid() && fromMs == Min(from, old(fromMs))
      ensures highMs == if from < old(fromMs) then now else Max(old(highMs), now)
      ensures result.Conclusive? ==>
                Tells(result, orderId, closePosition, fromMs, highMs, ledger(0), ledger(requests))
      ensures |asked| == requests + if segments == [] then 0 else 1
      ensures AllAnswered(cut, venue, asked, requests)
      ensures segments != [] ==> asked[requests] == segments[0] && !Answered(cut, venue, requests, segments[0])
      ensures result.Inconclusive? <==> segments != []
    {
      if from < fromMs {
        Restart(from);
      }
      Extend(now, ledger(0));
      requests, asked := ReadOwed(cut, ledger, venue);
      if segments != [] {
        return Inconclusive, requests, asked;
      }
      result := Aggregate(closePosition);
    }

    /** Pages for what is owed, oldest segment first, until nothing is or one is not answered. */
    method ReadOwed(cut: nat -> bool, ghost ledger: nat -> set<Deal>, venue: (nat, int, int) -> Reply)
      returns (requests: nat, ghost asked: seq<Segment>)
      requires Valid() && HonestVenue(ledger, venue) && latest == ledger(0)
      modifies this`fills, this`closes, this`deals, this`read, this`segments, this`latest
      ensures Valid() && latest == ledger(requests)
      ensures AllAnswered(cut, venue, asked, requests) && |asked| == requests + if segments == [] then 0 else 1
      ensures segments != [] ==> asked[requests] == segments[0] && !Answered(cut, venue, requests, segments[0])
    {
      requests, asked := 0, [];
      while segments != []
        invariant Valid() && latest == ledger(requests)
        invariant |asked| == requests && AllAnswered(cut, venue, asked, requests)
        decreases OwedLength(segments)
      {
        assert Honest(latest, segments[0].lo, segments[0].hi, venue(requests, segments[0].lo, segments[0].hi));
        asked := asked + [segments[0]];
        var answered := AskNext(requests, cut, venue);
        if !answered {
          return requests, asked;
        }
        requests := requests + 1;
        GrowTo(ledger(requests));
      }
    }

    /** The history grows between requests. */
    ghost method GrowTo(ledger: set<Deal>)
      requires Valid() && latest <= ledger && UniqueIds(ledger)
      modifies this`latest
      ensures Valid() && latest == ledger
    {
      latest := ledger;
    }

    /** A window that starts earlier is read anew. */
    method Restart(from: int)
      requires UniqueIds(latest)
      modifies this
      ensures Valid() && fromMs == highMs == from && known == {} && segments == [] && latest == old(latest)
    {
      fromMs, highMs, segments, fills, closes, deals := from, from, [], map[], map[], map[];
      read, known := {}, {};
    }

    /** `_DealWalk.result` of a fully read window. */
    method Aggregate(closePosition: Option<int>) returns (result: Result)
      requires Valid() && segments == []
      ensures result.Conclusive? && Tells(result, orderId, closePosition, fromMs, highMs, known, latest)
    {
      assert forall d :: d in known && InWindow(d, fromMs, highMs) ==> d in read;
      var sorted := SortDeals(fills);
      var cents := Total(sorted, false);
      var average := if cents != 0 then Some(Notional(sorted) / (cents as real)) else None;
      var position := FillPosition(sorted);
      var target := if position.Some? then position else closePosition;
      var closing := OnPosition(closes, Closing, target);
      var moved := OnPosition(deals, Executing, target);
      result := Conclusive(sorted, cents, average, closing, Total(closing, true), ClipAll(moved));
      assert Lists(sorted, OwnFill, orderId, None, fromMs, highMs, known, latest);
    }

    /** A record's deals on the target position. */
    method OnPosition(record: map<int, Deal>, kind: Kind, target: Option<int>) returns (list: seq<Deal>)
      requires Recorded() && Keeps(record, kind, orderId, read)
      requires forall d :: d in known && InWindow(d, fromMs, highMs) ==> d in read
      ensures Lists(list, kind, orderId, Some(target), fromMs, highMs, known, latest)
    {
      var kept := map id | id in record && target == Some(record[id].position) :: record[id];
      list := SortDeals(kept);
    }
  }

  /** What is owed after an answered page. */
  method Consume(segments: seq<Segment>, reply: Reply, ghost ledger: set<Deal>) returns (now: seq<Segment>)
    requires segments != [] && reply.Page? && Honest(ledger, segments[0].lo, segments[0].hi, reply)
    ensures Consumes(segments, now, reply)
  {
    var segment := segments[0];
    if !reply.hasMore || reply.deals == [] {
      return segments[1..];
    }
    OldestIsLeast(reply.deals);
    var oldest := Oldest(reply.deals);
    if oldest <= segment.lo {
      return segments[1..];
    }
    now := segments[0 := Segment(segment.lo, oldest - 1)];
  }

  /** The segments stay within the window, and an unshortened newest one stays as it was. */
  lemma ConsumeKeepsForm(was: seq<Segment>, now: seq<Segment>, reply: Reply, lo: int, hi: int)
    requires was != [] && reply.Page? && (reply.hasMore ==> reply.deals != []) && Consumes(was, now, reply)
    requires WellFormed(was, lo, hi)
    requires reply.hasMore ==> exists d :: d in reply.deals && d.ms == Oldest(reply.deals) && d.ms <= was[0].hi
    ensures WellFormed(now, lo, hi)
    ensures now != [] && now[|now| - 1].hi == hi ==> was[|was| - 1] == now[|now| - 1]
  {
  }

  /** Extending the window leaves nothing of it uncovered. */
  lemma ExtensionCovers(was: seq<Segment>, now: seq<Segment>)
    requires |was| <= |now|
    requires forall i :: 0 <= i < |was| ==> now[i].lo == was[i].lo && was[i].hi <= now[i].hi
    ensures forall ms :: Owed(was, ms) ==> Owed(now, ms)
  {
  }

  lemma NewestCovers(segments: seq<Segment>, lo: int, hi: int)
    requires segments != [] && segments[|segments| - 1].lo <= lo && hi <= segments[|segments| - 1].hi
    ensures forall ms :: lo <= ms <= hi ==> Owed(segments, ms)
  {
  }

  /** How an answered request changes what is owed. */
  ghost predicate Consumes(was: seq<Segment>, now: seq<Segment>, reply: Reply)
    requires was != [] && reply.Page? && (reply.hasMore ==> reply.deals != [])
  {
    || (now == was[1..] && (!reply.hasMore || Oldest(reply.deals) <= was[0].lo))
    || (reply.hasMore && Oldest(reply.deals) > was[0].lo
        && now == was[0 := Segment(was[0].lo, Oldest(reply.deals) - 1)])
  }

  /** Every answered request strictly shrinks the owed length. */
  lemma PageShrinksOwed(was: seq<Segment>, now: seq<Segment>, ledger: set<Deal>, reply: Reply)
    requires was != [] && was[0].lo <= was[0].hi
    requires reply.Page? && Honest(ledger, was[0].lo, was[0].hi, reply) && Consumes(was, now, reply)
    ensures OwedLength(now) < OwedLength(was)
  {
  }

  /** What an honest page takes off the owed window, it brought. */
  lemma PageCovers(was: seq<Segment>, now: seq<Segment>, ledger: set<Deal>, reply: Reply, d: Deal)
    requires was != [] && reply.Page? && Honest(ledger, was[0].lo, was[0].hi, reply) && Consumes(was, now, reply)
    ensures d in ledger && Owed(was, d.ms) ==> d in reply.deals || Owed(now, d.ms)
  {
    if d in ledger && Owed(was, d.ms) {
      var i :| 0 <= i < |was| && was[i].lo <= d.ms <= was[i].hi;
      if i > 0 {
        assert now[if now == was[1..] then i - 1 else i] == was[i];
      } else if d !in reply.deals {
        assert now[0].lo <= d.ms <= now[0].hi;
      }
    }
  }
}

/** Replay of a position's deal history against the bot's share (`_replay_share_closes`), and the
events a working order that filled and closed unseen is recovered as.

`Evidence` is what the code is given; `History` is one way the position's life can really have
gone.  The verdict is proved sound for every history the evidence allows.
*/
module ShareReplay {
  import opened Common

  datatype Origin = Own | Venue | External | Unattributed | Unknown

  predicate Foreign(origin: Origin) {
    origin == External || origin == Unattributed || origin == Unknown
  }

  /** One executed deal; `closed` is the part of `filled` that closed position volume. */
  datatype Deal = Deal(id: int, filled: nat, closed: nat) {
    function Opened(): int {
      filled - closed
    }
  }

  /** The verdict of a replay. */
  datatype Replay = Replay(
    reported: seq<(Deal, int)>,
    ambiguous: seq<(Deal, int, int)>,
    taken: int,
    booked: seq<(Deal, int)>)

  /** The verdict with one more pending deal, which took between `low` and `high` of the share. */
  function Judged(was: Replay, deal: Deal, low: int, high: int, foreign: bool): Replay {
    Replay(was.reported + (if foreign && low > 0 then [(deal, low)] else []),
           was.ambiguous + (if foreign && low <= 0 < high then [(deal, low, high)] else []),
           was.taken + low,
           was.booked + if low > 0 then [(deal, low)] else [])
  }

  /** What a close of `closed` takes of `share`: an own close its volume, any other one only
      what it left the venue below the share. */
  function TakeOf(origin: Origin, closed: nat, share: int, remaining: int): int {
    if origin == Own then Min(closed, share) else Max(0, Min(closed, share - remaining))
  }

  /** A possible life of the position: the bot's share before the first deal, what each deal took
      of the share, and the own opening deals the journal counts. */
  datatype History = History(start: int, takes: seq<int>, counted: set<int>)

  datatype Evidence = Evidence(
    deals: seq<Deal>,
    pending: map<int, Origin>,
    judged: map<int, Origin>,
    ownOpening: set<int>,
    seen: set<int>,
    venueNow: nat,
    shareNow: nat)
  {
    ghost predicate Valid() {
      && (forall i, j :: 0 <= i < j < |deals| ==> deals[i].id != deals[j].id)
      && (forall i :: 0 <= i < |deals| ==> deals[i].closed <= deals[i].filled)
    }

    predicate Pending(i: nat)
      requires i < |deals|
    {
      deals[i].id in pending
    }

    /** Own volume deal `i` opened. */
    function OwnOpened(i: nat): int
      requires i < |deals|
    {
      if deals[i].Opened() > 0 && deals[i].id in ownOpening then deals[i].Opened() else 0
    }

    /** The position's volume before deal `i`, rebuilt backwards from the volume now. */
    function VenueBefore(i: nat): int
      requires i <= |deals|
      decreases |deals| - i
    {
      if i == |deals| then venueNow else VenueBefore(i + 1) + deals[i].closed - deals[i].Opened()
    }

    /** What deal `i`'s closing part left of the position. */
    function Remaining(i: nat): int
      requires i < |deals|
    {
      Max(0, Max(0, VenueBefore(i + 1)) - deals[i].Opened())
    }

    predicate Exact() {
      VenueBefore(0) == 0
      && forall i :: 0 <= i < |deals| && deals[i].closed > 0 ==> deals[i].id in pending || deals[i].id in judged
    }

    function OriginOf(i: nat): Origin
      requires i < |deals| && (deals[i].id in pending || deals[i].id in judged)
    {
      if deals[i].id in pending then pending[deals[i].id] else judged[deals[i].id]
    }

    // --- the exact replay ----------------------------------------------------

    function ExactTake(i: nat): int
      requires i < |deals| && Exact()
      decreases i, 1
    {
      if deals[i].closed == 0 then 0 else TakeOf(OriginOf(i), deals[i].closed, ExactShare(i), Remaining(i))
    }

    /** The share before deal `i`, replayed from nothing. */
    function ExactShare(i: nat): int
      requires i <= |deals| && Exact()
      decreases i, 0
    {
      if i == 0 then 0 else ExactShare(i - 1) - ExactTake(i - 1) + OwnOpened(i - 1)
    }

    // --- the bounded replay --------------------------------------------------

    function OwnFrom(i: nat, only: set<int>): int
      requires i <= |deals|
      decreases |deals| - i
    {
      if i == |deals| then 0
      else (if deals[i].id in only then OwnOpened(i) else 0) + OwnFrom(i + 1, only)
    }

    function UnseenOwnBefore(i: nat): int
      requires i <= |deals|
    {
      if i == 0 then 0
      else UnseenOwnBefore(i - 1) + if deals[i - 1].id in seen then 0 else OwnOpened(i - 1)
    }

    function JudgedFrom(i: nat): int
      requires i <= |deals|
      decreases |deals| - i
    {
      if i == |deals| then 0 else (if Pending(i) then 0 else deals[i].closed) + JudgedFrom(i + 1)
    }

    function LowShare(i: nat): int
      requires i < |deals|
      decreases i, 1
    {
      Max(0, shareNow - OwnFrom(i + 1, ownOpening) - TakenBefore(i, false))
    }

    function HighShare(i: nat): int
      requires i < |deals|
      decreases i, 1
    {
      Max(0, shareNow - OwnFrom(i + 1, seen) + JudgedFrom(i + 1) + UnseenOwnBefore(i) - TakenBefore(i, true))
    }

    function BoundedTake(i: nat, low: bool): int
      requires i < |deals| && Pending(i)
      decreases i, 2
    {
      TakeOf(pending[deals[i].id], deals[i].closed, if low then LowShare(i) else HighShare(i), Remaining(i))
    }

    /** Low or high takes of the pending deals before `i`. */
    function TakenBefore(i: nat, low: bool): int
      requires i <= |deals|
      decreases i, 0
    {
      if i == 0 then 0 else TakenBefore(i - 1, low) + if Pending(i - 1) then BoundedTake(i - 1, low) else 0
    }

    // --- the verdict ---------------------------------------------------------

    /** Proven lower (or upper) bound of what pending deal `i` took of the share. */
    function Bound(i: nat, low: bool): int
      requires i < |deals| && Pending(i)
    {
      if Exact() then ExactTake(i) else BoundedTake(i, low)
    }

    function Verdict(n: nat): Replay
      requires n <= |deals|
    {
      if n == 0 then Replay([], [], 0, [])
      else if !Pending(n - 1) then Verdict(n - 1)
      else
        Judged(Verdict(n - 1), deals[n - 1], Bound(n - 1, true), Bound(n - 1, false), Foreign(pending[deals[n - 1].id]))
    }

    // --- the ground truth ----------------------------------------------------

    function Share(h: History, i: nat): int
      requires i <= |deals| && |h.takes| == |deals|
    {
      if i == 0 then h.start else Share(h, i - 1) - h.takes[i - 1] + OwnOpened(i - 1)
    }

    /** `h` is a life the position can have had: the share is never negative and starts within
        the position's volume, no deal takes more than it closed, and every deal of known origin
        takes what a close of that origin takes. */
    ghost predicate Possible(h: History) {
      && |h.takes| == |deals|
      && 0 <= h.start <= Max(0, VenueBefore(0))
      && forall i :: 0 <= i < |deals| ==> PossibleAt(h, i)
    }

    predicate PossibleAt(h: History, i: nat)
      requires |h.takes| == |deals| && i < |deals|
    {
      && 0 <= h.takes[i] <= deals[i].closed
      && 0 <= Share(h, i)
      && ((Pending(i) || (deals[i].id in judged && deals[i].closed > 0)) ==>
            h.takes[i] == TakeOf(OriginOf(i), deals[i].closed, Share(h, i), Remaining(i)))
    }

    function OtherTakes(h: History, i: nat): int
      requires i <= |deals| && |h.takes| == |deals|
      decreases |deals| - i
    {
      if i == |deals| then 0 else (if Pending(i) then 0 else h.takes[i]) + OtherTakes(h, i + 1)
    }

    /** The journal share now is the real start, plus the own openings it counts, less what the
        deals already judged really took.  It counts every own deal it has seen and no opening
        part of a deal still to be judged. */
    ghost predicate JournalAgrees(h: History)
      requires |h.takes| == |deals|
    {
      && h.counted <= ownOpening
      && (forall i :: 0 <= i < |deals| && deals[i].id in seen && deals[i].id in ownOpening ==> deals[i].id in h.counted)
      && (forall i :: 0 <= i < |deals| && Pending(i) ==> deals[i].id !in h.counted)
      && shareNow == h.start + OwnFrom(0, h.counted) - OtherTakes(h, 0)
    }
  }

  // --- the code ----------------------------------------------------------------

  ghost predicate VenueAfter(e: Evidence, after: map<int, int>, from: nat) {
    forall k :: from <= k < |e.deals| ==>
      e.deals[k].id in after && after[e.deals[k].id] == Max(0, e.VenueBefore(k + 1))
  }

  method ReplayShareCloses(e: Evidence) returns (replay: Replay)
    requires e.Valid()
    ensures replay == e.Verdict(|e.deals|)
  {
    var n := |e.deals|;
    var after: map<int, int> := map[];
    var venue: int := e.venueNow;
    var i := n;
    while i > 0
      invariant 0 <= i <= n
      invariant venue == e.VenueBefore(i)
      invariant VenueAfter(e, after, i)
    {
      i := i - 1;
      after := after[e.deals[i].id := Max(0, venue)];
      venue := venue + e.deals[i].closed - e.deals[i].Opened();
    }
    if venue == 0 && forall k :: 0 <= k < n && e.deals[k].closed > 0 ==>
                       e.deals[k].id in e.pending || e.deals[k].id in e.judged {
      replay := ReplayExactly(e, after);
    } else {
      replay := ReplayBounds(e, after);
    }
  }

  method ReplayExactly(e: Evidence, after: map<int, int>) returns (replay: Replay)
    requires e.Valid() && e.Exact() && VenueAfter(e, after, 0)
    ensures replay == e.Verdict(|e.deals|)
  {
    var share := 0;
    replay := Replay([], [], 0, []);
    for k := 0 to |e.deals|
      invariant share == e.ExactShare(k)
      invariant replay == e.Verdict(k)
    {
      var deal := e.deals[k];
      if deal.closed > 0 {
        var taken := TakeExactly(e, after, k, share);
        share := share - taken;
        if deal.id in e.pending {
          replay := Record(replay, deal, taken, taken, Foreign(e.pending[deal.id]));
        }
      }
      if deal.Opened() > 0 && deal.id in e.ownOpening {
        share := share + deal.Opened();
      }
    }
  }

  /** What a close took of the replayed share. */
  method TakeExactly(e: Evidence, after: map<int, int>, k: nat, share: int) returns (taken: int)
    requires e.Valid() && e.Exact() && VenueAfter(e, after, 0)
    requires k < |e.deals| && e.deals[k].closed > 0 && share == e.ExactShare(k)
    ensures taken == e.ExactTake(k)
  {
    var deal := e.deals[k];
    var origin := if deal.id in e.pending then e.pending[deal.id] else e.judged[deal.id];
    var remaining := Max(0, after[deal.id] - deal.Opened());
    if origin == Own {
      taken := Min(deal.closed, share);
    } else {
      taken := Max(0, Min(deal.closed, share - remaining));
    }
  }

  method ReplayBounds(e: Evidence, after: map<int, int>) returns (replay: Replay)
    requires e.Valid() && !e.Exact() && VenueAfter(e, after, 0)
    ensures replay == e.Verdict(|e.deals|)
  {
    var takenHigh, takenLow := 0, 0;
    replay := Replay([], [], 0, []);
    for k := 0 to |e.deals|
      invariant takenHigh == e.TakenBefore(k, false) && takenLow == e.TakenBefore(k, true)
      invariant replay == e.Verdict(k)
    {
      var deal := e.deals[k];
      if deal.id in e.pending {
        var lowTake, highTake := BoundTakes(e, after, k, takenLow, takenHigh);
        var origin := e.pending[deal.id];
        takenHigh, takenLow := takenHigh + highTake, takenLow + lowTake;
        replay := Record(replay, deal, lowTake, highTake, Foreign(origin));
      }
    }
  }

  /** What a pending deal took at least and at most. */
  method BoundTakes(e: Evidence, after: map<int, int>, k: nat, takenLow: int, takenHigh: int)
    returns (lowTake: int, highTake: int)
    requires e.Valid() && VenueAfter(e, after, 0) && k < |e.deals| && e.Pending(k)
    requires takenHigh == e.TakenBefore(k, false) && takenLow == e.TakenBefore(k, true)
    ensures lowTake == e.BoundedTake(k, true) && highTake == e.BoundedTake(k, false)
  {
    var deal := e.deals[k];
    var origin := e.pending[deal.id];
    var low := Max(0, e.shareNow - e.OwnFrom(k + 1, e.ownOpening) - takenHigh);
    var high := Max(0, e.shareNow - e.OwnFrom(k + 1, e.seen) + e.JudgedFrom(k + 1) + e.UnseenOwnBefore(k) - takenLow);
    var remaining := Max(0, after[deal.id] - deal.Opened());
    lowTake := TakeOf(origin, deal.closed, low, remaining);
    highTake := TakeOf(origin, deal.closed, high, remaining);
  }

  /** One pending deal's part of the verdict. */
  method Record(was: Replay, deal: Deal, low: int, high: int, foreign: bool) returns (replay: Replay)
    ensures replay == Judged(was, deal, low, high, foreign)
  {
    replay := was.(taken := was.taken + low);
    if low > 0 {
      replay := replay.(booked := replay.booked + [(deal, low)]);
    }
    if foreign {
      if low > 0 {
        replay := replay.(reported := replay.reported + [(deal, low)]);
      } else if high > 0 {
        replay := replay.(ambiguous := replay.ambiguous + [(deal, low, high)]);
      }
    }
  }

  // --- the bounded replay brackets every possible history -------------------------

  lemma {:induction false} CountedBetweenSeenAndOwn(e: Evidence, h: History, i: nat)
    requires e.Valid() && i <= |e.deals| && |h.takes| == |e.deals| && e.JournalAgrees(h)
    ensures e.OwnFrom(i, e.seen) <= e.OwnFrom(i, h.counted) <= e.OwnFrom(i, e.ownOpening)
    decreases |e.deals| - i
  {
    if i < |e.deals| {
      CountedBetweenSeenAndOwn(e, h, i + 1);
    }
  }

  lemma {:induction false} OtherTakesWithinClosed(e: Evidence, h: History, i: nat)
    requires e.Possible(h) && i <= |e.deals|
    ensures 0 <= e.OtherTakes(h, i) <= e.JudgedFrom(i)
    decreases |e.deals| - i
  {
    if i < |e.deals| {
      assert e.PossibleAt(h, i);
      OtherTakesWithinClosed(e, h, i + 1);
    }
  }

  /** Pending takes and uncounted own openings before deal `i`. */
  function PendingTakes(e: Evidence, h: History, i: nat): int
    requires i <= |e.deals| == |h.takes|
  {
    if i == 0 then 0 else PendingTakes(e, h, i - 1) + if e.Pending(i - 1) then h.takes[i - 1] else 0
  }

  function UncountedBefore(e: Evidence, h: History, i: nat): int
    requires i <= |e.deals|
  {
    if i == 0 then 0
    else UncountedBefore(e, h, i - 1) + if e.deals[i - 1].id in h.counted then 0 else e.OwnOpened(i - 1)
  }

  /** The journal share now, accounted for from deal `i` in both directions. */
  lemma {:induction false} JournalAround(e: Evidence, h: History, i: nat)
    requires i <= |e.deals| == |h.takes| && e.JournalAgrees(h)
    ensures e.shareNow == e.Share(h, i) + e.OwnFrom(i, h.counted) - UncountedBefore(e, h, i)
                          + PendingTakes(e, h, i) - e.OtherTakes(h, i)
  {
    if i > 0 {
      JournalAround(e, h, i - 1);
    }
  }

  lemma {:induction false} UncountedIsUnseen(e: Evidence, h: History, i: nat)
    requires e.Valid() && i <= |e.deals| == |h.takes| && e.JournalAgrees(h)
    ensures 0 <= UncountedBefore(e, h, i) <= e.UnseenOwnBefore(i)
  {
    if i > 0 {
      UncountedIsUnseen(e, h, i - 1);
    }
  }

  lemma TakeOfMonotone(origin: Origin, closed: nat, lo: int, hi: int, remaining: int)
    requires lo <= hi
    ensures TakeOf(origin, closed, lo, remaining) <= TakeOf(origin, closed, hi, remaining)
  {
  }

  lemma {:induction false} BoundedReplayBrackets(e: Evidence, h: History, i: nat)
    requires e.Valid() && e.Possible(h) && e.JournalAgrees(h) && i <= |e.deals|
    ensures e.TakenBefore(i, true) <= PendingTakes(e, h, i) <= e.TakenBefore(i, false)
    ensures i < |e.deals| && e.Pending(i) ==> e.LowShare(i) <= e.Share(h, i) <= e.HighShare(i)
  {
    if i > 0 {
      BoundedReplayBrackets(e, h, i - 1);
      if e.Pending(i - 1) {
        TakeWithinBounds(e, h, i - 1);
      }
    }
    if i < |e.deals| && e.Pending(i) {
      ShareWithinBounds(e, h, i);
    }
  }

  /** A share within its bounds gives a take within its own. */
  lemma TakeWithinBounds(e: Evidence, h: History, i: nat)
    requires |h.takes| == |e.deals| && i < |e.deals| && e.Pending(i) && e.PossibleAt(h, i)
    requires e.LowShare(i) <= e.Share(h, i) <= e.HighShare(i)
    ensures e.BoundedTake(i, true) <= h.takes[i] <= e.BoundedTake(i, false)
  {
    var deal := e.deals[i];
    TakeOfMonotone(e.pending[deal.id], deal.closed, e.LowShare(i), e.Share(h, i), e.Remaining(i));
    TakeOfMonotone(e.pending[deal.id], deal.closed, e.Share(h, i), e.HighShare(i), e.Remaining(i));
  }

  /** Takes so far within their bounds give a share within its own. */
  lemma ShareWithinBounds(e: Evidence, h: History, i: nat)
    requires e.Valid() && e.Possible(h) && e.JournalAgrees(h) && i < |e.deals| && e.Pending(i)
    requires e.TakenBefore(i, true) <= PendingTakes(e, h, i) <= e.TakenBefore(i, false)
    ensures e.LowShare(i) <= e.Share(h, i) <= e.HighShare(i)
  {
    assert e.PossibleAt(h, i);
    JournalAround(e, h, i);
    UncountedIsUnseen(e, h, i);
    CountedBetweenSeenAndOwn(e, h, i + 1);
    OtherTakesWithinClosed(e, h, i + 1);
  }

  // --- the exact replay is the only possible history -----------------------------

  lemma {:induction false} ExactReplayIsTruth(e: Evidence, h: History, i: nat)
    requires e.Valid() && e.Exact() && e.Possible(h) && i <= |e.deals|
    ensures e.Share(h, i) == e.ExactShare(i)
    ensures i < |e.deals| ==> h.takes[i] == e.ExactTake(i)
  {
    if i > 0 {
      ExactReplayIsTruth(e, h, i - 1);
    }
    if i < |e.deals| {
      assert e.PossibleAt(h, i);
      ExactTakeIsTruth(e, h, i);
    }
  }

  lemma ExactTakeIsTruth(e: Evidence, h: History, i: nat)
    requires e.Exact() && |h.takes| == |e.deals| && i < |e.deals| && e.PossibleAt(h, i)
    requires e.Share(h, i) == e.ExactShare(i)
    ensures h.takes[i] == e.ExactTake(i)
  {
  }

  /** Whatever really happened, each pending deal took between its bounds; in the exact branch
      they coincide. */
  lemma BoundsBracketEveryHistory(e: Evidence, h: History, i: nat)
    requires e.Valid() && e.Possible(h) && (e.Exact() || e.JournalAgrees(h))
    requires i < |e.deals| && e.Pending(i)
    ensures e.Bound(i, true) <= h.takes[i] <= e.Bound(i, false)
    ensures e.Exact() ==> h.takes[i] == e.Bound(i, true)
  {
    if e.Exact() {
      ExactReplayIsTruth(e, h, i);
    } else {
      BoundedReplayBrackets(e, h, i);
      assert e.PossibleAt(h, i);
      TakeWithinBounds(e, h, i);
    }
  }

  lemma {:induction false} ReportedDeal(e: Evidence, n: nat, r: (Deal, int)) returns (i: nat)
    requires n <= |e.deals| && r in e.Verdict(n).reported
    ensures i < n && e.deals[i] == r.0 && e.Pending(i) && 0 < r.1 == e.Bound(i, true)
  {
    i := n - 1;
    if r in e.Verdict(n - 1).reported {
      i := ReportedDeal(e, n - 1, r);
    }
  }

  lemma {:induction false} AmbiguousDeal(e: Evidence, n: nat, a: (Deal, int, int)) returns (i: nat)
    requires n <= |e.deals| && a in e.Verdict(n).ambiguous
    ensures i < n && e.deals[i] == a.0 && e.Pending(i)
    ensures a.1 == e.Bound(i, true) <= 0 < a.2 == e.Bound(i, false)
  {
    i := n - 1;
    if a in e.Verdict(n - 1).ambiguous {
      i := AmbiguousDeal(e, n - 1, a);
    }
  }

  lemma {:induction false} ForeignDealListed(e: Evidence, n: nat, i: nat)
    requires i < n <= |e.deals| && e.Pending(i) && Foreign(e.pending[e.deals[i].id])
    ensures e.Bound(i, true) > 0 ==> (e.deals[i], e.Bound(i, true)) in e.Verdict(n).reported
    ensures e.Bound(i, true) <= 0 < e.Bound(i, false) ==>
              (e.deals[i], e.Bound(i, true), e.Bound(i, false)) in e.Verdict(n).ambiguous
  {
    if i < n - 1 {
      ForeignDealListed(e, n - 1, i);
    }
  }

  lemma TakenStep(e: Evidence, i: nat)
    requires i < |e.deals|
    ensures e.Verdict(i + 1).taken == e.Verdict(i).taken + if e.Pending(i) then e.Bound(i, true) else 0
  {
  }

  lemma {:induction false} TakenSums(e: Evidence, h: History, n: nat, exact: bool)
    requires n <= |e.deals| == |h.takes|
    requires forall i :: 0 <= i < n && e.Pending(i) ==>
               e.Bound(i, true) <= h.takes[i] && (exact ==> h.takes[i] == e.Bound(i, true))
    ensures e.Verdict(n).taken <= PendingTakes(e, h, n)
    ensures exact ==> e.Verdict(n).taken == PendingTakes(e, h, n)
  {
    if n > 0 {
      TakenSums(e, h, n - 1, exact);
      TakenStep(e, n - 1);
    }
  }

  lemma TakenIsLowerBound(e: Evidence, h: History, n: nat)
    requires e.Valid() && e.Possible(h) && (e.Exact() || e.JournalAgrees(h)) && n <= |e.deals|
    ensures e.Verdict(n).taken <= PendingTakes(e, h, n)
    ensures e.Exact() ==> e.Verdict(n).taken == PendingTakes(e, h, n)
  {
    forall i | 0 <= i < n && e.Pending(i)
      ensures e.Bound(i, true) <= h.takes[i] && (e.Exact() ==> h.takes[i] == e.Bound(i, true))
    {
      BoundsBracketEveryHistory(e, h, i);
    }
    TakenSums(e, h, n, e.Exact());
  }

  /** The verdict, for every possible history: every reported deal really took at least the
      reported amount, every ambiguous one between its bounds, a foreign pending deal that took
      anything is listed, and `taken` is a lower bound of what the pending deals took. */
  lemma VerdictIsSound(e: Evidence, h: History)
    requires e.Valid() && e.Possible(h) && (e.Exact() || e.JournalAgrees(h))
    ensures var replay := e.Verdict(|e.deals|);
            && (forall r :: r in replay.reported ==>
                  exists i :: 0 <= i < |e.deals| && e.deals[i] == r.0 && 0 < r.1 <= h.takes[i])
            && (forall a :: a in replay.ambiguous ==>
                  exists i :: 0 <= i < |e.deals| && e.deals[i] == a.0 && a.1 <= h.takes[i] <= a.2)
            && (forall i ::
                  0 <= i < |e.deals| && e.Pending(i) && Foreign(e.pending[e.deals[i].id]) && h.takes[i] > 0 ==>
                  || (e.deals[i], e.Bound(i, true)) in replay.reported
                  || (e.deals[i], e.Bound(i, true), e.Bound(i, false)) in replay.ambiguous)
            && replay.taken <= PendingTakes(e, h, |e.deals|)
  {
    var n := |e.deals|;
    var replay := e.Verdict(n);
    forall r | r in replay.reported
      ensures exists i :: 0 <= i < n && e.deals[i] == r.0 && 0 < r.1 <= h.takes[i]
    {
      var i := ReportedDeal(e, n, r);
      BoundsBracketEveryHistory(e, h, i);
    }
    forall a | a in replay.ambiguous
      ensures exists i :: 0 <= i < n && e.deals[i] == a.0 && a.1 <= h.takes[i] <= a.2
    {
      var i := AmbiguousDeal(e, n, a);
      BoundsBracketEveryHistory(e, h, i);
    }
    forall i | 0 <= i < n && e.Pending(i) && Foreign(e.pending[e.deals[i].id]) && h.takes[i] > 0
      ensures || (e.deals[i], e.Bound(i, true)) in replay.reported
              || (e.deals[i], e.Bound(i, true), e.Bound(i, false)) in replay.ambiguous
    {
      ForeignDealListed(e, n, i);
      BoundsBracketEveryHistory(e, h, i);
    }
    TakenIsLowerBound(e, h, n);
  }

  // --- the verdict is as sharp as the evidence -------------------------------------------

  /** A close that is not the bot's takes the least that leaves the share within what it left of the
      position: no more than it closed, and nothing while the share fits. */
  lemma ForeignTakesLeast(origin: Origin, closed: nat, share: int, remaining: int)
    requires origin != Own && share >= 0 && remaining >= 0
    ensures var take := TakeOf(origin, closed, share, remaining);
            && 0 <= take <= closed && take <= share
            && (take < closed ==> share - take <= remaining)
            && (take > 0 ==> share - take >= remaining)
  {
  }

  /** The volumes rebuilt backwards are those of the position running forwards, and a close left of it what
      there was before less what it closed. */
  lemma VenueRunsForward(e: Evidence, i: nat)
    requires i < |e.deals|
    ensures e.VenueBefore(|e.deals|) == e.venueNow
    ensures e.VenueBefore(i + 1) == e.VenueBefore(i) - e.deals[i].closed + e.deals[i].Opened()
    ensures e.deals[i].closed <= e.VenueBefore(i) && e.deals[i].closed <= e.deals[i].filled ==>
              e.Remaining(i) == e.VenueBefore(i) - e.deals[i].closed
  {
  }

  function FirstPending(e: Evidence, i: nat): (first: nat)
    requires i <= |e.deals|
    ensures i <= first <= |e.deals|
    decreases |e.deals| - i
  {
    if i == |e.deals| || e.Pending(i) then i else FirstPending(e, i + 1)
  }

  /** What the evidence leaves open: own openings not seen, and what judged deals from the first pending one
      on closed. */
  function Doubt(e: Evidence): int {
    e.UnseenOwnBefore(|e.deals|) + e.JudgedFrom(FirstPending(e, 0))
  }

  /** How far apart the bounds of what the first `n` deals took can be: each pending one at most doubles the
      doubt before it. */
  function Spread(e: Evidence, n: nat): int
    requires n <= |e.deals|
  {
    if n == 0 then 0 else if e.Pending(n - 1) then 2 * Spread(e, n - 1) + Doubt(e) else Spread(e, n - 1)
  }

  lemma {:induction false} JudgedShrinks(e: Evidence, i: nat, j: nat)
    requires i <= j <= |e.deals|
    ensures 0 <= e.JudgedFrom(j) <= e.JudgedFrom(i)
    decreases |e.deals| - i
  {
    if i < j {
      JudgedShrinks(e, i + 1, j);
    } else if i < |e.deals| {
      JudgedShrinks(e, i + 1, i + 1);
    }
  }

  lemma {:induction false} NothingPendingBefore(e: Evidence, i: nat, j: nat)
    requires i <= j < |e.deals| && e.Pending(j)
    ensures FirstPending(e, i) <= j
    decreases |e.deals| - i
  {
    if i < j {
      NothingPendingBefore(e, i + 1, j);
    }
  }

  lemma {:induction false} UnseenGrows(e: Evidence, i: nat, j: nat)
    requires e.Valid() && i <= j <= |e.deals|
    ensures 0 <= e.UnseenOwnBefore(i) <= e.UnseenOwnBefore(j)
    decreases j
  {
    if i < j {
      UnseenGrows(e, i, j - 1);
    } else if i > 0 {
      UnseenGrows(e, i - 1, i - 1);
    }
  }

  /** The own openings from a deal on that only one of the two bounds counts are those not seen. */
  lemma {:induction false} OwnUnseenFrom(e: Evidence, i: nat)
    requires e.Valid() && i <= |e.deals|
    ensures e.OwnFrom(i, e.ownOpening) - e.OwnFrom(i, e.seen)
            == e.UnseenOwnBefore(|e.deals|) - e.UnseenOwnBefore(i)
    decreases |e.deals| - i
  {
    if i < |e.deals| {
      OwnUnseenFrom(e, i + 1);
    }
  }

  lemma TakesClose(origin: Origin, closed: nat, low: int, high: int, remaining: int)
    requires low <= high
    ensures 0 <= TakeOf(origin, closed, high, remaining) - TakeOf(origin, closed, low, remaining) <= high - low
  {
  }

  /** The bounds of the shares are no further apart than the doubt and what the takes before were. */
  lemma SharesClose(e: Evidence, i: nat)
    requires e.Valid() && i < |e.deals| && e.Pending(i)
    requires e.TakenBefore(i, true) <= e.TakenBefore(i, false)
    ensures e.HighShare(i) - e.LowShare(i) <= Doubt(e) + e.TakenBefore(i, false) - e.TakenBefore(i, true)
    ensures e.LowShare(i) <= e.HighShare(i)
  {
    OwnUnseenFrom(e, i + 1);
    UnseenGrows(e, i, i + 1);
    UnseenGrows(e, i + 1, |e.deals|);
    NothingPendingBefore(e, 0, i);
    JudgedShrinks(e, FirstPending(e, 0), i + 1);
  }

  lemma {:induction false} TakesSpread(e: Evidence, i: nat)
    requires e.Valid() && i <= |e.deals|
    ensures 0 <= e.TakenBefore(i, false) - e.TakenBefore(i, true) <= Spread(e, i)
    ensures i < |e.deals| && e.Pending(i) ==>
              0 <= e.BoundedTake(i, false) - e.BoundedTake(i, true) <= Spread(e, i) + Doubt(e)
  {
    if i > 0 {
      TakesSpread(e, i - 1);
    }
    if i < |e.deals| && e.Pending(i) {
      SharesClose(e, i);
      var deal := e.deals[i];
      TakesClose(e.pending[deal.id], deal.closed, e.LowShare(i), e.HighShare(i), e.Remaining(i));
    }
  }

  /** How far the reported amount of pending deal `i` can be from what it took. */
  function Width(e: Evidence, i: nat): int
    requires i <= |e.deals|
  {
    if e.Exact() then 0 else Spread(e, i) + Doubt(e)
  }

  /** For every possible history: a foreign pending deal that took more than the evidence leaves open is
      reported with no less than the rest, and an ambiguous one took within as much. */
  lemma VerdictIsSharp(e: Evidence, h: History, i: nat)
    requires e.Valid() && e.Possible(h) && (e.Exact() || e.JournalAgrees(h))
    requires i < |e.deals| && e.Pending(i) && Foreign(e.pending[e.deals[i].id])
    ensures h.takes[i] > Width(e, i) ==>
              exists r :: r in e.Verdict(|e.deals|).reported && r.0 == e.deals[i]
                          && h.takes[i] - Width(e, i) <= r.1 <= h.takes[i]
    ensures forall a :: a in e.Verdict(|e.deals|).ambiguous && a.0 == e.deals[i] ==>
              a.2 - a.1 <= Width(e, i) && a.1 <= h.takes[i] <= a.2
  {
    BoundsBracketEveryHistory(e, h, i);
    TakesSpread(e, i);
    ForeignDealListed(e, |e.deals|, i);
    if h.takes[i] > Width(e, i) {
      var r := (e.deals[i], e.Bound(i, true));
      assert r in e.Verdict(|e.deals|).reported;
    }
    forall a | a in e.Verdict(|e.deals|).ambiguous && a.0 == e.deals[i]
      ensures a.2 - a.1 <= Width(e, i) && a.1 <= h.takes[i] <= a.2
    {
      var j := AmbiguousDeal(e, |e.deals|, a);
      assert j == i;
    }
  }

  /** Every own opening is seen, and no judged deal after a pending one closed anything. */
  predicate NothingOpen(e: Evidence) {
    && (forall i :: 0 <= i < |e.deals| && e.deals[i].id in e.ownOpening ==> e.deals[i].id in e.seen)
    && forall i, j :: 0 <= i < j < |e.deals| && e.Pending(i) && !e.Pending(j) ==> e.deals[j].closed == 0
  }

  lemma {:induction false} AllOwnSeen(e: Evidence, n: nat)
    requires e.Valid() && n <= |e.deals| && NothingOpen(e)
    ensures e.UnseenOwnBefore(n) == 0
  {
    if n > 0 {
      AllOwnSeen(e, n - 1);
    }
  }

  lemma {:induction false} NothingJudgedFrom(e: Evidence, i: nat, n: nat)
    requires n <= |e.deals| && NothingOpen(e) && i < n && e.Pending(i)
    ensures e.JudgedFrom(n) == 0
    decreases |e.deals| - n
  {
    if n < |e.deals| {
      NothingJudgedFrom(e, i, n + 1);
    }
  }

  lemma {:induction false} FirstIsPending(e: Evidence, i: nat)
    requires i <= |e.deals|
    ensures FirstPending(e, i) < |e.deals| ==> e.Pending(FirstPending(e, i))
    decreases |e.deals| - i
  {
    if i < |e.deals| && !e.Pending(i) {
      FirstIsPending(e, i + 1);
    }
  }

  lemma NoDoubt(e: Evidence)
    requires e.Valid() && NothingOpen(e)
    ensures Doubt(e) == 0
  {
    var first := FirstPending(e, 0);
    AllOwnSeen(e, |e.deals|);
    FirstIsPending(e, 0);
    if first < |e.deals| {
      NothingJudgedFrom(e, first, first + 1);
    }
  }

  lemma {:induction false} NoSpread(e: Evidence, n: nat)
    requires n <= |e.deals| && Doubt(e) == 0
    ensures Spread(e, n) == 0
  {
    if n > 0 {
      NoSpread(e, n - 1);
    }
  }

  /** What another party's pending deals, or any, really took, in the order of the deals. */
  function TookShare(e: Evidence, h: History, n: nat, foreign: bool): seq<(Deal, int)>
    requires n <= |e.deals| == |h.takes|
  {
    if n == 0 then []
    else
      TookShare(e, h, n - 1, foreign)
      + if e.Pending(n - 1) && h.takes[n - 1] > 0
           && (foreign ==> e.pending[e.deals[n - 1].id] in {External, Unattributed, Unknown})
        then [(e.deals[n - 1], h.takes[n - 1])] else []
  }

  /** Where nothing is open, the verdict is what really happened, in every possible history. */
  lemma VerdictIsTruth(e: Evidence, h: History)
    requires e.Valid() && e.Possible(h) && (e.Exact() || (e.JournalAgrees(h) && NothingOpen(e)))
    ensures e.Verdict(|e.deals|) == Replay(TookShare(e, h, |e.deals|, true), [], PendingTakes(e, h, |e.deals|),
                                          TookShare(e, h, |e.deals|, false))
  {
    if !e.Exact() {
      NoDoubt(e);
    }
    TruthUpTo(e, h, |e.deals|);
  }

  lemma {:induction false} TruthUpTo(e: Evidence, h: History, n: nat)
    requires e.Valid() && e.Possible(h) && (e.Exact() || (e.JournalAgrees(h) && Doubt(e) == 0)) && n <= |e.deals|
    ensures e.Verdict(n)
            == Replay(TookShare(e, h, n, true), [], PendingTakes(e, h, n), TookShare(e, h, n, false))
  {
    if n > 0 {
      TruthUpTo(e, h, n - 1);
      if e.Pending(n - 1) {
        BoundsBracketEveryHistory(e, h, n - 1);
        TakesSpread(e, n - 1);
        if !e.Exact() {
          NoSpread(e, n - 1);
        }
        assert e.Bound(n - 1, true) == h.takes[n - 1] == e.Bound(n - 1, false);
      }
    }
  }

  /** No deal is both reported and ambiguous. */
  lemma ReportedOrAmbiguous(e: Evidence, r: (Deal, int), a: (Deal, int, int))
    requires e.Valid()
    requires r in e.Verdict(|e.deals|).reported && a in e.Verdict(|e.deals|).ambiguous
    ensures r.0 != a.0
  {
    var i := ReportedDeal(e, |e.deals|, r);
    var j := AmbiguousDeal(e, |e.deals|, a);
    assert i != j;
  }

  // --- conservation ----------------------------------------------------------------

  /** The window's volumes add up: the position never holds less than nothing, and no deal closes
      more than it holds. */
  ghost predicate WellFormedWindow(e: Evidence) {
    forall i :: 0 <= i < |e.deals| ==> e.deals[i].closed <= e.VenueBefore(i)
  }

  function OwnBefore(e: Evidence, n: nat): int
    requires n <= |e.deals|
  {
    if n == 0 then 0 else OwnBefore(e, n - 1) + e.OwnOpened(n - 1)
  }

  function ExactTakesBefore(e: Evidence, n: nat): int
    requires n <= |e.deals| && e.Exact()
  {
    if n == 0 then 0 else ExactTakesBefore(e, n - 1) + e.ExactTake(n - 1)
  }

  /** The exact replay keeps the share between nothing and the venue's volume after every deal, and
      every own unit opened is either taken by some close or still in the share. */
  lemma {:induction false} ExactReplayConserves(e: Evidence, n: nat)
    requires e.Valid() && e.Exact() && WellFormedWindow(e) && n <= |e.deals|
    ensures 0 <= e.ExactShare(n) <= e.VenueBefore(n)
    ensures OwnBefore(e, n) == ExactTakesBefore(e, n) + e.ExactShare(n)
  {
    if n > 0 {
      ExactReplayConserves(e, n - 1);
    }
  }

  /** On a position that is gone, the closes took every unit the bot opened. */
  lemma GonePositionTookEverything(e: Evidence)
    requires e.Valid() && e.Exact() && WellFormedWindow(e) && e.venueNow == 0
    ensures ExactTakesBefore(e, |e.deals|) == OwnBefore(e, |e.deals|)
  {
    ExactReplayConserves(e, |e.deals|);
  }

  // --- filled then closed -----------------------------------------------------------

  datatype Event = Entry(qty: int) | Close(deal: int, qty: int)

  function EngineNet(events: seq<Event>): int {
    if events == [] then 0
    else EngineNet(events[..|events| - 1])
         + var event := events[|events| - 1]; if event.Entry? then event.qty else -event.qty
  }

  function ClosedBy(closes: seq<(Deal, int)>, seen: set<int>): int {
    if closes == [] then 0
    else ClosedBy(closes[..|closes| - 1], seen)
         + var close := closes[|closes| - 1]; if close.0.id in seen then 0 else close.1
  }

  /** What a vanished working order of size `qty`, booked up to `cursor`, still owes the engine
      when its deals `fillIds` filled `filled` in all (`_filled_then_closed_events`). */
  function EntryOwed(qty: int, cursor: int, filled: int, fillIds: set<int>, seen: set<int>): int {
    if fillIds <= seen then 0 else Max(0, Min(qty, Max(cursor, filled)) - cursor)
  }

  /** One event for each of the first `n` closes the stream did not deliver. */
  function CloseEvents(closes: seq<(Deal, int)>, seen: set<int>, n: nat): seq<Event>
    requires n <= |closes|
  {
    if n == 0 then []
    else CloseEvents(closes, seen, n - 1)
         + if closes[n - 1].0.id in seen then [] else [Close(closes[n - 1].0.id, closes[n - 1].1)]
  }

  /** The events are the closes at `places`, those of the first `n` not delivered, in their order. */
  ghost predicate ClosedAt(events: seq<Event>, closes: seq<(Deal, int)>, seen: set<int>, places: seq<int>, n: nat)
    requires n <= |closes|
  {
    && Increasing(places) && |events| == |places|
    && (forall i :: i in places <==> 0 <= i < n && closes[i].0.id !in seen)
    && forall j :: 0 <= j < |places| && 0 <= places[j] < n ==>
         events[j] == Close(closes[places[j]].0.id, closes[places[j]].1)
  }

  lemma {:induction false} CloseEventsAreEach(closes: seq<(Deal, int)>, seen: set<int>, n: nat)
    returns (places: seq<int>)
    requires n <= |closes|
    ensures ClosedAt(CloseEvents(closes, seen, n), closes, seen, places, n)
  {
    if n == 0 {
      places := [];
    } else {
      var older := CloseEventsAreEach(closes, seen, n - 1);
      places := ClosedNext(closes, seen, older, n - 1);
    }
  }

  lemma ClosedNext(closes: seq<(Deal, int)>, seen: set<int>, older: seq<int>, n: nat) returns (places: seq<int>)
    requires n < |closes| && ClosedAt(CloseEvents(closes, seen, n), closes, seen, older, n)
    ensures ClosedAt(CloseEvents(closes, seen, n + 1), closes, seen, places, n + 1)
  {
    forall j | 0 <= j < |older|
      ensures 0 <= older[j] < n
    {
      assert older[j] in older;
    }
    if closes[n].0.id in seen {
      places := older;
      assert CloseEvents(closes, seen, n + 1) == CloseEvents(closes, seen, n);
    } else {
      places := older + [n];
      assert CloseEvents(closes, seen, n + 1)
             == CloseEvents(closes, seen, n) + [Close(closes[n].0.id, closes[n].1)];
    }
  }

  method FilledThenClosedEvents(
    qty: int, cursor: int, filled: int, fillIds: set<int>, closes: seq<(Deal, int)>, seen: set<int>)
    returns (events: seq<Event>)
    ensures EngineNet(events) == EntryOwed(qty, cursor, filled, fillIds, seen) - ClosedBy(closes, seen)
    ensures var owed := EntryOwed(qty, cursor, filled, fillIds, seen);
            events == (if owed > 0 then [Entry(owed)] else []) + CloseEvents(closes, seen, |closes|)
  {
    events := [];
    var fillQty := Min(qty, Max(cursor, filled)) - cursor;
    ghost var owed := EntryOwed(qty, cursor, filled, fillIds, seen);
    if !(fillIds <= seen) && fillQty > 0 {
      events := [Entry(fillQty)];
      assert events[..0] == [];
    }
    for i := 0 to |closes|
      invariant EngineNet(events) == owed - ClosedBy(closes[..i], seen)
      invariant events == (if owed > 0 then [Entry(owed)] else []) + CloseEvents(closes, seen, i)
    {
      assert closes[..i + 1][..i] == closes[..i];
      if closes[i].0.id !in seen {
        var event := Close(closes[i].0.id, closes[i].1);
        assert (events + [event])[..|events|] == events;
        events := events + [event];
      }
    }
    assert closes[..|closes|] == closes;
  }

  lemma {:induction false} ClosedByAppend(closes: seq<(Deal, int)>, more: seq<(Deal, int)>, seen: set<int>)
    requires |more| <= 1
    ensures ClosedBy(closes + more, seen) ==
            ClosedBy(closes, seen) + if more == [] || more[0].0.id in seen then 0 else more[0].1
  {
    if more == [] {
      assert closes + more == closes;
    } else {
      assert (closes + more)[..|closes|] == closes;
    }
  }

  lemma TakesNothing(e: Evidence, i: nat)
    requires e.Valid() && e.Exact() && WellFormedWindow(e) && i < |e.deals|
    ensures 0 <= e.ExactTake(i) && (e.deals[i].closed == 0 ==> e.ExactTake(i) == 0)
  {
    ExactReplayConserves(e, i);
  }

  /** Where every closing deal is pending and none was delivered live, the booked closes carry all
      the exact takes. */
  lemma {:induction false} BookedCarriesTakes(e: Evidence, seen: set<int>, n: nat)
    requires e.Valid() && e.Exact() && WellFormedWindow(e) && n <= |e.deals|
    requires forall i :: 0 <= i < |e.deals| && e.deals[i].closed > 0 ==> e.Pending(i) && e.deals[i].id !in seen
    ensures ClosedBy(e.Verdict(n).booked, seen) == ExactTakesBefore(e, n)
  {
    if n > 0 {
      BookedCarriesTakes(e, seen, n - 1);
      TakesNothing(e, n - 1);
      if e.Pending(n - 1) {
        var take := e.ExactTake(n - 1);
        ClosedByAppend(e.Verdict(n - 1).booked, if take > 0 then [(e.deals[n - 1], take)] else [], seen);
      }
    }
  }

  /** What the window's deals of `ids` filled. */
  function FilledBy(e: Evidence, ids: set<int>, n: nat): (filled: int)
    requires n <= |e.deals|
    ensures filled >= 0
  {
    if n == 0 then 0
    else FilledBy(e, ids, n - 1) + if e.deals[n - 1].id in ids then e.deals[n - 1].filled else 0
  }

  lemma {:induction false} OwnDealsOnlyOpen(e: Evidence, n: nat)
    requires e.Valid() && n <= |e.deals| && OwnOnlyOpen(e)
    ensures FilledBy(e, e.ownOpening, n) == OwnBefore(e, n)
  {
    if n > 0 {
      OwnDealsOnlyOpen(e, n - 1);
    }
  }

  /** The order's deals open volume and close none. */
  predicate OwnOnlyOpen(e: Evidence) {
    forall i :: 0 <= i < |e.deals| && e.deals[i].id in e.ownOpening ==> e.deals[i].closed == 0
  }

  /** No close of the position was judged or delivered before. */
  predicate ClosesUnseen(e: Evidence, seen: set<int>) {
    forall i :: 0 <= i < |e.deals| && e.deals[i].closed > 0 ==> e.Pending(i) && e.deals[i].id !in seen
  }

  /** A single-row order recovered as filled-then-closed, none of its fills or closes booked before.
      The replay counts every executed deal of the order, the recovered fill only the FILLED ones
      (`fillIds`): the engine ends at their difference. */
  lemma FilledThenClosedNet(e: Evidence, qty: int, fillIds: set<int>, seen: set<int>)
    requires e.Valid() && e.Exact() && WellFormedWindow(e) && e.venueNow == 0
    requires ClosesUnseen(e, seen) && OwnOnlyOpen(e)
    requires fillIds !! seen && FilledBy(e, fillIds, |e.deals|) <= qty
    ensures EntryOwed(qty, 0, FilledBy(e, fillIds, |e.deals|), fillIds, seen)
            - ClosedBy(e.Verdict(|e.deals|).booked, seen)
            == FilledBy(e, fillIds, |e.deals|) - FilledBy(e, e.ownOpening, |e.deals|)
  {
    var n := |e.deals|;
    OwnDealsOnlyOpen(e, n);
    BookedCarriesTakes(e, seen, n);
    GonePositionTookEverything(e);
    if fillIds <= seen {
      NothingFilledBy(e, fillIds, n);
    }
  }

  lemma {:induction false} NothingFilledBy(e: Evidence, ids: set<int>, n: nat)
    requires n <= |e.deals| && forall id :: id !in ids
    ensures FilledBy(e, ids, n) == 0
  {
    if n > 0 {
      NothingFilledBy(e, ids, n - 1);
    }
  }

  lemma {:induction false} FilledAllIff(e: Evidence, fillIds: set<int>, n: nat)
    requires n <= |e.deals| && fillIds <= e.ownOpening
    ensures FilledBy(e, fillIds, n) <= FilledBy(e, e.ownOpening, n)
    ensures FilledBy(e, fillIds, n) == FilledBy(e, e.ownOpening, n) <==>
            forall i :: 0 <= i < n && e.deals[i].id in e.ownOpening && e.deals[i].filled > 0 ==>
              e.deals[i].id in fillIds
  {
    if n > 0 {
      FilledAllIff(e, fillIds, n - 1);
    }
  }

  /** It leaves the engine flat like the venue if and only if the history lists none of the order's
      executions as only partially filled. */
  lemma FilledThenClosedNetsToZeroIff(e: Evidence, qty: int, fillIds: set<int>, seen: set<int>)
    requires e.Valid() && e.Exact() && WellFormedWindow(e) && e.venueNow == 0
    requires ClosesUnseen(e, seen) && OwnOnlyOpen(e)
    requires fillIds <= e.ownOpening && fillIds !! seen && FilledBy(e, fillIds, |e.deals|) <= qty
    ensures EntryOwed(qty, 0, FilledBy(e, fillIds, |e.deals|), fillIds, seen)
            - ClosedBy(e.Verdict(|e.deals|).booked, seen) == 0
            <==> forall i :: 0 <= i < |e.deals| && e.deals[i].id in e.ownOpening && e.deals[i].filled > 0 ==>
                   e.deals[i].id in fillIds
  {
    FilledThenClosedNet(e, qty, fillIds, seen);
    FilledAllIff(e, fillIds, |e.deals|);
  }

  /** An execution listed as partially filled (3, say), one as filled (2), and a close of both: the
      engine books the second and the whole close, and ends short of the first. */
  lemma PartialFillLeavesEngineShort(partial: nat, full: nat)
    requires partial > 0 && full > 0
    ensures var deals := [Deal(1, partial, 0), Deal(2, full, 0), Deal(3, partial + full, partial + full)];
            var e := Evidence(deals, map[3 := External], map[], {1, 2}, {}, 0, 0);
            && e.Valid() && e.Exact() && WellFormedWindow(e) && FilledBy(e, {2}, 3) == full
            && EntryOwed(partial + full, 0, full, {2}, {}) - ClosedBy(e.Verdict(3).booked, {}) + partial == 0
  {
    var deals := [Deal(1, partial, 0), Deal(2, full, 0), Deal(3, partial + full, partial + full)];
    var e := Evidence(deals, map[3 := External], map[], {1, 2}, {}, 0, 0);
    ThreeDeals(e, {2});
    ThreeDeals(e, {1, 2});
    assert WellFormedWindow(e) && e.Exact();
    assert ClosesUnseen(e, {}) && OwnOnlyOpen(e);
    FilledThenClosedNet(e, partial + full, {2}, {});
  }

  lemma ThreeDeals(e: Evidence, ids: set<int>)
    requires |e.deals| == 3
    ensures FilledBy(e, ids, 3) == (if e.deals[0].id in ids then e.deals[0].filled else 0)
                                   + (if e.deals[1].id in ids then e.deals[1].filled else 0)
                                   + if e.deals[2].id in ids then e.deals[2].filled else 0
    ensures e.VenueBefore(2) == e.venueNow + e.deals[2].closed - e.deals[2].Opened()
    ensures e.VenueBefore(1) == e.VenueBefore(2) + e.deals[1].closed - e.deals[1].Opened()
    ensures e.VenueBefore(0) == e.VenueBefore(1) + e.deals[0].closed - e.deals[0].Opened()
  {
    assert FilledBy(e, ids, 0) == 0;
    assert FilledBy(e, ids, 1) == if e.deals[0].id in ids then e.deals[0].filled else 0;
    assert FilledBy(e, ids, 2) == FilledBy(e, ids, 1) + if e.deals[1].id in ids then e.deals[1].filled else 0;
  }
}

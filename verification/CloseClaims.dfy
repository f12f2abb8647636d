/** Settling one of the bot's own closes.

While the close is unanswered, every closing fill on its position is booked as the close's own (or
as what the venue's own close took) and its event is held.  The answer names the close's order:
the fills are then judged again with a running credit, and what was booked beyond what the bot's
share really lost comes off the held events and back to the journal.
*/
module CloseClaims {
  import opened Common
  import Exposure

  /** A fill taken while the close had no order id.  `share` is the pair of bounds of the journal
      share its booking assumed, `held` whether its engine event still waits, `terminal` whether it
      was its order's final fill. */
  datatype Claim = Claim(
    order: int,
    deal: int,
    fillQty: nat,
    executedMs: Option<int>,
    share: Option<(int, int)>,
    venueAfter: nat,
    booked: int,
    venue: bool,
    held: bool,
    terminal: bool)

  /** The fill the close's answer carried. */
  datatype AnswerFill = AnswerFill(deal: int, executedMs: Option<int>, closed: nat)

  predicate IsOwn(claim: Claim, order: Option<int>) {
    order == Some(claim.order)
  }

  /** The answer's fill, unless it was also taken as a claim. */
  function Ahead(claims: seq<Claim>, answer: Option<AnswerFill>): Option<AnswerFill> {
    if answer.Some? && exists i :: 0 <= i < |claims| && claims[i].deal == answer.value.deal then None else answer
  }

  /** `(low, high)` volume the answer's fill may have closed before the claim. */
  function Lead(claim: Claim, ahead: Option<AnswerFill>): (int, int) {
    if ahead.None? then (0, 0)
    else if ahead.value.executedMs.None? || claim.executedMs.None? then (0, ahead.value.closed)
    else if claim.executedMs.value > ahead.value.executedMs.value then (ahead.value.closed, ahead.value.closed)
    else if claim.executedMs.value < ahead.value.executedMs.value then (0, 0)
    else (0, ahead.value.closed)
  }

  /** What a claim of another order provably took of the share, given the credit so far.
      `others` are the orders known to be further own orders of the run. */
  function TakenByOther(claim: Claim, credit: int, ahead: Option<AnswerFill>, others: set<int>): int {
    if !claim.venue && claim.order in others then claim.booked
    else if claim.share.None? then claim.booked
    else Min(claim.fillQty, Max(0, Max(0, claim.share.value.0 + credit - Lead(claim, ahead).1) - claim.venueAfter))
  }

  /** What the credit changes by at a claim of the close's own order. */
  function OwnShortfall(claim: Claim, credit: int): int {
    if claim.share.None? then 0
    else Max(0, Min(claim.fillQty, claim.share.value.1 + credit) - claim.booked)
  }

  /** The credit after a claim that had it at `credit`. */
  function CreditAfter(
    claim: Claim, order: Option<int>, ahead: Option<AnswerFill>, others: set<int>, credit: int): int {
    if IsOwn(claim, order) then credit - OwnShortfall(claim, credit)
    else credit + claim.booked - TakenByOther(claim, credit, ahead, others)
  }

  /** Volume the first `n` claims booked that the share did not lose. */
  function Credit(claims: seq<Claim>, order: Option<int>, ahead: Option<AnswerFill>, others: set<int>, n: nat): int
    requires n <= |claims|
  {
    if n == 0 then 0
    else
      CreditAfter(claims[n - 1], order, ahead, others, Credit(claims, order, ahead, others, n - 1))
  }

  function TakenAt(claims: seq<Claim>, order: Option<int>, ahead: Option<AnswerFill>, others: set<int>, i: nat): int
    requires i < |claims|
  {
    TakenByOther(claims[i], Credit(claims, order, ahead, others, i), ahead, others)
  }

  /** What claim `i` booked beyond the share it took. */
  function Excess(claims: seq<Claim>, order: Option<int>, ahead: Option<AnswerFill>, others: set<int>, i: nat): int
    requires i < |claims|
  {
    if IsOwn(claims[i], order) then 0
    else Max(0, claims[i].booked - TakenAt(claims, order, ahead, others, i))
  }

  function ExcessBefore(
    claims: seq<Claim>, order: Option<int>, ahead: Option<AnswerFill>, others: set<int>, n: nat): int
    requires n <= |claims|
  {
    if n == 0 then 0
    else ExcessBefore(claims, order, ahead, others, n - 1) + Excess(claims, order, ahead, others, n - 1)
  }

  /** What comes off claim `i`'s held event: the final credit, spread over the claims that booked
      too much in the order they were taken. */
  function Cut(claims: seq<Claim>, order: Option<int>, ahead: Option<AnswerFill>, others: set<int>, i: nat): int
    requires i < |claims|
  {
    Clamp(Max(0, Credit(claims, order, ahead, others, |claims|)) - ExcessBefore(claims, order, ahead, others, i),
          Excess(claims, order, ahead, others, i))
  }

  function Cuts(claims: seq<Claim>, order: Option<int>, ahead: Option<AnswerFill>, others: set<int>): seq<int> {
    seq(|claims|, i requires 0 <= i < |claims| => Cut(claims, order, ahead, others, i))
  }

  /** The cuts of the first `n` claims. */
  function CutsBefore(claims: seq<Claim>, order: Option<int>, ahead: Option<AnswerFill>, others: set<int>, n: nat): int
    requires n <= |claims|
  {
    if n == 0 then 0
    else CutsBefore(claims, order, ahead, others, n - 1) + Cut(claims, order, ahead, others, n - 1)
  }

  function OwnClaims(claims: seq<Claim>, order: Option<int>): seq<Claim> {
    if claims == [] then []
    else OwnClaims(claims[..|claims| - 1], order)
         + if IsOwn(claims[|claims| - 1], order) then [claims[|claims| - 1]] else []
  }

  /** The claims reported as someone else's close of the bot's position. */
  predicate Reports(claims: seq<Claim>, order: Option<int>, ahead: Option<AnswerFill>, others: set<int>,
                    hedged: bool, i: nat)
    requires i < |claims|
  {
    && !IsOwn(claims[i], order) && !claims[i].venue && claims[i].order !in others
    && if claims[i].share.None? then hedged else TakenAt(claims, order, ahead, others, i) > 0
  }

  /** The claims reported, of the first `n`. */
  function ReportedBy(claims: seq<Claim>, order: Option<int>, ahead: Option<AnswerFill>, others: set<int>,
                      hedged: bool, n: nat): seq<Claim>
    requires n <= |claims|
  {
    if n == 0 then []
    else ReportedBy(claims, order, ahead, others, hedged, n - 1)
         + if Reports(claims, order, ahead, others, hedged, n - 1) then [claims[n - 1]] else []
  }

  /** They are exactly those that are not the close's own, a venue's or a further own order's, and took part
      of the share or, where it was unknown, are on a hedged account. */
  lemma {:induction false} ReportedAre(
    claims: seq<Claim>, order: Option<int>, ahead: Option<AnswerFill>, others: set<int>, hedged: bool, n: nat)
    requires n <= |claims|
    ensures forall c :: c in ReportedBy(claims, order, ahead, others, hedged, n) <==>
              exists i :: 0 <= i < n && claims[i] == c && order != Some(c.order) && !c.venue && c.order !in others
                          && (c.share.None? ==> hedged)
                          && (c.share.Some? ==> TakenAt(claims, order, ahead, others, i) > 0)
  {
    if n > 0 {
      ReportedAre(claims, order, ahead, others, hedged, n - 1);
    }
  }

  /** What is kept of some claims and then more is what is kept of each; of one claim it is that claim if it
      is of the order. */
  lemma {:induction false} OwnClaimsAre(some: seq<Claim>, more: seq<Claim>, order: Option<int>)
    ensures OwnClaims(some + more, order) == OwnClaims(some, order) + OwnClaims(more, order)
    ensures |more| == 1 ==> OwnClaims(more, order) == if order == Some(more[0].order) then more else []
  {
    if more == [] {
      assert some + more == some;
    } else {
      var rest, last := more[..|more| - 1], more[|more| - 1];
      var kept := if IsOwn(last, order) then [last] else [];
      OwnClaimsAre(some, rest, order);
      assert (some + more)[..|some + more| - 1] == some + rest;
      assert OwnClaims(some + more, order) == (OwnClaims(some, order) + OwnClaims(rest, order)) + kept;
      assert OwnClaims(more, order) == OwnClaims(rest, order) + kept;
    }
  }

  // --- the events ------------------------------------------------------------------

  /** An engine event delivered: the deal it carries and its quantity. */
  datatype Event = Event(deal: int, qty: int)

  function Quantity(events: seq<Event>): int {
    if events == [] then 0 else Quantity(events[..|events| - 1]) + events[|events| - 1].qty
  }

  lemma QuantityPush(events: seq<Event>, event: Event)
    ensures Quantity(events + [event]) == Quantity(events) + event.qty
  {
  }

  /** Of the first `n` claims exactly those at `places`, in this order, have an event, each of its own
      deal and of what it booked less its cut: the held ones of which something is left. */
  ghost predicate DeliversAt(events: seq<Event>, claims: seq<Claim>, cuts: seq<int>, places: seq<int>, n: nat)
    requires n <= |claims| == |cuts|
  {
    && Increasing(places) && |events| == |places|
    && (forall i :: i in places <==> 0 <= i < n && claims[i].held && claims[i].booked > cuts[i])
    && forall j :: 0 <= j < |places| && 0 <= places[j] < n ==>
         events[j] == Event(claims[places[j]].deal, claims[places[j]].booked - cuts[places[j]])
  }

  /** The events of the first `n` claims, less their cuts. */
  function EventsOf(claims: seq<Claim>, cuts: seq<int>, n: nat): seq<Event>
    requires n <= |claims| == |cuts|
  {
    if n == 0 then []
    else EventsOf(claims, cuts, n - 1)
         + if claims[n - 1].held && claims[n - 1].booked > cuts[n - 1]
           then [Event(claims[n - 1].deal, claims[n - 1].booked - cuts[n - 1])] else []
  }

  /** They are exactly one for each held claim of which something is left, in the order of the claims. */
  lemma {:induction false} EventsAreEach(claims: seq<Claim>, cuts: seq<int>, n: nat) returns (places: seq<int>)
    requires n <= |claims| == |cuts|
    ensures DeliversAt(EventsOf(claims, cuts, n), claims, cuts, places, n)
  {
    if n == 0 {
      places := [];
    } else {
      var older := EventsAreEach(claims, cuts, n - 1);
      places := DeliversNext(claims, cuts, older, n - 1);
    }
  }

  lemma DeliversNext(claims: seq<Claim>, cuts: seq<int>, older: seq<int>, n: nat) returns (places: seq<int>)
    requires n < |claims| == |cuts| && DeliversAt(EventsOf(claims, cuts, n), claims, cuts, older, n)
    ensures DeliversAt(EventsOf(claims, cuts, n + 1), claims, cuts, places, n + 1)
  {
    forall j | 0 <= j < |older|
      ensures 0 <= older[j] < n
    {
      assert older[j] in older;
    }
    if claims[n].held && claims[n].booked > cuts[n] {
      var event := Event(claims[n].deal, claims[n].booked - cuts[n]);
      places := older + [n];
      assert EventsOf(claims, cuts, n + 1) == EventsOf(claims, cuts, n) + [event];
    } else {
      places := older;
      assert EventsOf(claims, cuts, n + 1) == EventsOf(claims, cuts, n);
    }
  }

  /** A settlement cuts no event of the close's own order, of the others only what they booked beyond what
      they took, and a later one only once the earlier excess is cut whole. */
  lemma CutsAreExcess(
    claims: seq<Claim>, order: Option<int>, ahead: Option<AnswerFill>, others: set<int>, i: nat)
    requires i < |claims|
    ensures var cut := Cut(claims, order, ahead, others, i);
            && (IsOwn(claims[i], order) ==> cut == 0)
            && (cut > 0 ==> !IsOwn(claims[i], order)
                            && cut <= claims[i].booked - TakenAt(claims, order, ahead, others, i))
    ensures !IsOwn(claims[i], order)
            && Cut(claims, order, ahead, others, i) < claims[i].booked - TakenAt(claims, order, ahead, others, i) ==>
              forall j :: i < j < |claims| ==> Cut(claims, order, ahead, others, j) == 0
  {
    forall j | i < j < |claims|
      ensures ExcessBefore(claims, order, ahead, others, i + 1) <= ExcessBefore(claims, order, ahead, others, j)
    {
      ExcessGrows(claims, order, ahead, others, i + 1, j);
    }
  }

  lemma {:induction false} ExcessGrows(
    claims: seq<Claim>, order: Option<int>, ahead: Option<AnswerFill>, others: set<int>, m: nat, n: nat)
    requires m <= n <= |claims|
    ensures ExcessBefore(claims, order, ahead, others, m) <= ExcessBefore(claims, order, ahead, others, n)
  {
    if m < n {
      ExcessGrows(claims, order, ahead, others, m, n - 1);
    }
  }

  function Uncut(claims: seq<Claim>): seq<int> {
    seq(|claims|, i => 0)
  }

  // --- the run: fills taken while the close is in flight ------------------------

  /** A closing fill on the position: its order, volume, what it left of the position on the bot's
      side, whether it is the venue's own close, whether its order's final fill, and what answered closes
      of the position left unresolved when it was taken. */
  datatype Fill = Fill(
    order: int,
    deal: int,
    qty: nat,
    executedMs: Option<int>,
    venueAfter: nat,
    venue: bool,
    terminal: bool,
    unresolved: nat)

  /** The least the bot's share can be when the journal has `share`: whatever is unresolved may have
      executed. */
  function LowShare(share: int, unresolved: nat): int {
    Max(0, share - unresolved)
  }

  /** What the event stream books for a fill taken while the close is in flight: for the close
      itself at most the share and at most what it asked for, for a venue close what it provably took
      the position below the share. */
  function Booking(volume: Option<nat>, claimed: int, share: int, fill: Fill): int {
    if fill.venue then Min(fill.qty, Max(0, LowShare(share, fill.unresolved) - fill.venueAfter))
    else if volume.None? then Min(fill.qty, share)
    else Min(Min(fill.qty, share), Max(0, volume.value - claimed))
  }

  /** An own close in flight, with the fills taken so far, on a position of which the journal held
      `start` and the bot really `held` when it was sent. */
  datatype Flight = Flight(start: nat, held: nat, volume: Option<nat>, fills: seq<Fill>) {
    /** The journal share before fill `n`. */
    function JournalShare(n: nat): int
      requires n <= |fills|
      decreases n, 0
    {
      if n == 0 then start else JournalShare(n - 1) - Booked(n - 1)
    }

    function Claimed(n: nat): int
      requires n <= |fills|
      decreases n, 0
    {
      if n == 0 then 0 else Claimed(n - 1) + if fills[n - 1].venue then 0 else Booked(n - 1)
    }

    function Booked(i: nat): int
      requires i < |fills|
      decreases i, 1
    {
      Booking(volume, Claimed(i), JournalShare(i), fills[i])
    }

    /** Fill `i` is the bot's when the bot's orders are `own`. */
    predicate IsOwnFill(own: set<int>, i: nat)
      requires i < |fills|
    {
      !fills[i].venue && fills[i].order in own
    }

    /** What fill `i` takes of a share of `share` when the bot's orders are `own`. */
    function TakesOf(own: set<int>, i: nat, share: int): int
      requires i < |fills|
    {
      if IsOwnFill(own, i) then Min(fills[i].qty, share) else Min(fills[i].qty, Max(0, share - fills[i].venueAfter))
    }

    /** What fill `i` really took of the bot's share. */
    function ReallyTook(own: set<int>, i: nat): int
      requires i < |fills|
      decreases i, 1
    {
      TakesOf(own, i, RealShare(own, i))
    }

    function RealShare(own: set<int>, n: nat): int
      requires n <= |fills|
      decreases n, 0
    {
      if n == 0 then held else RealShare(own, n - 1) - ReallyTook(own, n - 1)
    }

    /** The real share before fill `n` when a fill of the close that closed `closed`, and is not among
        `fills`, executed just before fill `at`. */
    function ShareWith(own: set<int>, closed: nat, at: nat, n: nat): int
      requires n <= |fills|
    {
      var share := if n == 0 then held
                   else var before := ShareWith(own, closed, at, n - 1); before - TakesOf(own, n - 1, before);
      if n == at then share - Min(closed, share) else share
    }

    /** The same when further closes of the bot executed `unseen[i]` unseen before each fill `i`. */
    function ShareAmid(own: set<int>, closed: nat, at: nat, unseen: seq<nat>, n: nat): int
      requires n <= |fills| == |unseen|
    {
      var share := if n == 0 then held
                   else
                     var before := ShareAmid(own, closed, at, unseen, n - 1);
                     var met := before - Min(unseen[n - 1], before);
                     met - TakesOf(own, n - 1, met);
      if n == at then share - Min(closed, share) else share
    }

    /** The fill the answer carried can have executed just before fill `at`. */
    predicate AnsweredAt(ahead: Option<AnswerFill>, at: nat) {
      at <= |fills| && (ahead.Some? ==> forall i :: 0 <= i < |fills| ==> TimesAgree(ahead.value, fills[i], at <= i))
    }

    function ClaimAt(i: nat): Claim
      requires i < |fills|
    {
      var f := fills[i];
      Claim(f.order, f.deal, f.qty, f.executedMs, Some((LowShare(JournalShare(i), f.unresolved), JournalShare(i))),
            f.venueAfter, Booked(i), f.venue, Booked(i) > 0, f.terminal)
    }

    function Claims(): seq<Claim> {
      seq(|fills|, i requires 0 <= i < |fills| => ClaimAt(i))
    }

    /** No close was unresolved when any of the fills was taken, so that each claim has one exact share. */
    predicate Exact() {
      forall i :: 0 <= i < |fills| ==> fills[i].unresolved == 0
    }

    /** The venue's own closes never carry the close's order id. */
    predicate VenueOrdersDiffer(order: Option<int>) {
      forall i :: 0 <= i < |fills| && fills[i].venue ==> Some(fills[i].order) != order
    }

    /** The credit once every fill is walked with the answer's order, no claim of another own order. */
    function FinalCredit(order: Option<int>, ahead: Option<AnswerFill>): int {
      Credit(Claims(), order, ahead, {}, |fills|)
    }

    /** Every fill is known to have executed before or after the one the answer carried, if that closed
        anything. */
    predicate TimesKnown(ahead: Option<AnswerFill>) {
      Closed(ahead) > 0 ==> forall i :: 0 <= i < |fills| ==> OrderKnown(ahead.value, fills[i])
    }
  }

  /** The times known of the two allow the fill to have executed after the answer's (`later`) or before. */
  predicate TimesAgree(answer: AnswerFill, fill: Fill, later: bool) {
    answer.executedMs.Some? && fill.executedMs.Some? ==>
      if later then answer.executedMs.value <= fill.executedMs.value
      else fill.executedMs.value <= answer.executedMs.value
  }

  predicate OrderKnown(answer: AnswerFill, fill: Fill) {
    answer.executedMs.Some? && fill.executedMs.Some? && answer.executedMs.value != fill.executedMs.value
  }

  function Closed(ahead: Option<AnswerFill>): nat {
    if ahead.None? then 0 else ahead.value.closed
  }

  /** The orders the bot's when the close's order is `order`. */
  function OwnOrders(order: Option<int>): set<int> {
    if order.None? then {} else {order.value}
  }

  /** One fill, in numbers: `share` and `journal` are the real and the journal share before it.  The
      real share falls behind the journal only where the close's requested volume is fully claimed. */
  lemma BookingStep(volume: Option<nat>, claimed: int, journal: int, share: int, fill: Fill, own: bool)
    requires journal >= 0 && share >= 0 && (own ==> !fill.venue) && (fill.venue ==> fill.unresolved == 0)
    requires volume.Some? ==> claimed <= volume.value
    requires share < journal ==> volume.Some? && claimed == volume.value
    ensures var booked := Booking(volume, claimed, journal, fill);
            var took := if own then Min(fill.qty, share) else Min(fill.qty, Max(0, share - fill.venueAfter));
            var claimed' := claimed + if fill.venue then 0 else booked;
            && 0 <= took <= share && 0 <= booked <= journal
            && (own ==> booked <= took)
            && (volume.Some? ==> claimed' <= volume.value)
            && (share - took < journal - booked ==> volume.Some? && claimed' == volume.value)
  {
  }

  /** Of a close sent with no less than the journal share, its claims exact: both shares never fall below
      nothing, the real one behind the journal's only where the requested volume is fully claimed, and
      until then an own fill books no more than it took. */
  lemma {:induction false} SharesInStep(f: Flight, own: set<int>, n: nat)
    requires n <= |f.fills| && f.start <= f.held && f.Exact()
    ensures f.RealShare(own, n) >= 0 && f.JournalShare(n) >= 0
    ensures f.volume.Some? ==> f.Claimed(n) <= f.volume.value
    ensures f.RealShare(own, n) < f.JournalShare(n) ==> f.volume.Some? && f.Claimed(n) == f.volume.value
    ensures n < |f.fills| && f.IsOwnFill(own, n) ==> f.Booked(n) <= f.ReallyTook(own, n)
    ensures n < |f.fills| ==> 0 <= f.ReallyTook(own, n)
  {
    if n > 0 {
      var i := n - 1;
      SharesInStep(f, own, i);
      assert f.RealShare(own, n) == f.RealShare(own, i) - f.ReallyTook(own, i);
      assert f.JournalShare(n) == f.JournalShare(i) - f.Booked(i);
      assert f.Claimed(n) == f.Claimed(i) + if f.fills[i].venue then 0 else f.Booked(i);
      BookingStep(f.volume, f.Claimed(i), f.JournalShare(i), f.RealShare(own, i), f.fills[i], f.IsOwnFill(own, i));
    }
    if n < |f.fills| {
      BookingStep(f.volume, f.Claimed(n), f.JournalShare(n), f.RealShare(own, n), f.fills[n], f.IsOwnFill(own, n));
    }
  }

  lemma {:induction false} CreditWithinExcess(
    claims: seq<Claim>, order: Option<int>, ahead: Option<AnswerFill>, others: set<int>, n: nat)
    requires n <= |claims|
    ensures Credit(claims, order, ahead, others, n) <= ExcessBefore(claims, order, ahead, others, n)
    ensures ExcessBefore(claims, order, ahead, others, n) >= 0
  {
    if n > 0 {
      CreditWithinExcess(claims, order, ahead, others, n - 1);
    }
  }

  /** The cuts of the first `n` claims add up to the final credit, as far as their excess goes. */
  lemma {:induction false} CutsSpendCredit(
    claims: seq<Claim>, order: Option<int>, ahead: Option<AnswerFill>, others: set<int>, n: nat)
    requires n <= |claims|
    ensures CutsBefore(claims, order, ahead, others, n) ==
            Min(Max(0, Credit(claims, order, ahead, others, |claims|)), ExcessBefore(claims, order, ahead, others, n))
  {
    CreditWithinExcess(claims, order, ahead, others, n);
    if n > 0 {
      CutsSpendCredit(claims, order, ahead, others, n - 1);
      CreditWithinExcess(claims, order, ahead, others, n - 1);
    }
  }

  /** Every claim of the flight books between nothing and what is left of the journal share. */
  lemma {:induction false} JournalShareSpends(f: Flight, n: nat)
    requires n <= |f.fills|
    ensures 0 <= f.JournalShare(n) <= f.start - f.Claimed(n)
    ensures f.Claimed(n) >= 0 && (n < |f.fills| ==> 0 <= f.Booked(n) <= f.JournalShare(n))
  {
    if n > 0 {
      JournalShareSpends(f, n - 1);
    }
  }

  /** A claim that booked nothing negative is cut by no more than it booked. */
  lemma CutWithinBooked(claims: seq<Claim>, order: Option<int>, ahead: Option<AnswerFill>, others: set<int>, i: nat)
    requires i < |claims| && claims[i].booked >= 0
    ensures 0 <= Cut(claims, order, ahead, others, i) <= claims[i].booked
  {
  }

  /** A claim books nothing negative, and its event is held if it booked anything. */
  predicate Booked(claims: seq<Claim>) {
    forall i :: 0 <= i < |claims| ==> claims[i].booked >= 0 && claims[i].held == (claims[i].booked > 0)
  }

  predicate Within(cuts: seq<int>, claims: seq<Claim>) {
    |cuts| == |claims| && forall i :: 0 <= i < |claims| ==> 0 <= cuts[i] <= claims[i].booked
  }

  lemma CutsWithinBooked(claims: seq<Claim>, order: Option<int>, ahead: Option<AnswerFill>, others: set<int>)
    requires Booked(claims)
    ensures Within(Cuts(claims, order, ahead, others), claims) && Booked(OwnClaims(claims, order))
  {
    OwnClaimsBooked(claims, order);
    forall i | 0 <= i < |claims|
      ensures 0 <= Cut(claims, order, ahead, others, i) <= claims[i].booked
    {
      CutWithinBooked(claims, order, ahead, others, i);
    }
  }

  lemma {:induction false} ExcessWithinBooked(
    claims: seq<Claim>, order: Option<int>, ahead: Option<AnswerFill>, others: set<int>, n: nat)
    requires n <= |claims| && Booked(claims)
    ensures ExcessBefore(claims, order, ahead, others, n) <= TotalBooked(claims, n)
  {
    if n > 0 {
      ExcessWithinBooked(claims, order, ahead, others, n - 1);
    }
  }

  /** The cuts of a settlement add up to the credit, which is no more than was booked. */
  lemma SettledCuts(claims: seq<Claim>, order: Option<int>, ahead: Option<AnswerFill>, others: set<int>)
    requires Booked(claims)
    ensures CutsBefore(claims, order, ahead, others, |claims|)
            == Max(0, Credit(claims, order, ahead, others, |claims|)) <= TotalBooked(claims, |claims|)
  {
    CutsSpendCredit(claims, order, ahead, others, |claims|);
    CreditWithinExcess(claims, order, ahead, others, |claims|);
    ExcessWithinBooked(claims, order, ahead, others, |claims|);
  }

  // --- what a settlement may book -------------------------------------------------

  /** What the walk takes the share for: `total`, the journal share and the credit, before the answer's
      fill executed, and once it has (`passed`) that less what it closed. */
  function Walked(total: int, closed: nat, passed: bool): int {
    if passed then Max(0, total - closed) else total
  }

  /** `share` is at most `slack` above that. */
  predicate Covers(share: int, total: int, slack: nat, closed: nat, passed: bool) {
    share <= slack + Walked(total, closed, passed)
  }

  lemma OwnClaimCovers(qty: nat, booked: int, share: int, total: int, slack: nat, closed: nat, passed: bool)
    requires 0 <= booked <= qty && booked <= total && share >= 0 && Covers(share, total, slack, closed, passed)
    ensures Covers(share - Min(qty, share), total - booked, slack, closed, passed)
    ensures Covers(share - Min(qty, share), total - Max(booked, Min(qty, total)), slack, closed, passed)
  {
  }

  lemma OtherClaimCovers(
    qty: nat, venueAfter: nat, lead: int, taken: int, share: int, total: int, slack: nat, closed: nat, passed: bool)
    requires share >= 0 && Covers(share, total, slack, closed, passed)
    requires lead >= 0 && (passed ==> lead == closed)
    requires taken <= Min(qty, Max(0, Max(0, total - lead) - venueAfter))
    ensures Covers(share - Min(qty, Max(0, share - venueAfter)), total - taken, slack, closed, passed)
  {
  }

  lemma LeadIsClosed(f: Flight, ahead: Option<AnswerFill>, at: nat, i: nat)
    requires i < |f.fills| && f.AnsweredAt(ahead, at)
    ensures Lead(f.ClaimAt(i), ahead).1 >= 0 && (at <= i ==> Lead(f.ClaimAt(i), ahead).1 == Closed(ahead))
  {
    assert at <= i && ahead.Some? ==> TimesAgree(ahead.value, f.fills[i], true);
  }

  /** What the walk's step at claim `i` takes the share for afterwards. */
  lemma WalkedTo(f: Flight, order: Option<int>, ahead: Option<AnswerFill>, others: set<int>, i: nat, credit: int)
    requires i < |f.fills| && (f.fills[i].venue ==> Some(f.fills[i].order) != order)
    ensures var fill, total, claim := f.fills[i], f.JournalShare(i) + credit, f.ClaimAt(i);
            f.JournalShare(i) - f.Booked(i) + CreditAfter(claim, order, ahead, others, credit) ==
              if IsOwn(claim, order) then total - Max(f.Booked(i), Min(fill.qty, total))
              else if f.IsOwnFill(OwnOrders(order) + others, i) then total - f.Booked(i)
              else total - TakenByOther(claim, credit, ahead, others)
    ensures IsOwn(f.ClaimAt(i), order) ==> f.IsOwnFill(OwnOrders(order) + others, i)
  {
  }

  /** A claim of another order is judged to have taken no more than a share as large as the walk takes it
      for would have lost, and exactly that where no close was unresolved. */
  lemma TakenWithin(f: Flight, order: Option<int>, ahead: Option<AnswerFill>, others: set<int>, i: nat, credit: int)
    requires i < |f.fills| && !f.IsOwnFill(others, i)
    ensures var fill, total, claim := f.fills[i], f.JournalShare(i) + credit, f.ClaimAt(i);
            var taken := TakenByOther(claim, credit, ahead, others);
            var most := Min(fill.qty, Max(0, Max(0, total - Lead(claim, ahead).1) - fill.venueAfter));
            0 <= taken && (f.JournalShare(i) >= 0 ==> taken <= most)
            && (fill.unresolved == 0 && f.JournalShare(i) >= 0 ==> taken == most)
  {
  }

  /** The walk's step at claim `i`, the answer's fill ahead, keeps the share covered. */
  lemma ClaimCovers(
    f: Flight, order: Option<int>, ahead: Option<AnswerFill>, others: set<int>, at: nat, i: nat, share: int,
    credit: int, slack: nat)
    requires i < |f.fills| && (f.fills[i].venue ==> Some(f.fills[i].order) != order)
    requires Lead(f.ClaimAt(i), ahead).1 >= 0 && (at <= i ==> Lead(f.ClaimAt(i), ahead).1 == Closed(ahead))
    requires share >= 0 && Covers(share, f.JournalShare(i) + credit, slack, Closed(ahead), at <= i)
    requires 0 <= f.Booked(i) <= f.fills[i].qty && f.JournalShare(i) >= 0
    requires f.IsOwnFill(OwnOrders(order) + others, i) ==> f.Booked(i) <= f.JournalShare(i) + credit
    ensures var took := f.TakesOf(OwnOrders(order) + others, i, share);
            && share - took >= 0
            && Covers(share - took,
                      f.JournalShare(i) - f.Booked(i) + CreditAfter(f.ClaimAt(i), order, ahead, others, credit),
                      slack, Closed(ahead), at <= i)
  {
    var fill, total := f.fills[i], f.JournalShare(i) + credit;
    WalkedTo(f, order, ahead, others, i, credit);
    if f.IsOwnFill(OwnOrders(order) + others, i) {
      OwnClaimCovers(fill.qty, f.Booked(i), share, total, slack, Closed(ahead), at <= i);
    } else {
      TakenWithin(f, order, ahead, others, i, credit);
      OtherClaimCovers(fill.qty, fill.venueAfter, Lead(f.ClaimAt(i), ahead).1,
                       TakenByOther(f.ClaimAt(i), credit, ahead, others), share, total, slack, Closed(ahead), at <= i);
    }
  }

  /** The bot's share, the answer's fill executed, is never above what the walk takes it for by more
      than it was when the close was sent: whatever bounds of the share the claims were taken with. */
  lemma {:induction false} CreditCoversTruth(
    f: Flight, order: Option<int>, ahead: Option<AnswerFill>, others: set<int>, at: nat, n: nat)
    requires n <= |f.fills| && f.VenueOrdersDiffer(order) && f.AnsweredAt(ahead, at) && f.start <= f.held
    ensures WalkCovers(f, order, ahead, others, at, n)
  {
    if n > 0 {
      var i := n - 1;
      CreditCoversTruth(f, order, ahead, others, at, i);
      CoversNext(f, order, ahead, others, at, i);
    }
  }

  /** After `n` claims the share is at most what it was above the journal share when the close was sent,
      above what the walk takes it for. */
  predicate WalkCovers(f: Flight, order: Option<int>, ahead: Option<AnswerFill>, others: set<int>, at: nat, n: nat)
    requires n <= |f.fills| && f.start <= f.held
  {
    var share := f.ShareWith(OwnOrders(order) + others, Closed(ahead), at, n);
    && share >= 0
    && Covers(share, f.JournalShare(n) + Credit(f.Claims(), order, ahead, others, n), f.held - f.start,
              Closed(ahead), at <= n)
  }

  lemma CoversNext(
    f: Flight, order: Option<int>, ahead: Option<AnswerFill>, others: set<int>, at: nat, i: nat)
    requires i < |f.fills| && f.VenueOrdersDiffer(order) && f.AnsweredAt(ahead, at) && f.start <= f.held
    requires WalkCovers(f, order, ahead, others, at, i)
    ensures WalkCovers(f, order, ahead, others, at, i + 1)
  {
    var own, closed, slack := OwnOrders(order) + others, Closed(ahead), f.held - f.start;
    var credit, claim := Credit(f.Claims(), order, ahead, others, i), f.ClaimAt(i);
    var share := f.ShareWith(own, closed, at, i);
    JournalShareSpends(f, i);
    NegativeCreditIsClaimedUp(f, order, ahead, others, i);
    LeadIsClosed(f, ahead, at, i);
    ClaimCovers(f, order, ahead, others, at, i, share, credit, slack);
    var left, after := share - f.TakesOf(own, i, share), CreditAfter(claim, order, ahead, others, credit);
    var total := f.JournalShare(i) - f.Booked(i) + after;
    assert f.Claims()[i] == claim;
    assert Credit(f.Claims(), order, ahead, others, i + 1) == after && f.JournalShare(i + 1) + after == total;
    assert f.ShareWith(own, closed, at, i + 1) == if i + 1 == at then left - Min(closed, left) else left;
    assert i + 1 == at ==> left <= slack + total;
  }

  /** What the engine books in all once the close is settled, given the final credit. */
  function EngineBooked(f: Flight, order: Option<int>, ahead: Option<AnswerFill>, others: set<int>): int {
    f.start - f.JournalShare(|f.fills|) - Max(0, Credit(f.Claims(), order, ahead, others, |f.fills|))
  }

  /** `booked`, and what the stream books of the answer's fill after it against the journal share that
      leaves, is no more than the share really lost when that fill executed just before fill `at`. */
  predicate WithinLost(f: Flight, own: set<int>, ahead: Option<AnswerFill>, at: nat, booked: int) {
    booked + Min(Closed(ahead), f.start - booked) <= f.held - f.ShareWith(own, Closed(ahead), at, |f.fills|)
  }

  /** Whenever the answer's fill executed. */
  ghost predicate NeverMoreThanLost(f: Flight, own: set<int>, ahead: Option<AnswerFill>, booked: int) {
    forall at: nat :: f.AnsweredAt(ahead, at) ==> WithinLost(f, own, ahead, at, booked)
  }

  /** Settling never over-books, whatever bounds of the share the claims were taken with, whatever fill
      the answer carried, whenever that executed, and whatever further own orders are among the claims. */
  lemma SettlementNeverOverbooks(f: Flight, order: Option<int>, ahead: Option<AnswerFill>, others: set<int>)
    requires f.VenueOrdersDiffer(order) && f.start <= f.held
    ensures NeverMoreThanLost(f, OwnOrders(order) + others, ahead, EngineBooked(f, order, ahead, others))
  {
    forall at: nat | f.AnsweredAt(ahead, at)
      ensures WithinLost(f, OwnOrders(order) + others, ahead, at, EngineBooked(f, order, ahead, others))
    {
      CreditCoversTruth(f, order, ahead, others, at, |f.fills|);
    }
  }

  /** Unseen executions only take more off the share. */
  lemma {:induction false} UnseenTakesMore(
    f: Flight, own: set<int>, closed: nat, at: nat, unseen: seq<nat>, n: nat)
    requires n <= |f.fills| == |unseen|
    ensures 0 <= f.ShareAmid(own, closed, at, unseen, n) <= f.ShareWith(own, closed, at, n)
  {
    if n > 0 {
      UnseenTakesMore(f, own, closed, at, unseen, n - 1);
    }
  }

  /** So it never over-books while further closes of the bot execute unseen, in whatever parts. */
  lemma SettlementAmidUnseen(
    f: Flight, order: Option<int>, ahead: Option<AnswerFill>, others: set<int>, at: nat, unseen: seq<nat>)
    requires f.VenueOrdersDiffer(order) && f.start <= f.held && f.AnsweredAt(ahead, at) && |unseen| == |f.fills|
    ensures var booked, own := EngineBooked(f, order, ahead, others), OwnOrders(order) + others;
            booked + Min(Closed(ahead), f.start - booked)
            <= f.held - f.ShareAmid(own, Closed(ahead), at, unseen, |f.fills|)
  {
    SettlementNeverOverbooks(f, order, ahead, others);
    assert WithinLost(f, OwnOrders(order) + others, ahead, at, EngineBooked(f, order, ahead, others));
    UnseenTakesMore(f, OwnOrders(order) + others, Closed(ahead), at, unseen, |f.fills|);
  }

  ghost predicate NeverOverbooks(start: nat, held: nat) {
    forall f: Flight, order: Option<int>, ahead: Option<AnswerFill>, others: set<int> ::
      f.start == start && f.held == held && f.VenueOrdersDiffer(order) ==>
        NeverMoreThanLost(f, OwnOrders(order) + others, ahead, EngineBooked(f, order, ahead, others))
  }

  /** It never does so for any fills exactly if the close was sent with no less than the journal share. */
  lemma NeverOverbooksIff(start: nat, held: nat)
    ensures NeverOverbooks(start, held) <==> start <= held
  {
    if start <= held {
      forall f: Flight, order: Option<int>, ahead: Option<AnswerFill>, others: set<int> |
          f.start == start && f.held == held && f.VenueOrdersDiffer(order)
        ensures NeverMoreThanLost(f, OwnOrders(order) + others, ahead, EngineBooked(f, order, ahead, others))
      {
        SettlementNeverOverbooks(f, order, ahead, others);
      }
    } else {
      var f := Flight(start, held, None, [Fill(1, 1, start, None, 0, false, true, 0)]);
      assert f.JournalShare(1) == 0 && Credit(f.Claims(), Some(1), None, {}, 1) == 0;
      assert f.ShareWith(OwnOrders(Some(1)) + {}, 0, 0, 1) == 0;
      assert f.VenueOrdersDiffer(Some(1)) && f.AnsweredAt(None, 0);
      assert !WithinLost(f, OwnOrders(Some(1)) + {}, None, 0, EngineBooked(f, Some(1), None, {}));
    }
  }

  /** With no fill carried by the answer that is the real share after the fills. */
  lemma {:induction false} NothingCarried(f: Flight, own: set<int>, at: nat, n: nat)
    requires n <= |f.fills|
    ensures f.ShareWith(own, 0, at, n) == f.RealShare(own, n) >= 0
  {
    if n > 0 {
      NothingCarried(f, own, at, n - 1);
    }
  }

  // --- when the walk is exact --------------------------------------------------------

  lemma OwnClaimExact(qty: nat, booked: int, share: int, total: int, closed: nat, passed: bool)
    requires 0 <= booked <= qty && share >= 0 && share == Walked(total, closed, passed)
    requires !passed ==> booked <= share
    ensures share - Min(qty, share) == Walked(total - Max(booked, Min(qty, total)), closed, passed)
  {
  }

  lemma OtherClaimExact(qty: nat, venueAfter: nat, share: int, total: int, closed: nat, passed: bool)
    requires share >= 0 && share == Walked(total, closed, passed)
    ensures var lead := if passed then closed else 0;
            && Max(0, total - lead) == share
            && share - Min(qty, Max(0, share - venueAfter))
               == Walked(total - Min(qty, Max(0, share - venueAfter)), closed, passed)
  {
  }

  lemma LeadIsExact(f: Flight, ahead: Option<AnswerFill>, at: nat, i: nat)
    requires i < |f.fills| && f.AnsweredAt(ahead, at) && f.TimesKnown(ahead)
    ensures Lead(f.ClaimAt(i), ahead).1 == if at <= i then Closed(ahead) else 0
  {
    assert Closed(ahead) > 0 ==> TimesAgree(ahead.value, f.fills[i], at <= i) && OrderKnown(ahead.value, f.fills[i]);
  }

  /** The walk's step at claim `i` measures what fill `i` really took of the share. */
  lemma CreditStep(
    f: Flight, order: Option<int>, ahead: Option<AnswerFill>, at: nat, i: nat, share: int, credit: int)
    requires i < |f.fills| && (f.fills[i].venue ==> Some(f.fills[i].order) != order) && f.fills[i].unresolved == 0
    requires Lead(f.ClaimAt(i), ahead).1 == if at <= i then Closed(ahead) else 0
    requires f.JournalShare(i) >= 0 && share >= 0 && share == Walked(f.JournalShare(i) + credit, Closed(ahead), at <= i)
    requires 0 <= f.Booked(i) <= f.fills[i].qty
    requires i < at && f.IsOwnFill(OwnOrders(order), i) ==> f.Booked(i) <= share
    ensures var claim, took := f.ClaimAt(i), f.TakesOf(OwnOrders(order), i, share);
            && 0 <= took <= share
            && (!IsOwn(claim, order) ==> TakenByOther(claim, credit, ahead, {}) == took)
            && share - took == Walked(f.JournalShare(i) - f.Booked(i) + CreditAfter(claim, order, ahead, {}, credit),
                                      Closed(ahead), at <= i)
  {
    var fill, total := f.fills[i], f.JournalShare(i) + credit;
    assert OwnOrders(order) + {} == OwnOrders(order);
    WalkedTo(f, order, ahead, {}, i, credit);
    if f.IsOwnFill(OwnOrders(order), i) {
      OwnClaimExact(fill.qty, f.Booked(i), share, total, Closed(ahead), at <= i);
    } else {
      TakenWithin(f, order, ahead, {}, i, credit);
      OtherClaimExact(fill.qty, fill.venueAfter, share, total, Closed(ahead), at <= i);
    }
  }

  /** What the walk takes the share for after `n` claims is what it was, the answer's fill included. */
  predicate WalkTracks(f: Flight, order: Option<int>, ahead: Option<AnswerFill>, at: nat, n: nat)
    requires n <= |f.fills|
  {
    var share := f.ShareWith(OwnOrders(order), Closed(ahead), at, n);
    && share >= 0 && (n < at ==> share == f.RealShare(OwnOrders(order), n))
    && share == Walked(f.JournalShare(n) + Credit(f.Claims(), order, ahead, {}, n), Closed(ahead), at <= n)
  }

  /** That is so of a close sent with equal shares, its claims exact, if it is known which claims executed
      before the answer's fill. */
  lemma {:induction false} CreditTracksTruth(
    f: Flight, order: Option<int>, ahead: Option<AnswerFill>, at: nat, n: nat)
    requires n <= |f.fills| && f.VenueOrdersDiffer(order) && f.start == f.held && f.Exact()
    requires f.AnsweredAt(ahead, at) && f.TimesKnown(ahead)
    ensures WalkTracks(f, order, ahead, at, n)
  {
    if n > 0 {
      var i := n - 1;
      CreditTracksTruth(f, order, ahead, at, i);
      CreditNext(f, order, ahead, at, i);
    }
  }

  /** One more claim, in the terms of the walk. */
  lemma CreditNext(f: Flight, order: Option<int>, ahead: Option<AnswerFill>, at: nat, i: nat)
    requires i < |f.fills| && f.VenueOrdersDiffer(order) && f.start == f.held && f.Exact()
    requires f.AnsweredAt(ahead, at) && f.TimesKnown(ahead) && WalkTracks(f, order, ahead, at, i)
    ensures WalkTracks(f, order, ahead, at, i + 1)
  {
    var own, closed, credit := OwnOrders(order), Closed(ahead), Credit(f.Claims(), order, ahead, {}, i);
    var share, claim := f.ShareWith(own, closed, at, i), f.ClaimAt(i);
    BooksNoMoreThanTaken(f, own, i);
    LeadIsExact(f, ahead, at, i);
    CreditStep(f, order, ahead, at, i, share, credit);
    var left, after := share - f.TakesOf(own, i, share), CreditAfter(claim, order, ahead, {}, credit);
    var total := f.JournalShare(i) - f.Booked(i) + after;
    assert f.Claims()[i] == claim;
    assert Credit(f.Claims(), order, ahead, {}, i + 1) == after && f.JournalShare(i + 1) + after == total;
    assert f.ShareWith(own, closed, at, i + 1) == if i + 1 == at then left - Min(closed, left) else left;
    AnswerExecutes(left, total, closed, at, i);
  }

  /** The answer's fill executes after claim `i`, or not yet, or had before. */
  lemma AnswerExecutes(left: int, total: int, closed: nat, at: nat, i: nat)
    requires left >= 0 && left == Walked(total, closed, at <= i)
    ensures (if i + 1 == at then left - Min(closed, left) else left) == Walked(total, closed, at <= i + 1)
  {
  }

  lemma BooksNoMoreThanTaken(f: Flight, own: set<int>, i: nat)
    requires i < |f.fills| && f.start <= f.held && f.Exact()
    ensures 0 <= f.Booked(i) <= f.fills[i].qty && 0 <= f.Booked(i) <= f.JournalShare(i)
    ensures f.IsOwnFill(own, i) ==> f.Booked(i) <= f.RealShare(own, i)
  {
    SharesInStep(f, own, i);
    JournalShareSpends(f, i);
  }

  /** A negative credit needs a close whose requested volume is fully claimed; what the walk takes the
      share for is never negative, and never less than what an own fill books. */
  lemma {:induction false} NegativeCreditIsClaimedUp(
    f: Flight, order: Option<int>, ahead: Option<AnswerFill>, others: set<int>, n: nat)
    requires n <= |f.fills| && f.VenueOrdersDiffer(order)
    ensures Credit(f.Claims(), order, ahead, others, n) < 0 ==> f.volume.Some? && f.Claimed(n) >= f.volume.value
    ensures f.JournalShare(n) + Credit(f.Claims(), order, ahead, others, n) >= 0
    ensures n < |f.fills| && !f.fills[n].venue ==>
              f.Booked(n) <= f.JournalShare(n) + Credit(f.Claims(), order, ahead, others, n)
  {
    JournalShareSpends(f, n);
    if n > 0 {
      var i, credit := n - 1, Credit(f.Claims(), order, ahead, others, n - 1);
      NegativeCreditIsClaimedUp(f, order, ahead, others, i);
      JournalShareSpends(f, i);
      assert f.Claims()[i] == f.ClaimAt(i);
      assert f.Claimed(n) == f.Claimed(i) + if f.fills[i].venue then 0 else f.Booked(i);
      LeadNotNegative(f.ClaimAt(i), ahead);
      ClaimedUpStep(f, order, ahead, others, i, credit);
      assert f.JournalShare(n) == f.JournalShare(i) - f.Booked(i);
    }
  }

  lemma LeadNotNegative(claim: Claim, ahead: Option<AnswerFill>)
    ensures Lead(claim, ahead).1 >= 0
  {
  }

  lemma ClaimedUpStep(
    f: Flight, order: Option<int>, ahead: Option<AnswerFill>, others: set<int>, i: nat, credit: int)
    requires i < |f.fills| && (f.fills[i].venue ==> Some(f.fills[i].order) != order)
    requires 0 <= f.Booked(i) <= f.JournalShare(i) && f.Claimed(i) >= 0 && Lead(f.ClaimAt(i), ahead).1 >= 0
    requires credit < 0 ==> f.volume.Some? && f.Claimed(i) >= f.volume.value
    requires f.JournalShare(i) + credit >= 0
    ensures f.JournalShare(i) - f.Booked(i) + CreditAfter(f.ClaimAt(i), order, ahead, others, credit) >= 0
    ensures CreditAfter(f.ClaimAt(i), order, ahead, others, credit) < 0 ==>
              f.volume.Some? && f.Claimed(i) + (if f.fills[i].venue then 0 else f.Booked(i)) >= f.volume.value
  {
  }

  /** `booked`, with what the stream books of the answer's fill, is what the share really lost if and
      only if the final credit is not negative or that fill takes all the journal has left. */
  predicate IsLostIff(f: Flight, order: Option<int>, ahead: Option<AnswerFill>, at: nat, booked: int) {
    booked + Min(Closed(ahead), f.start - booked)
    == f.held - f.ShareWith(OwnOrders(order), Closed(ahead), at, |f.fills|)
    <==> f.FinalCredit(order, ahead) >= 0 || f.JournalShare(|f.fills|) <= Closed(ahead)
  }

  ghost predicate ExactlyLost(f: Flight, order: Option<int>, ahead: Option<AnswerFill>, booked: int) {
    forall at: nat :: f.AnsweredAt(ahead, at) ==> IsLostIff(f, order, ahead, at, booked)
  }

  /** Of a close sent with equal shares and with no other own order's fill among the claims, the engine
      books exactly what the share lost under that condition, wherever it is known which claims executed
      before the answer's fill. */
  lemma SettlementIsExactIff(f: Flight, order: Option<int>, ahead: Option<AnswerFill>)
    requires f.VenueOrdersDiffer(order) && f.start == f.held && f.Exact() && f.TimesKnown(ahead)
    ensures ExactlyLost(f, order, ahead, EngineBooked(f, order, ahead, {}))
  {
    forall at: nat | f.AnsweredAt(ahead, at)
      ensures IsLostIff(f, order, ahead, at, EngineBooked(f, order, ahead, {}))
    {
      CreditTracksTruth(f, order, ahead, at, |f.fills|);
      JournalShareSpends(f, |f.fills|);
    }
  }

  /** A claim is reported exactly when it is another party's close that took part of the share, given
      the order of the claims and the answer's fill. */
  lemma ReportsAreExact(
    f: Flight, order: Option<int>, ahead: Option<AnswerFill>, at: nat, hedged: bool, i: nat)
    requires f.VenueOrdersDiffer(order) && i < |f.fills| && f.start == f.held && f.Exact()
    requires f.AnsweredAt(ahead, at) && f.TimesKnown(ahead)
    ensures var own := OwnOrders(order);
            Reports(f.Claims(), order, ahead, {}, hedged, i) <==>
              && !f.IsOwnFill(own, i) && !f.fills[i].venue
              && f.TakesOf(own, i, f.ShareWith(own, Closed(ahead), at, i)) > 0
  {
    CreditTracksTruth(f, order, ahead, at, i);
    BooksNoMoreThanTaken(f, OwnOrders(order), i);
    LeadIsExact(f, ahead, at, i);
    CreditStep(f, order, ahead, at, i, f.ShareWith(OwnOrders(order), Closed(ahead), at, i),
               Credit(f.Claims(), order, ahead, {}, i));
    assert f.Claims()[i] == f.ClaimAt(i);
  }

  // --- reports where the times are not known --------------------------------------------

  /** If claim `i` is reported, it is another party's and took part of the share. */
  predicate ReportTrue(
    f: Flight, order: Option<int>, ahead: Option<AnswerFill>, at: nat, hedged: bool, i: nat)
    requires i < |f.fills|
  {
    Reports(f.Claims(), order, ahead, {}, hedged, i) ==>
      && !f.IsOwnFill(OwnOrders(order), i)
      && f.TakesOf(OwnOrders(order), i, f.ShareWith(OwnOrders(order), Closed(ahead), at, i)) > 0
  }

  /** The reports are true for all fills, of known times or not, of a close that the journal and the bot
      had `start` for and whose answer carried a fill that closed `closed`. */
  ghost predicate ClaimReportsSound(start: nat, closed: nat) {
    forall f: Flight, order: Option<int>, answer: AnswerFill, at: nat, hedged: bool, i: nat ::
      && f.start == f.held == start && f.Exact() && f.VenueOrdersDiffer(order) && i < |f.fills|
      && answer.closed == closed && f.AnsweredAt(Some(answer), at)
      ==> ReportTrue(f, order, Some(answer), at, hedged, i)
  }

  /** What the walk takes the share for never grows. */
  lemma {:induction false} WalkedNeverGrows(
    f: Flight, order: Option<int>, ahead: Option<AnswerFill>, others: set<int>, n: nat)
    requires n <= |f.fills| && f.VenueOrdersDiffer(order)
    ensures f.JournalShare(n) + Credit(f.Claims(), order, ahead, others, n) <= f.start
  {
    if n > 0 {
      var i := n - 1;
      WalkedNeverGrows(f, order, ahead, others, i);
      JournalShareSpends(f, i);
      assert f.Claims()[i] == f.ClaimAt(i);
      WalkedTo(f, order, ahead, others, i, Credit(f.Claims(), order, ahead, others, i));
      if !f.IsOwnFill(OwnOrders(order) + others, i) {
        TakenWithin(f, order, ahead, others, i, Credit(f.Claims(), order, ahead, others, i));
      }
      assert f.JournalShare(n) == f.JournalShare(i) - f.Booked(i);
    }
  }

  lemma NoShareNoReport(f: Flight, order: Option<int>, ahead: Option<AnswerFill>, hedged: bool, i: nat)
    requires f.VenueOrdersDiffer(order) && i < |f.fills| && f.start == 0
    ensures !Reports(f.Claims(), order, ahead, {}, hedged, i)
  {
    WalkedNeverGrows(f, order, ahead, {}, i);
    JournalShareSpends(f, i);
    LeadNotNegative(f.ClaimAt(i), ahead);
    assert f.Claims()[i] == f.ClaimAt(i);
  }

  /** They are so exactly if that fill closed nothing, or there was no share. */
  lemma ClaimReportsSoundIff(start: nat, closed: nat)
    ensures ClaimReportsSound(start, closed) <==> start == 0 || closed == 0
  {
    if start == 0 || closed == 0 {
      forall f: Flight, order: Option<int>, answer: AnswerFill, at: nat, hedged: bool, i: nat |
          && f.start == f.held == start && f.Exact() && f.VenueOrdersDiffer(order) && i < |f.fills|
          && answer.closed == closed && f.AnsweredAt(Some(answer), at)
        ensures ReportTrue(f, order, Some(answer), at, hedged, i)
      {
        if start == 0 {
          NoShareNoReport(f, order, Some(answer), hedged, i);
        } else {
          ReportsAreExact(f, order, Some(answer), at, hedged, i);
        }
      }
    } else {
      UnknownTimeReportsFalsely(start, closed);
      assert !ReportTrue(TwoForeign(start), Some(3), Some(AnswerFill(3, Some(1), closed)), 2, true, 1);
    }
  }

  /** Another party's fill of unknown time that takes one unit, and another one's close of one unit of its
      own exposure. */
  function TwoForeign(start: nat): Flight
    requires start > 0
  {
    Flight(start, start, None,
           [Fill(1, 1, 1, None, start - 1, false, true, 0), Fill(2, 2, 1, Some(0), start - 1, false, true, 0)])
  }

  /** The failing family: both executed before the answer's fill.  The first is judged as if after it and
      seems to have booked too much; that is counted in the share of the second, which is reported. */
  lemma UnknownTimeReportsFalsely(start: nat, closed: nat)
    requires start > 0 && closed > 0
    ensures var f, ahead := TwoForeign(start), Some(AnswerFill(3, Some(1), closed));
            && f.VenueOrdersDiffer(Some(3)) && f.AnsweredAt(ahead, 2)
            && Reports(f.Claims(), Some(3), ahead, {}, true, 1)
            && f.TakesOf(OwnOrders(Some(3)), 1, f.ShareWith(OwnOrders(Some(3)), closed, 2, 1)) == 0
  {
    var f, ahead, own := TwoForeign(start), Some(AnswerFill(3, Some(1), closed)), OwnOrders(Some(3));
    assert f.JournalShare(1) == start - 1 && f.Claims()[0] == f.ClaimAt(0) && f.Claims()[1] == f.ClaimAt(1);
    assert Credit(f.Claims(), Some(3), ahead, {}, 0) == 0;
    assert Credit(f.Claims(), Some(3), ahead, {}, 1) == 1;
    assert f.ShareWith(own, closed, 2, 0) == start && f.ShareWith(own, closed, 2, 1) == start - 1;
  }

  // --- the code -----------------------------------------------------------------

  /** The plugin's state around one own close of one position. */
  class CloseBook {
    const volume: Option<nat>
    const journal: Exposure.Journal
    /** The account is hedged: a position has one owner. */
    const hedged: bool
    var orderId: Option<int>
    var answered: bool
    var claims: seq<Claim>
    var released: seq<Event>
    /** The claims reported as someone else's close of the bot's position. */
    var reported: seq<Claim>
    /** The volume and the deals of the own fills counted since the answer named the order. */
    var executed: nat
    var executedDeals: set<int>
    /** Nothing more of the close can execute. */
    var complete: bool
    /** A fill left nothing of the position on the bot's side: its journal rows are closed. */
    var gone: bool
    /** The fills taken so far and the shares the close was sent with. */
    ghost var flight: Flight
    /** The journal knew the share of every fill: its linked rows are the bot's own entries, and no
        fill came after the position was gone. */
    ghost var tracked: bool
    /** The journal's rows were all entries of this side. */
    ghost const side: Option<Side>

    ghost predicate Valid()
      reads this, journal
    {
      && flight.volume == volume
      && (!answered ==> orderId == None && released == [] && reported == [])
      && (!answered ==> executed == 0 && executedDeals == {} && !complete)
      && (gone ==> journal.rows == [])
      && Booked(claims)
      && (!answered && tracked ==>
            && claims == flight.Claims()
            && (!gone ==> Tracks(journal.rows, side, flight.start, flight.JournalShare(|flight.fills|))))
    }

    /** `_open_own_close`, sent while the bot really held `held` of the position. */
    constructor (journal: Exposure.Journal, volume: Option<nat>, hedged: bool, ghost held: nat)
      ensures Valid() && !answered && !gone && claims == []
      ensures this.journal == journal && this.volume == volume && this.hedged == hedged
      ensures flight == Flight(Abs(Exposure.Net(journal.rows)), held, volume, [])
      ensures tracked <==> Exposure.Owned(journal.rows)
      ensures side.Some? ==> journal.rows != [] && Exposure.OneSided(journal.rows, side.value)
      ensures side.None? ==> journal.rows == [] || forall s :: !Exposure.OneSided(journal.rows, s)
    {
      this.journal, this.volume, this.hedged := journal, volume, hedged;
      orderId, answered, claims, released, reported, gone := None, false, [], [], [], false;
      executed, executedDeals, complete := 0, {}, false;
      flight := Flight(Abs(Exposure.Net(journal.rows)), held, volume, []);
      tracked := Exposure.Owned(journal.rows);
      side := Exposure.SideOfAll(journal.rows);
    }

    method ClaimedVolume() returns (claimed: int)
      ensures claimed == ClaimedBy(claims, |claims|)
    {
      claimed := 0;
      for i := 0 to |claims|
        invariant claimed == ClaimedBy(claims, i)
      {
        if !claims[i].venue {
          claimed := claimed + claims[i].booked;
        }
      }
    }

    /** `_judge_close_fill` for a fill an unanswered own close takes: booked against the share the
        journal knows, or whole when it knows none; its event is held on the claim.  A venue close is
        claimed only against a known share. */
    method TakeFill(fill: Fill)
      requires Valid() && !answered
      modifies this`claims, this`flight, this`tracked, this`gone, journal
      ensures Valid() && tracked == (old(tracked) && !old(gone))
      ensures tracked ==> flight == old(flight).(fills := old(flight).fills + [fill])
      ensures var claim := ClaimOf(fill, ShareOf(old(journal.rows)), volume, ClaimedBy(old(claims), |old(claims)|));
              && claims == old(claims) + (if fill.venue && claim.share.None? then [] else [claim])
              && gone == (old(gone) || (fill.venueAfter == 0 && (fill.terminal || claim.booked == 0)))
              && journal.rows == if fill.venueAfter == 0 && (fill.terminal || claim.booked == 0) then []
                                 else Exposure.AfterRetire(old(journal.rows), claim.booked)
    {
      ghost var rows := journal.rows;
      var share := journal.SignedShare();
      var claimed := ClaimedVolume();
      var claim := ClaimOf(fill, if share.None? then None else Some(Abs(share.value)), volume, claimed);
      BookingNotNegative(fill, ShareOf(rows), volume, claimed);
      if tracked && !gone {
        TrackedFill(flight, fill, rows, side, claim, claims);
      }
      if !fill.venue || share.Some? {
        claims := claims + [claim];
      }
      tracked := tracked && !gone;
      flight := flight.(fills := flight.fills + [fill]);
      if fill.venueAfter == 0 && (fill.terminal || claim.booked == 0) {
        gone := true;
        journal.Close();
      } else {
        journal.Retire(claim.booked);
      }
      assert gone ==> journal.rows == [];
    }

    /** `_rejudge_claims`: the claims of the close's own order are kept, every other one is judged
        as the close it is; the credit left is spread over what was booked too much. */
    method RejudgeClaims(answer: Option<AnswerFill>, others: set<int>) returns (cuts: seq<int>)
      modifies this`claims, this`reported
      ensures reported == old(reported) + ReportsOf(old(claims), orderId, answer, others)
      ensures cuts == Cuts(old(claims), orderId, Ahead(old(claims), answer), others)
      ensures claims == OwnClaims(old(claims), orderId)
    {
      var credit, own, excess, reports := WalkClaims(claims, orderId, Ahead(claims, answer), others, hedged);
      cuts := SpreadCredit(claims, orderId, Ahead(claims, answer), others, credit, excess);
      claims, reported := own, reported + reports;
    }

    /** The claims an answer has reported. */
    function ReportsOf(
      claims: seq<Claim>, order: Option<int>, answer: Option<AnswerFill>, others: set<int>): seq<Claim>
    {
      ReportedBy(claims, order, Ahead(claims, answer), others, hedged, |claims|)
    }

    /** `_release_held_claims`: every held event is delivered less its cut; what was cut goes back
        to the journal. */
    method ReleaseHeldClaims(taken: seq<Claim>, cuts: seq<int>)
      requires Booked(taken) && Within(cuts, taken)
      modifies this`released, journal
      ensures released == old(released) + EventsOf(taken, cuts, |taken|)
      ensures journal.rows == Exposure.AfterRestore(old(journal.rows), CutTotal(taken, cuts, |taken|))
    {
      var totalCut := 0;
      for i := 0 to |taken|
        invariant totalCut == CutTotal(taken, cuts, i)
        invariant released == old(released) + EventsOf(taken, cuts, i)
        invariant journal.rows == old(journal.rows)
      {
        if taken[i].held {
          var cut := Min(cuts[i], taken[i].booked);
          totalCut := totalCut + cut;
          if taken[i].booked - cut > 0 {
            released := released + [Event(taken[i].deal, taken[i].booked - cut)];
          }
        }
      }
      if totalCut > 0 {
        var restored := journal.Restore(totalCut);
      } else {
        assert Exposure.AfterRestore(journal.rows, totalCut) == journal.rows;
      }
    }

    /** `_settle_own_close` with the order the answer named, or `_drop_own_close` of a refused close
        (no order, no claim is the close's own); `complete` says the answer is the order's final fill.
        Where the journal knew the shares, the events
        delivered carry exactly the engine total the settlement theorems speak of, and a one-sided
        journal keeps the rest of the start. */
    method Settle(order: Option<int>, answer: Option<AnswerFill>, others: set<int>, complete: bool)
      requires Valid() && !answered
      modifies this`orderId, this`answered, this`claims, this`released, this`reported, this`executed
      modifies this`executedDeals, this`complete, journal
      ensures Valid() && answered && orderId == order && claims == OwnClaims(old(claims), order)
      ensures reported == ReportsOf(old(claims), order, answer, others)
      ensures executed == (if NewDeal(claims, answer) then answer.value.closed else 0)
      ensures executedDeals == if NewDeal(claims, answer) then {answer.value.deal} else {}
      ensures this.complete == (complete || exists i :: 0 <= i < |claims| && claims[i].terminal)
      ensures released == EventsOf(old(claims), Cuts(old(claims), order, Ahead(old(claims), answer), others),
                                   |old(claims)|)
      ensures tracked ==>
                && Quantity(released) == EngineBooked(flight, order, Ahead(old(claims), answer), others)
                && (side.Some? && !gone ==> Abs(Exposure.Net(journal.rows)) == flight.start - Quantity(released))
      ensures tracked && NewDeal(old(claims), answer) ==>
                RightlyBooked(flight, order, answer, others, Quantity(released))
      ensures tracked && !NewDeal(old(claims), answer) ==>
                RightlyBooked(flight, order, None, others, Quantity(released))
    {
      SettleClaims(order, answer, others);
      CountAnswer(answer, complete);
    }

    /** The claims are judged again and their events delivered. */
    method SettleClaims(order: Option<int>, answer: Option<AnswerFill>, others: set<int>)
      requires Valid() && !answered
      modifies this`orderId, this`answered, this`claims, this`released, this`reported, journal
      ensures Valid() && answered && orderId == order && claims == OwnClaims(old(claims), order)
      ensures reported == ReportsOf(old(claims), order, answer, others)
      ensures released == EventsOf(old(claims), Cuts(old(claims), order, Ahead(old(claims), answer), others),
                                   |old(claims)|)
      ensures tracked ==>
                && Quantity(released) == EngineBooked(flight, order, Ahead(old(claims), answer), others)
                && (side.Some? && !gone ==> Abs(Exposure.Net(journal.rows)) == flight.start - Quantity(released))
      ensures tracked ==> RightlyBooked(flight, order, Ahead(old(claims), answer), others, Quantity(released))
    {
      if tracked {
        SettledTotals(flight, order, Ahead(claims, answer), others, journal.rows, if gone then None else side);
        SettledTruth(flight, order, Ahead(claims, answer), others);
      }
      CutsWithinBooked(claims, order, Ahead(claims, answer), others);
      EventsTotal(claims, Cuts(claims, order, Ahead(claims, answer), others), |claims|);
      ghost var ahead := Ahead(claims, answer);
      ghost var cuts := Cuts(claims, order, ahead, others);
      ghost var delivered := BookedLessCuts(claims, cuts, |cuts|);
      assert tracked ==> delivered == EngineBooked(flight, order, ahead, others);
      DeliverSettled(order, answer, others);
      assert Quantity(released) == delivered && ahead == Ahead(old(claims), answer);
    }

    /** The fill the answer carried is counted, unless it is one of the claims left. */
    method CountAnswer(answer: Option<AnswerFill>, complete: bool)
      requires Valid() && answered && executed == 0 && executedDeals == {} && !this.complete
      modifies this`executed, this`executedDeals, this`complete
      ensures Valid()
      ensures executed == (if NewDeal(claims, answer) then answer.value.closed else 0)
      ensures executedDeals == if NewDeal(claims, answer) then {answer.value.deal} else {}
      ensures this.complete == (complete || exists i :: 0 <= i < |claims| && claims[i].terminal)
    {
      this.complete := complete || exists i :: 0 <= i < |claims| && claims[i].terminal;
      if NewDeal(claims, answer) {
        CountExecuted(Some(answer.value.deal), answer.value.closed);
      }
    }

    /** The events delivered and the volume given back, in numbers. */
    method DeliverSettled(order: Option<int>, answer: Option<AnswerFill>, others: set<int>)
      requires Valid() && !answered
      modifies this`orderId, this`answered, this`claims, this`released, this`reported, journal
      ensures Valid() && answered && orderId == order && claims == OwnClaims(old(claims), order)
      ensures reported == ReportsOf(old(claims), order, answer, others)
      ensures var cuts := Cuts(old(claims), order, Ahead(old(claims), answer), others);
              && |old(claims)| == |cuts| && released == EventsOf(old(claims), cuts, |cuts|)
              && journal.rows == Exposure.AfterRestore(old(journal.rows), CutTotal(old(claims), cuts, |cuts|))
    {
      var taken := claims;
      CutsWithinBooked(taken, order, Ahead(taken, answer), others);
      orderId, answered := order, true;
      ghost var rows, cut := journal.rows, Cuts(taken, order, Ahead(taken, answer), others);
      ghost var given := CutTotal(taken, cut, |taken|);
      assert gone ==> Exposure.AfterRestore(rows, given) == [];
      assert released == [] && reported == [];
      var cuts := RejudgeClaims(answer, others);
      assert cuts == cut;
      ReleaseHeldClaims(taken, cuts);
      assert journal.rows == Exposure.AfterRestore(rows, given);
      assert gone ==> journal.rows == [];
    }

    /** `count_executed`: one own fill, once per deal. */
    method CountExecuted(deal: Option<int>, volume: nat)
      modifies this`executed, this`executedDeals
      ensures executed == old(executed)
                          + if deal.Some? && deal.value in old(executedDeals) then 0 else volume
      ensures executedDeals == old(executedDeals) + if deal.None? then {} else {deal.value}
    {
      if deal.None? || deal.value !in executedDeals {
        executedDeals := executedDeals + if deal.None? then {} else {deal.value};
        executed := executed + volume;
      }
    }

    /** An event of the close's own order, or a deal of it found in the history. */
    method TakeOwnFill(deal: Option<int>, volume: nat, terminal: bool)
      requires Valid() && answered
      modifies this`executed, this`executedDeals, this`complete
      ensures Valid() && complete == (old(complete) || terminal)
      ensures executed == old(executed)
                          + if deal.Some? && deal.value in old(executedDeals) then 0 else volume
      ensures executedDeals == old(executedDeals) + if deal.None? then {} else {deal.value}
    {
      CountExecuted(deal, volume);
      complete := complete || terminal;
    }

    /** The venue cancelled or rejected the rest of `order`. */
    method Cancelled(order: int)
      requires Valid() && answered
      modifies this`complete
      ensures Valid() && complete == (old(complete) || orderId == Some(order))
    {
      if orderId == Some(order) {
        complete := true;
      }
    }

    /** `unresolved`: what of the close may have executed unseen. */
    function Unresolved(): nat
      reads this
    {
      UnresolvedOf(answered, volume, complete, executed, claims)
    }

    /** `_settle_own_close` of a close whose answer was lost: every event is delivered as booked. */
    method SettleUnknown()
      requires Valid() && !answered
      modifies this`answered, this`released, journal
      ensures Valid() && answered && claims == old(claims) && journal.rows == old(journal.rows)
      ensures released == EventsOf(claims, Uncut(claims), |claims|)
      ensures tracked ==> Quantity(released) == flight.start - flight.JournalShare(|flight.fills|)
      ensures tracked && !gone ==> Abs(Exposure.Net(journal.rows)) == flight.start - Quantity(released)
    {
      ghost var rows := journal.rows;
      NothingCut(claims, Uncut(claims), |claims|);
      assert Exposure.AfterRestore(rows, 0) == rows;
      if tracked {
        FlightBooked(flight, |claims|);
      }
      EventsTotal(claims, Uncut(claims), |claims|);
      assert released == [];
      answered := true;
      ReleaseHeldClaims(claims, Uncut(claims));
      assert journal.rows == rows;
    }
  }

  /** The fills an own close took that are not the venue's. */
  function TakenVolume(claims: seq<Claim>): nat {
    if claims == [] then 0
    else TakenVolume(claims[..|claims| - 1])
         + if claims[|claims| - 1].venue then 0 else claims[|claims| - 1].fillQty
  }

  function UnresolvedOf(
    answered: bool, volume: Option<nat>, complete: bool, executed: nat, claims: seq<Claim>): nat {
    if !answered || volume.None? || complete then 0 else Max(0, volume.value - executed - TakenVolume(claims))
  }

  /** The answer's fill is none of the claims. */
  predicate NewDeal(claims: seq<Claim>, answer: Option<AnswerFill>) {
    answer.Some? && forall i :: 0 <= i < |claims| ==> claims[i].deal != answer.value.deal
  }

  /** The share the journal knows, if any. */
  function ShareOf(rows: seq<Exposure.Row>): Option<int> {
    if Exposure.HasEntry(rows) then Some(Abs(Exposure.Net(rows))) else None
  }

  /** The claim a fill becomes. */
  function ClaimOf(fill: Fill, share: Option<int>, volume: Option<nat>, claimed: int): Claim {
    var booked := if share.None? then fill.qty else Booking(volume, claimed, share.value, fill);
    Claim(fill.order, fill.deal, fill.qty, fill.executedMs,
          if share.None? then None else Some((LowShare(share.value, fill.unresolved), share.value)),
          fill.venueAfter, booked, fill.venue && share.Some?, booked > 0, fill.terminal)
  }

  /** Where the journal knows no share, a fill is booked whole and its claim says so; a venue close is then
      no claim. */
  lemma UnknownShareBooksWhole(fill: Fill, rows: seq<Exposure.Row>, volume: Option<nat>, claimed: int)
    requires forall i :: 0 <= i < |rows| ==> !rows[i].entry
    ensures var claim := ClaimOf(fill, ShareOf(rows), volume, claimed);
            claim.booked == fill.qty == claim.fillQty && claim.share == None && !claim.venue
  {
  }

  /** Where it does, the claim has the journal share as upper bound, and that less what is unresolved as lower
      one; a fill that is not the venue's books at most the share and the rest of the request, whichever is
      less, and all of itself below both. */
  lemma KnownShareBooks(fill: Fill, share: nat, volume: Option<nat>, claimed: nat)
    requires volume.Some? ==> claimed <= volume.value
    ensures var claim := ClaimOf(fill, Some(share), volume, claimed);
            && claim.share == Some((if share <= fill.unresolved then 0 else share - fill.unresolved, share))
            && 0 <= claim.booked <= fill.qty && claim.booked <= share
            && (!fill.venue ==>
                  && (volume.Some? ==> claimed + claim.booked <= volume.value)
                  && (claim.booked < fill.qty ==>
                        claim.booked == share || (volume.Some? && claimed + claim.booked == volume.value)))
            && (fill.venue ==>
                  && (claim.booked < fill.qty ==> claim.share.value.0 - claim.booked <= fill.venueAfter)
                  && (claim.booked > 0 ==> claim.share.value.0 - claim.booked >= fill.venueAfter))
  {
  }

  lemma BookingNotNegative(fill: Fill, share: Option<int>, volume: Option<nat>, claimed: int)
    requires share.Some? ==> share.value >= 0
    ensures ClaimOf(fill, share, volume, claimed).booked >= 0
  {
  }

  function ClaimedBy(claims: seq<Claim>, n: nat): int
    requires n <= |claims|
  {
    if n == 0 then 0 else ClaimedBy(claims, n - 1) + if claims[n - 1].venue then 0 else claims[n - 1].booked
  }

  lemma {:induction false} FlightClaimed(f: Flight, n: nat)
    requires n <= |f.fills|
    ensures ClaimedBy(f.Claims(), n) == f.Claimed(n)
  {
    if n > 0 {
      FlightClaimed(f, n - 1);
      assert f.Claims()[n - 1] == f.ClaimAt(n - 1);
    }
  }

  /** The claims with one more fill. */
  lemma ClaimsGrow(f: Flight, fill: Fill)
    ensures var g := f.(fills := f.fills + [fill]);
            && g.JournalShare(|f.fills|) == f.JournalShare(|f.fills|)
            && g.Claims() == f.Claims() + [g.ClaimAt(|f.fills|)]
            && g.Booked(|f.fills|) == Booking(f.volume, f.Claimed(|f.fills|), f.JournalShare(|f.fills|), fill)
  {
    var g := f.(fills := f.fills + [fill]);
    FlightGrows(f, fill, |f.fills|);
    forall i | 0 <= i < |f.fills|
      ensures g.ClaimAt(i) == f.ClaimAt(i)
    {
      FlightGrows(f, fill, i);
    }
  }

  /** A journal that knows the share: `share` of it is left, of `start`. */
  predicate Tracks(rows: seq<Exposure.Row>, side: Option<Side>, start: int, share: int) {
    && Exposure.Owned(rows) && Abs(Exposure.Net(rows)) == share
    && (side.Some? ==> Exposure.OneSided(rows, side.value) && Exposure.RetiredFrom(rows, 0) >= start - share)
  }

  lemma RetireKeepsTracking(rows: seq<Exposure.Row>, side: Option<Side>, start: int, share: int, booked: int)
    requires Tracks(rows, side, start, share) && 0 <= booked <= share
    ensures Tracks(Exposure.AfterRetire(rows, booked), side, start, share - booked)
  {
    Exposure.RetireKeepsOwned(rows, booked);
    if side.Some? {
      Exposure.RetireKeepsOneSided(rows, side.value, booked);
    }
  }

  /** A fill taken on a tracked journal extends the flight, and the journal follows it. */
  lemma TrackedFill(
    f: Flight, fill: Fill, rows: seq<Exposure.Row>, side: Option<Side>, claim: Claim, claims: seq<Claim>)
    requires Tracks(rows, side, f.start, f.JournalShare(|f.fills|))
    requires claims == f.Claims() && claim == ClaimOf(fill, ShareOf(rows), f.volume, ClaimedBy(claims, |claims|))
    ensures var g := f.(fills := f.fills + [fill]);
            && claims + [claim] == g.Claims()
            && Tracks(Exposure.AfterRetire(rows, claim.booked), side, g.start, g.JournalShare(|g.fills|))
  {
    var g := f.(fills := f.fills + [fill]);
    FlightClaimed(f, |f.fills|);
    ClaimsGrow(f, fill);
    JournalShareSpends(g, |f.fills|);
    RetireKeepsTracking(rows, side, f.start, f.JournalShare(|f.fills|), claim.booked);
  }

  /** The events carry what was booked less the cuts. */
  lemma {:induction false} EventsTotal(claims: seq<Claim>, cuts: seq<int>, n: nat)
    requires n <= |claims| && Within(cuts, claims)
    ensures Quantity(EventsOf(claims, cuts, n)) == BookedLessCuts(claims, cuts, n)
  {
    if n > 0 {
      EventsTotal(claims, cuts, n - 1);
      var older, claim := EventsOf(claims, cuts, n - 1), claims[n - 1];
      if claim.held && claim.booked > cuts[n - 1] {
        QuantityPush(older, Event(claim.deal, claim.booked - cuts[n - 1]));
      } else {
        assert older + [] == older;
      }
    }
  }

  /** The walk of `_rejudge_claims`: the final credit, the close's own claims, what every other one booked
      beyond what it took, and those reported. */
  method WalkClaims(
    claims: seq<Claim>, order: Option<int>, ahead: Option<AnswerFill>, others: set<int>, hedged: bool)
    returns (credit: int, own: seq<Claim>, excess: seq<int>, reported: seq<Claim>)
    ensures credit == Credit(claims, order, ahead, others, |claims|) && own == OwnClaims(claims, order)
    ensures |excess| == |claims|
    ensures forall i :: 0 <= i < |claims| ==> excess[i] == Excess(claims, order, ahead, others, i)
    ensures reported == ReportedBy(claims, order, ahead, others, hedged, |claims|)
  {
    credit, own, excess, reported := 0, [], [], [];
    for i := 0 to |claims|
      invariant credit == Credit(claims, order, ahead, others, i)
      invariant own == OwnClaims(claims[..i], order)
      invariant reported == ReportedBy(claims, order, ahead, others, hedged, i)
      invariant |excess| == i && forall k :: 0 <= k < i ==> excess[k] == Excess(claims, order, ahead, others, k)
    {
      var claim := claims[i];
      assert claims[..i + 1][..i] == claims[..i];
      if order.Some? && claim.order == order.value {
        own := own + [claim];
        if claim.share.Some? {
          credit := credit - Max(0, Min(claim.fillQty, claim.share.value.1 + credit) - claim.booked);
        }
        excess := excess + [0];
      } else {
        var taken := TakenByOther(claim, credit, ahead, others);
        if !claim.venue && claim.order !in others && if claim.share.None? then hedged else taken > 0 {
          reported := reported + [claim];
        }
        credit := credit + claim.booked - taken;
        excess := excess + [Max(0, claim.booked - taken)];
      }
    }
    assert claims[..|claims|] == claims;
  }

  method SpreadCredit(
    claims: seq<Claim>, order: Option<int>, ahead: Option<AnswerFill>, others: set<int>, credit: int, excess: seq<int>)
    returns (cuts: seq<int>)
    requires credit == Credit(claims, order, ahead, others, |claims|)
    requires |excess| == |claims|
    requires forall i :: 0 <= i < |claims| ==> excess[i] == Excess(claims, order, ahead, others, i)
    ensures cuts == Cuts(claims, order, ahead, others)
  {
    var left := Max(0, credit);
    cuts := [];
    for i := 0 to |excess|
      invariant |cuts| == i
      invariant left == Max(0, Max(0, credit) - ExcessBefore(claims, order, ahead, others, i))
      invariant forall k :: 0 <= k < i ==> cuts[k] == Cut(claims, order, ahead, others, k)
    {
      var cut := Min(excess[i], left);
      cuts := cuts + [cut];
      left := left - cut;
    }
  }

  lemma {:induction false} OwnClaimsBooked(claims: seq<Claim>, order: Option<int>)
    requires Booked(claims)
    ensures Booked(OwnClaims(claims, order))
  {
    if claims != [] {
      OwnClaimsBooked(claims[..|claims| - 1], order);
    }
  }

  /** No claim is of another own close. */
  predicate NoneOf(claims: seq<Claim>, others: set<int>) {
    forall i :: 0 <= i < |claims| ==> claims[i].venue || claims[i].order !in others
  }

  lemma {:induction false} CreditWithoutOthers(
    claims: seq<Claim>, order: Option<int>, ahead: Option<AnswerFill>, others: set<int>, n: nat)
    requires n <= |claims| && NoneOf(claims, others)
    ensures Credit(claims, order, ahead, others, n) == Credit(claims, order, ahead, {}, n)
    ensures ExcessBefore(claims, order, ahead, others, n) == ExcessBefore(claims, order, ahead, {}, n)
    ensures n < |claims| ==> Excess(claims, order, ahead, others, n) == Excess(claims, order, ahead, {}, n)
  {
    if n > 0 {
      CreditWithoutOthers(claims, order, ahead, others, n - 1);
    }
  }

  /** Further own orders that no claim names change no cut. */
  lemma OthersIrrelevant(claims: seq<Claim>, order: Option<int>, ahead: Option<AnswerFill>, others: set<int>)
    requires NoneOf(claims, others)
    ensures Cuts(claims, order, ahead, others) == Cuts(claims, order, ahead, {})
  {
    CreditWithoutOthers(claims, order, ahead, others, |claims|);
    forall i | 0 <= i < |claims|
      ensures Cut(claims, order, ahead, others, i) == Cut(claims, order, ahead, {}, i)
    {
      CreditWithoutOthers(claims, order, ahead, others, i);
    }
  }

  /** What a settlement delivers and gives back, in total. */
  lemma SettledTotals(
    f: Flight, order: Option<int>, ahead: Option<AnswerFill>, others: set<int>, rows: seq<Exposure.Row>,
    side: Option<Side>)
    requires Booked(f.Claims())
    requires side.Some? ==> Tracks(rows, side, f.start, f.JournalShare(|f.fills|))
    ensures var cuts, n := Cuts(f.Claims(), order, ahead, others), |f.fills|;
            && BookedLessCuts(f.Claims(), cuts, n) == EngineBooked(f, order, ahead, others)
            && (side.Some? ==>
                  Abs(Exposure.Net(Exposure.AfterRestore(rows, CutTotal(f.Claims(), cuts, n))))
                  == f.start - EngineBooked(f, order, ahead, others))
  {
    SettledCuts(f.Claims(), order, ahead, others);
    CutsWithinBooked(f.Claims(), order, ahead, others);
    CutsCoverBookings(f.Claims(), Cuts(f.Claims(), order, ahead, others), |f.fills|);
    CutsSum(f.Claims(), order, ahead, others, |f.fills|);
    FlightBooked(f, |f.fills|);
    if side.Some? {
      Exposure.RestoreRaisesShare(rows, side.value, CutsBefore(f.Claims(), order, ahead, others, |f.fills|));
    }
  }

  /** How the engine's total compares with the truth: never more than was lost of a close sent with no
      less than the journal share, and exactly that, under the stated condition, of one sent with equal
      shares, its claims exact and none of another own close. */
  ghost predicate RightlyBooked(
    f: Flight, order: Option<int>, ahead: Option<AnswerFill>, others: set<int>, booked: int)
  {
    f.VenueOrdersDiffer(order) ==>
      && (f.start <= f.held ==> NeverMoreThanLost(f, OwnOrders(order) + others, ahead, booked))
      && (f.start == f.held && f.Exact() && NoneOf(f.Claims(), others) && f.TimesKnown(ahead) ==>
            ExactlyLost(f, order, ahead, booked))
  }

  lemma SettledTruth(f: Flight, order: Option<int>, ahead: Option<AnswerFill>, others: set<int>)
    ensures RightlyBooked(f, order, ahead, others, EngineBooked(f, order, ahead, others))
  {
    if f.VenueOrdersDiffer(order) && f.start <= f.held {
      SettlementNeverOverbooks(f, order, ahead, others);
      if f.start == f.held && f.Exact() && NoneOf(f.Claims(), others) && f.TimesKnown(ahead) {
        CreditWithoutOthers(f.Claims(), order, ahead, others, |f.fills|);
        SettlementIsExactIff(f, order, ahead);
      }
    }
  }

  lemma {:induction false} NothingCut(claims: seq<Claim>, cuts: seq<int>, n: nat)
    requires n <= |claims| == |cuts| && Booked(claims) && forall i :: 0 <= i < |cuts| ==> cuts[i] == 0
    ensures CutTotal(claims, cuts, n) == 0 && BookedLessCuts(claims, cuts, n) == TotalBooked(claims, n)
  {
    if n > 0 {
      NothingCut(claims, cuts, n - 1);
    }
  }

  function TotalBooked(claims: seq<Claim>, n: nat): int
    requires n <= |claims|
  {
    if n == 0 then 0 else TotalBooked(claims, n - 1) + claims[n - 1].booked
  }

  lemma {:induction false} FlightBooked(f: Flight, n: nat)
    requires n <= |f.fills|
    ensures TotalBooked(f.Claims(), n) == f.start - f.JournalShare(n)
  {
    if n > 0 {
      FlightBooked(f, n - 1);
      assert f.Claims()[n - 1] == f.ClaimAt(n - 1);
    }
  }

  function CutTotal(claims: seq<Claim>, cuts: seq<int>, n: nat): int
    requires n <= |claims| == |cuts|
  {
    if n == 0 then 0
    else CutTotal(claims, cuts, n - 1) + if claims[n - 1].held then Min(cuts[n - 1], claims[n - 1].booked) else 0
  }

  function BookedLessCuts(claims: seq<Claim>, cuts: seq<int>, n: nat): int
    requires n <= |claims| == |cuts|
  {
    if n == 0 then 0
    else BookedLessCuts(claims, cuts, n - 1)
         + if claims[n - 1].held then claims[n - 1].booked - Min(cuts[n - 1], claims[n - 1].booked) else 0
  }

  /** Earlier shares and bookings do not depend on later fills. */
  lemma {:induction false} FlightGrows(f: Flight, fill: Fill, n: nat)
    requires n <= |f.fills|
    ensures var g := f.(fills := f.fills + [fill]);
            && g.JournalShare(n) == f.JournalShare(n) && g.Claimed(n) == f.Claimed(n)
            && (n < |f.fills| ==> g.Booked(n) == f.Booked(n) && g.ClaimAt(n) == f.ClaimAt(n))
  {
    if n > 0 {
      FlightGrows(f, fill, n - 1);
    }
  }

  function SumTo(xs: seq<int>, n: nat): int
    requires n <= |xs|
  {
    if n == 0 then 0 else SumTo(xs, n - 1) + xs[n - 1]
  }

  /** Delivered volume and cuts split the bookings. */
  lemma {:induction false} CutsCoverBookings(claims: seq<Claim>, cuts: seq<int>, n: nat)
    requires n <= |claims| && Booked(claims) && Within(cuts, claims)
    ensures CutTotal(claims, cuts, n) == SumTo(cuts, n)
    ensures BookedLessCuts(claims, cuts, n) == TotalBooked(claims, n) - SumTo(cuts, n)
  {
    if n > 0 {
      CutsCoverBookings(claims, cuts, n - 1);
    }
  }

  lemma {:induction false} CutsSum(
    claims: seq<Claim>, order: Option<int>, ahead: Option<AnswerFill>, others: set<int>, n: nat)
    requires n <= |claims|
    ensures SumTo(Cuts(claims, order, ahead, others), n) == CutsBefore(claims, order, ahead, others, n)
  {
    if n > 0 {
      CutsSum(claims, order, ahead, others, n - 1);
    }
  }
}

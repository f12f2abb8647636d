/** Closes of one position whose answers are lost, with everything the bot cannot see.

A close of unknown outcome keeps claiming fills until its grace ends, and until its claims account
for the volume it asked for the share is only known within bounds.  Meanwhile the close may execute
without the bot seeing it.  A report about such claims is proved true for all fills and all unseen
executions exactly under a condition on what the bot sees.
*/
module LostCloses {
  import opened Common
  import opened CloseClaims
  import opened AmbiguousClaims

  /** A close that was sent: what it asked for, whether its answer is lost, whether its grace ended. */
  datatype Record = Record(volume: nat, answered: bool, expired: bool, claims: seq<Claim>)

  /** What the plugin holds of the position: the journal share and the closes, oldest first. */
  datatype Book = Book(share: int, records: seq<Record>)

  /** What the bot sees happen: it sends a close, an answer is lost, a grace ends, or there is room for
      a closing fill. */
  datatype Act = Send(volume: nat) | Lose(record: nat) | Expire(record: nat) | Slot

  /** What really happens at an act: own closes execute `unseen` first, and a slot may bring a fill. */
  datatype Happened = Happened(unseen: nat, fill: Option<Fill>)

  function Left(r: Record): nat {
    UnresolvedOf(r.answered, Some(r.volume), false, 0, r.claims)
  }

  function Asked(r: Record): nat {
    r.volume
  }

  function AskedLost(r: Record): nat {
    if r.answered then r.volume else 0
  }

  /** What claims took off the unresolved volume, or will once the answer is lost. */
  function Eaten(r: Record): nat {
    Min(r.volume, TakenVolume(r.claims))
  }

  function Total(records: seq<Record>, part: Record -> nat, n: nat): nat
    requires n <= |records|
  {
    if n == 0 then 0 else Total(records, part, n - 1) + part(records[n - 1])
  }

  /** What the code takes for unresolved on the position. */
  function Unresolved(records: seq<Record>): nat {
    Total(records, Left, |records|)
  }

  /** The first of `n` closes whose grace has not ended: it claims the next fill. */
  function Claimer(records: seq<Record>, n: nat): Option<nat>
    requires n <= |records|
  {
    if n == 0 then None
    else
      var older := Claimer(records, n - 1);
      if older.Some? then older else if records[n - 1].expired then None else Some(n - 1)
  }

  lemma {:induction false} ClaimerIsOne(records: seq<Record>, n: nat)
    requires n <= |records|
    ensures var c := Claimer(records, n);
            (c.Some? ==> c.value < n && !records[c.value].expired
                         && forall k :: 0 <= k < c.value ==> records[k].expired)
            && (c.None? ==> forall k :: 0 <= k < n ==> records[k].expired)
  {
    if n > 0 {
      ClaimerIsOne(records, n - 1);
    }
  }

  function ClaimerOf(records: seq<Record>): (c: Option<nat>)
    ensures c.Some? ==> c.value < |records|
  {
    ClaimerIsOne(records, |records|);
    Claimer(records, |records|)
  }

  /** The claim a fill becomes for close `k`. */
  function MadeClaim(b: Book, k: nat, fill: Fill): Claim
    requires k < |b.records|
  {
    ClaimOf(fill.(unresolved := Unresolved(b.records)), Some(b.share), Some(b.records[k].volume),
            ClaimedBy(b.records[k].claims, |b.records[k].claims|))
  }

  /** What a fill no close claims is booked for: what it provably took. */
  function ProvablyTaken(b: Book, fill: Fill): int {
    Min(fill.qty, Max(0, LowShare(b.share, Unresolved(b.records)) - fill.venueAfter))
  }

  function TakeFill(b: Book, fill: Fill): Book {
    var c := ClaimerOf(b.records);
    if c.None? then b.(share := b.share - ProvablyTaken(b, fill))
    else
      var claim, r := MadeClaim(b, c.value, fill), b.records[c.value];
      Book(b.share - claim.booked, b.records[c.value := r.(claims := r.claims + [claim])])
  }

  /** The closes after an act that is no fill. */
  function NextRecords(records: seq<Record>, act: Act): seq<Record> {
    match act
    case Send(volume) => records + [Record(volume, false, false, [])]
    case Lose(k) => if k < |records| then records[k := records[k].(answered := true)] else records
    case Expire(k) =>
      if k < |records| && records[k].answered then records[k := records[k].(expired := true)] else records
    case Slot => records
  }

  function Next(b: Book, act: Act, fill: Option<Fill>): Book {
    if act.Slot? && fill.Some? then TakeFill(b, fill.value) else b.(records := NextRecords(b.records, act))
  }

  /** What the plugin holds after `n` acts. */
  function BookAt(share: nat, shape: seq<Act>, run: seq<Happened>, n: nat): Book
    requires n <= |shape| == |run|
  {
    if n == 0 then Book(share, []) else Next(BookAt(share, shape, run, n - 1), shape[n - 1], run[n - 1].fill)
  }

  // --- the truth ------------------------------------------------------------------

  predicate Filled(shape: seq<Act>, run: seq<Happened>, i: int) {
    0 <= i < |shape| == |run| && shape[i].Slot? && run[i].fill.Some?
  }

  predicate IsOwnFill(fill: Fill, own: set<int>) {
    !fill.venue && fill.order in own
  }

  /** What a fill takes of a real share of `share`. */
  function TakesOf(fill: Fill, own: set<int>, share: int): int {
    if IsOwnFill(fill, own) then Min(fill.qty, share) else Min(fill.qty, Max(0, share - fill.venueAfter))
  }

  /** The real share after `n` acts when the bot's orders are `own`. */
  function RealAt(share: nat, shape: seq<Act>, run: seq<Happened>, own: set<int>, n: nat): int
    requires n <= |shape| == |run|
    decreases n, 0
  {
    if n == 0 then share
    else
      var met := MetAt(share, shape, run, own, n - 1);
      met - if Filled(shape, run, n - 1) then TakesOf(run[n - 1].fill.value, own, met) else 0
  }

  /** The real share that the fill of act `n` met. */
  function MetAt(share: nat, shape: seq<Act>, run: seq<Happened>, own: set<int>, n: nat): int
    requires n < |shape| == |run|
    decreases n, 1
  {
    var before := RealAt(share, shape, run, own, n);
    before - Min(run[n].unseen, before)
  }

  /** What the bot's closes executed in the first `n` acts, seen or not. */
  function Executed(shape: seq<Act>, run: seq<Happened>, own: set<int>, n: nat): nat
    requires n <= |shape| == |run|
  {
    if n == 0 then 0
    else Executed(shape, run, own, n - 1) + run[n - 1].unseen
         + if Filled(shape, run, n - 1) && IsOwnFill(run[n - 1].fill.value, own) then run[n - 1].fill.value.qty else 0
  }

  /** The closes sent in the first `n` acts, had none claimed anything. */
  function Bare(shape: seq<Act>, n: nat): seq<Record>
    requires n <= |shape|
  {
    if n == 0 then [] else NextRecords(Bare(shape, n - 1), shape[n - 1])
  }

  /** The volume the closes sent so far asked for, and that of the lost ones among them. */
  function Sent(shape: seq<Act>, n: nat): nat
    requires n <= |shape|
  {
    Total(Bare(shape, n), Asked, |Bare(shape, n)|)
  }

  function Lost(shape: seq<Act>, n: nat): nat
    requires n <= |shape|
  {
    Total(Bare(shape, n), AskedLost, |Bare(shape, n)|)
  }

  /** The close that claims the fill of act `n`, if there is one. */
  function ClaimerAt(shape: seq<Act>, n: nat): Option<nat>
    requires n <= |shape|
  {
    ClaimerOf(Bare(shape, n))
  }

  /** The bot's closes execute no more than they asked for. */
  predicate Truthful(shape: seq<Act>, run: seq<Happened>, own: set<int>)
    requires |shape| == |run|
  {
    forall n :: 0 <= n < |shape| ==> Executed(shape, run, own, n + 1) <= Sent(shape, n)
  }

  /** Another party's fill was claimed and really took part of the share. */
  predicate TookAt(share: nat, shape: seq<Act>, run: seq<Happened>, own: set<int>, i: int) {
    && Filled(shape, run, i) && ClaimerAt(shape, i).Some?
    && !run[i].fill.value.venue && run[i].fill.value.order !in own
    && TakesOf(run[i].fill.value, own, MetAt(share, shape, run, own, i)) > 0
  }

  ghost predicate SomeoneTook(share: nat, shape: seq<Act>, run: seq<Happened>, own: set<int>) {
    exists i :: TookAt(share, shape, run, own, i)
  }

  function ClaimsOf(records: seq<Record>): seq<seq<Claim>> {
    seq(|records|, k requires 0 <= k < |records| => records[k].claims)
  }

  function AllClaimsAt(share: nat, shape: seq<Act>, run: seq<Happened>): seq<seq<Claim>>
    requires |shape| == |run|
  {
    ClaimsOf(BookAt(share, shape, run, |shape|).records)
  }

  /** A report about the run is true, whichever of the undecided orders were the closes'. */
  ghost predicate ReportTrue(
    share: nat, shape: seq<Act>, run: seq<Happened>, own: set<int>, maybe: set<int>, truth: set<int>)
    requires |shape| == |run|
  {
    && Truthful(shape, run, own + truth) && PossibleOwn(AllClaimsAt(share, shape, run), maybe, truth)
    && ChargedInAllWays(AllClaimsAt(share, shape, run), own, maybe)
    ==> SomeoneTook(share, shape, run, own + truth)
  }

  /** Whatever fills and unseen executions these acts hid, from a journal share that was the real one. */
  ghost predicate Sound(share: nat, shape: seq<Act>) {
    forall run: seq<Happened>, own, maybe, truth ::
      |run| == |shape| ==> ReportTrue(share, shape, run, own, maybe, truth)
  }

  // --- the condition ----------------------------------------------------------------

  /** No earlier slot is claimed by the same close. */
  predicate FirstOfItsClose(shape: seq<Act>, k: nat)
    requires k < |shape|
  {
    forall i :: 0 <= i < k && shape[i].Slot? ==> ClaimerAt(shape, i) != ClaimerAt(shape, k)
  }

  /** No slot since the first close was sent. */
  predicate NoFillSince(shape: seq<Act>, k: nat)
    requires k <= |shape|
  {
    forall i :: 0 <= i < k && shape[i].Slot? ==> Bare(shape, i) == []
  }

  /** Either the lost closes asked for the whole share, and the claim is the first of its close; or all
      closes are lost, and the claim is the first fill since they were sent. */
  predicate Safe(share: nat, shape: seq<Act>, k: nat)
    requires k < |shape|
  {
    || (Lost(shape, k) >= share && FirstOfItsClose(shape, k))
    || (Lost(shape, k) == Sent(shape, k) && NoFillSince(shape, k))
  }

  predicate AllSafe(share: nat, shape: seq<Act>) {
    forall k :: 0 <= k < |shape| && shape[k].Slot? && ClaimerAt(shape, k).Some? ==> Safe(share, shape, k)
  }

  /** Every close asks for something. */
  predicate AsksForSome(shape: seq<Act>) {
    forall i :: 0 <= i < |shape| && shape[i].Send? ==> shape[i].volume > 0
  }

  // --- totals -----------------------------------------------------------------------

  lemma TotalNext(records: seq<Record>, part: Record -> nat, n: nat)
    requires n < |records|
    ensures Total(records, part, 0) == 0 && Total(records, part, n + 1) == Total(records, part, n) + part(records[n])
  {
  }

  lemma {:induction false} TotalPrefix(records: seq<Record>, more: seq<Record>, part: Record -> nat, n: nat)
    requires n <= |records| <= |more| && forall k :: 0 <= k < n ==> records[k] == more[k]
    ensures Total(more, part, n) == Total(records, part, n)
  {
    if n > 0 {
      TotalPrefix(records, more, part, n - 1);
    }
  }

  lemma {:induction false} TotalUpdate(records: seq<Record>, part: Record -> nat, k: nat, r: Record, n: nat)
    requires k < |records| && n <= |records|
    ensures Total(records[k := r], part, n)
            == Total(records, part, n) + if k < n then part(r) - part(records[k]) else 0
  {
    if n > 0 {
      TotalUpdate(records, part, k, r, n - 1);
    }
  }

  /** The records differ from the bare ones in nothing but claims. */
  predicate SameCloses(records: seq<Record>, bare: seq<Record>) {
    |records| == |bare| && forall k :: 0 <= k < |records| ==> records[k].(claims := []) == bare[k].(claims := [])
  }

  lemma {:induction false} SameTotals(records: seq<Record>, bare: seq<Record>, n: nat)
    requires SameCloses(records, bare) && n <= |records|
    ensures Total(records, Asked, n) == Total(bare, Asked, n)
    ensures Total(records, AskedLost, n) == Total(bare, AskedLost, n)
    ensures Claimer(records, n) == Claimer(bare, n)
  {
    if n > 0 {
      SameTotals(records, bare, n - 1);
      assert records[n - 1].(claims := []) == bare[n - 1].(claims := []);
    }
  }

  lemma {:induction false} BareAgrees(share: nat, shape: seq<Act>, run: seq<Happened>, n: nat)
    requires n <= |shape| == |run|
    ensures SameCloses(BookAt(share, shape, run, n).records, Bare(shape, n))
    ensures var records := BookAt(share, shape, run, n).records;
            && ClaimerOf(records) == ClaimerAt(shape, n)
            && Total(records, Asked, |records|) == Sent(shape, n)
            && Total(records, AskedLost, |records|) == Lost(shape, n)
  {
    if n > 0 {
      BareAgrees(share, shape, run, n - 1);
      NextAgrees(BookAt(share, shape, run, n - 1), Bare(shape, n - 1), shape[n - 1], run[n - 1].fill);
    }
    SameTotals(BookAt(share, shape, run, n).records, Bare(shape, n), |Bare(shape, n)|);
  }

  lemma NextAgrees(b: Book, bare: seq<Record>, act: Act, fill: Option<Fill>)
    requires SameCloses(b.records, bare)
    ensures SameCloses(Next(b, act, fill).records, NextRecords(bare, act))
  {
    forall k | 0 <= k < |b.records|
      ensures b.records[k].(claims := []) == bare[k].(claims := [])
    {
    }
  }

  // --- a safe claim charges nobody falsely ---------------------------------------------

  /** The claims took no more off the journal share than they ate of the requests, unless that is gone. */
  predicate Balanced(b: Book, share: int) {
    && 0 <= b.share && (b.share == 0 || b.share + Total(b.records, Eaten, |b.records|) <= share)
    && forall k :: 0 <= k < |b.records| ==> Measured(b.records[k])
  }

  predicate Measured(r: Record) {
    0 <= ClaimedBy(r.claims, |r.claims|) <= TakenVolume(r.claims)
  }

  lemma {:induction false} ClaimedPush(claims: seq<Claim>, claim: Claim, n: nat)
    requires n <= |claims|
    ensures ClaimedBy(claims + [claim], n) == ClaimedBy(claims, n)
    ensures n == |claims| ==>
              ClaimedBy(claims + [claim], n + 1) == ClaimedBy(claims, n) + if claim.venue then 0 else claim.booked
  {
    if n > 0 {
      ClaimedPush(claims, claim, n - 1);
    }
  }

  lemma TakenPush(claims: seq<Claim>, claim: Claim)
    ensures TakenVolume(claims + [claim]) == TakenVolume(claims) + if claim.venue then 0 else claim.fillQty
  {
    assert (claims + [claim])[..|claims|] == claims;
  }

  /** One claim, in numbers: unless it empties the journal share, it books all it eats. */
  lemma ClaimEats(b: Book, k: nat, fill: Fill)
    requires k < |b.records| && b.share >= 0 && Measured(b.records[k])
    ensures var claim, r := MadeClaim(b, k, fill), b.records[k];
            var now := r.(claims := r.claims + [claim]);
            && 0 <= claim.booked <= b.share && Measured(now)
            && (b.share - claim.booked == 0 || Eaten(now) - Eaten(r) <= claim.booked)
  {
    var claim, r := MadeClaim(b, k, fill), b.records[k];
    ClaimedPush(r.claims, claim, |r.claims|);
    TakenPush(r.claims, claim);
  }

  lemma BalanceKept(b: Book, act: Act, fill: Option<Fill>, share: int)
    requires Balanced(b, share)
    ensures Balanced(Next(b, act, fill), share)
  {
    if act.Slot? && fill.Some? {
      var c := ClaimerOf(b.records);
      if c.Some? {
        var claim, r := MadeClaim(b, c.value, fill.value), b.records[c.value];
        ClaimEats(b, c.value, fill.value);
        TotalUpdate(b.records, Eaten, c.value, r.(claims := r.claims + [claim]), |b.records|);
      }
    } else {
      EatenStays(b.records, act);
    }
  }

  lemma EatenStays(records: seq<Record>, act: Act)
    ensures var now := NextRecords(records, act); Total(now, Eaten, |now|) == Total(records, Eaten, |records|)
  {
    match act
    case Send(volume) =>
      TotalPrefix(records, records + [Record(volume, false, false, [])], Eaten, |records|);
    case Lose(k) =>
      if k < |records| {
        TotalUpdate(records, Eaten, k, records[k].(answered := true), |records|);
      }
    case Expire(k) =>
      if k < |records| && records[k].answered {
        TotalUpdate(records, Eaten, k, records[k].(expired := true), |records|);
      }
    case Slot =>
  }

  lemma {:induction false} AlwaysBalanced(share: nat, shape: seq<Act>, run: seq<Happened>, n: nat)
    requires n <= |shape| == |run|
    ensures Balanced(BookAt(share, shape, run, n), share)
  {
    if n > 0 {
      AlwaysBalanced(share, shape, run, n - 1);
      BalanceKept(BookAt(share, shape, run, n - 1), shape[n - 1], run[n - 1].fill, share);
    }
  }

  lemma {:induction false} LeftOfLost(records: seq<Record>, n: nat)
    requires n <= |records|
    ensures Total(records, Left, n) + Total(records, Eaten, n) >= Total(records, AskedLost, n)
  {
    if n > 0 {
      LeftOfLost(records, n - 1);
    }
  }

  /** Where the lost closes asked for the whole share, nothing of it is certain. */
  lemma NothingCertain(share: nat, shape: seq<Act>, run: seq<Happened>, n: nat)
    requires n <= |shape| == |run| && Lost(shape, n) >= share
    ensures var b := BookAt(share, shape, run, n); LowShare(b.share, Unresolved(b.records)) == 0
  {
    var b := BookAt(share, shape, run, n);
    AlwaysBalanced(share, shape, run, n);
    BareAgrees(share, shape, run, n);
    LeftOfLost(b.records, |b.records|);
  }

  predicate NoClaims(records: seq<Record>) {
    forall k :: 0 <= k < |records| ==> records[k].claims == []
  }

  predicate NothingTaken(records: seq<Record>) {
    forall k :: 0 <= k < |records| ==> TakenVolume(records[k].claims) == 0
  }

  lemma {:induction false} NothingEaten(records: seq<Record>, n: nat)
    requires n <= |records| && NothingTaken(records)
    ensures Total(records, Left, n) == Total(records, AskedLost, n)
  {
    if n > 0 {
      NothingEaten(records, n - 1);
    }
  }

  lemma {:induction false} LostWithinSent(records: seq<Record>, n: nat)
    requires n <= |records|
    ensures Total(records, AskedLost, n) <= Total(records, Asked, n)
  {
    if n > 0 {
      LostWithinSent(records, n - 1);
    }
  }

  /** Without a fill since the first close was sent, the real share lags by what executed unseen. */
  lemma {:induction false} LagsByUnseen(share: nat, shape: seq<Act>, run: seq<Happened>, own: set<int>, n: nat)
    requires n <= |shape| == |run| && NoFillSince(shape, n) && Truthful(shape, run, own)
    ensures var b := BookAt(share, shape, run, n);
            && b.share >= 0 && NoClaims(b.records)
            && 0 <= RealAt(share, shape, run, own, n) && b.share - Executed(shape, run, own, n)
            <= RealAt(share, shape, run, own, n)
  {
    if n > 0 {
      var i := n - 1;
      LagsByUnseen(share, shape, run, own, i);
      BareAgrees(share, shape, run, i);
      if Filled(shape, run, i) {
        assert Bare(shape, i) == [] && Sent(shape, i) == 0 && Executed(shape, run, own, i + 1) == 0;
        UnclaimedKeepsLag(BookAt(share, shape, run, i), run[i].fill.value, own, MetAt(share, shape, run, own, i));
      }
    }
  }

  /** Before any close is sent, a fill is booked for no less than it took. */
  lemma UnclaimedKeepsLag(b: Book, fill: Fill, own: set<int>, met: int)
    requires b.records == [] && 0 <= b.share <= met && (IsOwnFill(fill, own) ==> fill.qty == 0)
    ensures 0 <= TakeFill(b, fill).share <= met - TakesOf(fill, own, met)
    ensures TakeFill(b, fill).records == []
  {
  }

  /** The claim of close `k` made at act `m`. */
  predicate MadeAt(share: nat, shape: seq<Act>, run: seq<Happened>, m: int, k: nat, claim: Claim) {
    && Filled(shape, run, m) && ClaimerAt(shape, m) == Some(k)
    && k < |BookAt(share, shape, run, m).records|
    && claim == MadeClaim(BookAt(share, shape, run, m), k, run[m].fill.value)
  }

  /** Each close has at most one claim, made at one of the first `n` acts. */
  ghost predicate OneClaimEach(share: nat, shape: seq<Act>, run: seq<Happened>, n: nat)
    requires n <= |shape| == |run|
  {
    var records := BookAt(share, shape, run, n).records;
    forall k :: 0 <= k < |records| ==> OneClaim(share, shape, run, n, k, records[k].claims)
  }

  ghost predicate OneClaim(
    share: nat, shape: seq<Act>, run: seq<Happened>, n: nat, k: nat, claims: seq<Claim>)
  {
    |claims| <= 1 && (|claims| == 1 ==> exists m :: m < n && MadeAt(share, shape, run, m, k, claims[0]))
  }

  lemma SafeIsFirst(share: nat, shape: seq<Act>, k: nat)
    requires k < |shape| && Safe(share, shape, k) && ClaimerAt(shape, k).Some?
    ensures FirstOfItsClose(shape, k)
  {
    if NoFillSince(shape, k) {
      forall i | 0 <= i < k && shape[i].Slot?
        ensures ClaimerAt(shape, i) != ClaimerAt(shape, k)
      {
        assert Bare(shape, i) == [];
      }
    }
  }

  lemma {:induction false} SafeClaimsOnce(share: nat, shape: seq<Act>, run: seq<Happened>, n: nat)
    requires n <= |shape| == |run| && AllSafe(share, shape)
    ensures forall m: nat :: m <= n ==> OneClaimEach(share, shape, run, m)
  {
    if n == 0 {
      OnceAtFirst(share, shape, run);
    } else {
      SafeClaimsOnce(share, shape, run, n - 1);
      OnceNext(share, shape, run, n - 1);
    }
  }

  lemma OnceAtFirst(share: nat, shape: seq<Act>, run: seq<Happened>)
    requires |shape| == |run|
    ensures OneClaimEach(share, shape, run, 0)
  {
  }

  lemma OnceNext(share: nat, shape: seq<Act>, run: seq<Happened>, n: nat)
    requires n < |shape| == |run| && AllSafe(share, shape) && OneClaimEach(share, shape, run, n)
    ensures OneClaimEach(share, shape, run, n + 1)
  {
    var now := BookAt(share, shape, run, n + 1).records;
    forall k | 0 <= k < |now|
      ensures OneClaim(share, shape, run, n + 1, k, now[k].claims)
    {
      OnceNextOf(share, shape, run, n, k);
    }
  }

  lemma OnceNextOf(share: nat, shape: seq<Act>, run: seq<Happened>, n: nat, k: nat)
    requires n < |shape| == |run| && AllSafe(share, shape) && k < |BookAt(share, shape, run, n + 1).records|
    requires k < |BookAt(share, shape, run, n).records| ==>
               OneClaim(share, shape, run, n, k, BookAt(share, shape, run, n).records[k].claims)
    ensures OneClaim(share, shape, run, n + 1, k, BookAt(share, shape, run, n + 1).records[k].claims)
  {
    var b := BookAt(share, shape, run, n);
    BareAgrees(share, shape, run, n);
    ClaimsNext(b, shape[n], run[n].fill, k);
    if Filled(shape, run, n) && ClaimerAt(shape, n) == Some(k) {
      SafeIsFirst(share, shape, n);
      NoneYet(share, shape, run, n, k, b.records[k].claims);
      var claims := BookAt(share, shape, run, n + 1).records[k].claims;
      assert claims == [MadeClaim(b, k, run[n].fill.value)];
      assert MadeAt(share, shape, run, n, k, claims[0]);
    }
  }

  /** The claims of close `k` after an act. */
  lemma ClaimsNext(b: Book, act: Act, fill: Option<Fill>, k: nat)
    requires k < |Next(b, act, fill).records|
    ensures var claims := Next(b, act, fill).records[k].claims;
            if act.Slot? && fill.Some? && ClaimerOf(b.records) == Some(k)
            then k < |b.records| && claims == b.records[k].claims + [MadeClaim(b, k, fill.value)]
            else claims == if k < |b.records| then b.records[k].claims else []
  {
  }

  lemma NoneYet(share: nat, shape: seq<Act>, run: seq<Happened>, n: nat, k: nat, claims: seq<Claim>)
    requires n < |shape| == |run| && FirstOfItsClose(shape, n) && ClaimerAt(shape, n) == Some(k)
    requires OneClaim(share, shape, run, n, k, claims)
    ensures claims == []
  {
  }

  /** What a safe claim charges to another party, its fill really took. */
  lemma SafeChargeIsTrue(
    share: nat, shape: seq<Act>, run: seq<Happened>, own: set<int>, m: nat, k: nat, claim: Claim)
    requires m < |shape| == |run| && MadeAt(share, shape, run, m, k, claim)
    requires Safe(share, shape, m) && Truthful(shape, run, own)
    requires !claim.venue && claim.order !in own && LowTake(claim, 0) > 0
    ensures TookAt(share, shape, run, own, m)
  {
    var b := BookAt(share, shape, run, m);
    BareAgrees(share, shape, run, m);
    if Lost(shape, m) >= share {
      NothingCertain(share, shape, run, m);
    } else {
      LagsByUnseen(share, shape, run, own, m);
      NothingEaten(b.records, |b.records|);
      assert Executed(shape, run, own, m + 1) <= Sent(shape, m) == Unresolved(b.records);
    }
  }

  lemma {:induction false} SomeoneCharged(records: seq<seq<Claim>>, own: set<int>) returns (k: nat)
    requires TotalCharged(records, own) > 0
    ensures k < |records| && Charged(records[k], own, |records[k]|, false) > 0
  {
    var n := |records| - 1;
    if Charged(records[n], own, |records[n]|, false) > 0 {
      k := n;
    } else {
      k := SomeoneCharged(records[..n], own);
    }
  }

  lemma OneClaimCharge(claims: seq<Claim>, own: set<int>)
    requires |claims| <= 1 && Charged(claims, own, |claims|, false) > 0
    ensures |claims| == 1 && !claims[0].venue && claims[0].order !in own && LowTake(claims[0], 0) > 0
  {
    if |claims| == 1 {
      assert CreditWith(claims, own, 0) == 0 && Charged(claims, own, 0, false) == 0;
    }
  }

  /** Where every claim is safe, a report is true whatever the bot could not see. */
  lemma SafeReportIsTrue(
    share: nat, shape: seq<Act>, run: seq<Happened>, own: set<int>, maybe: set<int>, truth: set<int>)
    requires |run| == |shape| && AllSafe(share, shape)
    ensures ReportTrue(share, shape, run, own, maybe, truth)
  {
    var records := AllClaimsAt(share, shape, run);
    if && Truthful(shape, run, own + truth) && PossibleOwn(records, maybe, truth)
       && ChargedInAllWays(records, own, maybe)
    {
      var k := SomeoneCharged(records, own + truth);
      SafeClaimsOnce(share, shape, run, |shape|);
      assert OneClaimEach(share, shape, run, |shape|);
      assert OneClaim(share, shape, run, |shape|, k, records[k]);
      OneClaimCharge(records[k], own + truth);
      var m :| m < |shape| && MadeAt(share, shape, run, m, k, records[k][0]);
      SafeChargeIsTrue(share, shape, run, own + truth, m, k, records[k][0]);
    }
  }

  // --- every other claim can charge somebody falsely -----------------------------------

  /** Nothing happens but `first` at act `i` and `second` at act `k`. */
  function Play(n: nat, i: int, first: Happened, k: int, second: Happened): seq<Happened> {
    seq(n, j => if j == k then second else if j == i then first else Happened(0, None))
  }

  /** Another party closes one unit of its own, leaving `left`. */
  function Foreign(left: nat): Fill {
    Fill(3, 3, 1, None, left, false, true, 0)
  }

  function StopOut(left: nat): Fill {
    Fill(4, 4, 1, None, left, true, true, 0)
  }

  predicate Quiet(run: seq<Happened>, from: nat, to: nat) {
    forall j :: from <= j < to && j < |run| ==> run[j] == Happened(0, None)
  }

  function ClaimsAt(share: nat, shape: seq<Act>, run: seq<Happened>, n: nat, k: nat): seq<Claim>
    requires n <= |shape| == |run|
  {
    var records := BookAt(share, shape, run, n).records; if k < |records| then records[k].claims else []
  }

  /** The two shares and all claims are after `to` acts what they were after `from`. */
  ghost predicate Unchanged(share: nat, shape: seq<Act>, run: seq<Happened>, from: nat, to: nat)
    requires from <= |shape| == |run| && to <= |shape|
  {
    && BookAt(share, shape, run, to).share == BookAt(share, shape, run, from).share
    && RealAt(share, shape, run, {}, to) == RealAt(share, shape, run, {}, from)
    && forall k: nat :: ClaimsAt(share, shape, run, to, k) == ClaimsAt(share, shape, run, from, k)
  }

  /** Nothing changes while nothing happens. */
  lemma QuietStays(share: nat, shape: seq<Act>, run: seq<Happened>, from: nat, to: nat)
    requires from <= to <= |shape| == |run| && Quiet(run, from, to) && RealAt(share, shape, run, {}, from) >= 0
    ensures Unchanged(share, shape, run, from, to)
  {
    QuietThrough(share, shape, run, from, to);
    assert Unchanged(share, shape, run, from, to);
  }

  lemma {:induction false} QuietThrough(share: nat, shape: seq<Act>, run: seq<Happened>, from: nat, to: nat)
    requires from <= to <= |shape| == |run| && Quiet(run, from, to) && RealAt(share, shape, run, {}, from) >= 0
    ensures forall m: nat :: from <= m <= to ==> Unchanged(share, shape, run, from, m)
  {
    if from < to {
      QuietThrough(share, shape, run, from, to - 1);
      assert Unchanged(share, shape, run, from, to - 1);
      QuietOneMore(share, shape, run, from, to - 1);
    } else {
      UnchangedAt(share, shape, run, from);
    }
  }

  lemma QuietOneMore(share: nat, shape: seq<Act>, run: seq<Happened>, from: nat, n: nat)
    requires from <= |shape| == |run| && n < |shape| && run[n] == Happened(0, None)
    requires Unchanged(share, shape, run, from, n) && RealAt(share, shape, run, {}, from) >= 0
    ensures Unchanged(share, shape, run, from, n + 1)
  {
    QuietNext(share, shape, run, n);
    UnchangedOn(share, shape, run, from, n, n + 1);
  }

  lemma UnchangedAt(share: nat, shape: seq<Act>, run: seq<Happened>, n: nat)
    requires n <= |shape| == |run|
    ensures Unchanged(share, shape, run, n, n)
  {
  }

  lemma UnchangedOn(share: nat, shape: seq<Act>, run: seq<Happened>, from: nat, mid: nat, to: nat)
    requires from <= |shape| == |run| && mid <= |shape| && to <= |shape|
    requires Unchanged(share, shape, run, from, mid) && Unchanged(share, shape, run, mid, to)
    ensures Unchanged(share, shape, run, from, to)
  {
  }

  lemma QuietNext(share: nat, shape: seq<Act>, run: seq<Happened>, n: nat)
    requires n < |shape| == |run| && run[n] == Happened(0, None) && RealAt(share, shape, run, {}, n) >= 0
    ensures Unchanged(share, shape, run, n, n + 1)
  {
    var next := n + 1;
    assert RealAt(share, shape, run, {}, next) == MetAt(share, shape, run, {}, n) == RealAt(share, shape, run, {}, n);
    forall k: nat
      ensures ClaimsAt(share, shape, run, next, k) == ClaimsAt(share, shape, run, n, k)
    {
      QuietClaims(BookAt(share, shape, run, n).records, shape[n], k);
    }
  }

  lemma QuietClaims(records: seq<Record>, act: Act, k: nat)
    ensures var now := NextRecords(records, act);
            |now| >= |records|
            && (if k < |now| then now[k].claims else []) == if k < |records| then records[k].claims else []
  {
  }

  /** Before anything happens. */
  lemma AtFirst(share: nat, shape: seq<Act>, run: seq<Happened>, n: nat)
    requires n <= |shape| == |run| && Quiet(run, 0, n)
    ensures var b := BookAt(share, shape, run, n);
            && b.share == share && NoClaims(b.records) && Unresolved(b.records) == Lost(shape, n)
            && RealAt(share, shape, run, {}, n) == share
  {
    QuietStays(share, shape, run, 0, n);
    var records := BookAt(share, shape, run, n).records;
    forall k: nat | k < |records|
      ensures records[k].claims == []
    {
      assert ClaimsAt(share, shape, run, n, k) == ClaimsAt(share, shape, run, 0, k) == [];
    }
    BareAgrees(share, shape, run, n);
    NothingEaten(records, |records|);
  }

  lemma SentGrows(shape: seq<Act>, n: nat)
    requires n < |shape|
    ensures Sent(shape, n) <= Sent(shape, n + 1)
  {
    var bare := Bare(shape, n);
    match shape[n]
    case Send(volume) => TotalPrefix(bare, bare + [Record(volume, false, false, [])], Asked, |bare|);
    case Lose(k) =>
      if k < |bare| {
        TotalUpdate(bare, Asked, k, bare[k].(answered := true), |bare|);
      }
    case Expire(k) =>
      if k < |bare| && bare[k].answered {
        TotalUpdate(bare, Asked, k, bare[k].(expired := true), |bare|);
      }
    case Slot =>
  }

  lemma {:induction false} SentMonotone(shape: seq<Act>, m: nat, n: nat)
    requires m <= n <= |shape|
    ensures Sent(shape, m) <= Sent(shape, n)
  {
    if m < n {
      SentMonotone(shape, m, n - 1);
      SentGrows(shape, n - 1);
    }
  }

  /** Only the unseen executions of act `k` are the bot's. */
  lemma {:induction false} ExecutedOnce(shape: seq<Act>, run: seq<Happened>, k: nat, n: nat)
    requires k < |shape| == |run| && n <= |shape|
    requires forall j :: 0 <= j < |run| && j != k ==> run[j].unseen == 0
    ensures Executed(shape, run, {}, n) == if n > k then run[k].unseen else 0
  {
    if n > 0 {
      ExecutedOnce(shape, run, k, n - 1);
    }
  }

  lemma TruthfulOnce(shape: seq<Act>, run: seq<Happened>, k: nat)
    requires k < |shape| == |run| && run[k].unseen <= Sent(shape, k)
    requires forall j :: 0 <= j < |run| && j != k ==> run[j].unseen == 0
    ensures Truthful(shape, run, {})
  {
    forall n | 0 <= n < |shape|
      ensures Executed(shape, run, {}, n + 1) <= Sent(shape, n)
    {
      ExecutedOnce(shape, run, k, n + 1);
      if n >= k {
        SentMonotone(shape, k, n);
      }
    }
  }

  lemma {:induction false} SharesAreKnown(share: nat, shape: seq<Act>, run: seq<Happened>, n: nat)
    requires n <= |shape| == |run|
    ensures SharesKnown(ClaimsOf(BookAt(share, shape, run, n).records))
  {
    if n > 0 {
      SharesAreKnown(share, shape, run, n - 1);
      var b := BookAt(share, shape, run, n - 1);
      forall k, i | 0 <= k < |BookAt(share, shape, run, n).records|
                    && 0 <= i < |BookAt(share, shape, run, n).records[k].claims|
        ensures BookAt(share, shape, run, n).records[k].claims[i].share.Some?
      {
        ClaimsNext(b, shape[n - 1], run[n - 1].fill, k);
        if k < |b.records| && i < |b.records[k].claims| {
          assert ClaimsOf(b.records)[k][i].share.Some?;
        }
      }
    }
  }

  /** A record that charges others while nobody took anything makes a false report. */
  lemma FalseReport(share: nat, shape: seq<Act>, run: seq<Happened>, own: set<int>, k: nat)
    requires |run| == |shape| && Truthful(shape, run, own) && !SomeoneTook(share, shape, run, own)
    requires var records := AllClaimsAt(share, shape, run);
             k < |records| && Charged(records[k], own, |records[k]|, false) > 0
    ensures !ReportTrue(share, shape, run, own, {}, {}) && !Sound(share, shape)
  {
    var records := AllClaimsAt(share, shape, run);
    assert own + {} == own;
    SharesAreKnown(share, shape, run, |shape|);
    ChargedFrom(records, own, true, k);
    forall c | PossibleOwn(records, {}, c)
      ensures TotalCharged(records, own + c) > 0
    {
      assert own + c == own;
    }
    assert PossibleOwn(records, {}, {});
  }

  /** The last fill's claim is its close's last. */
  lemma LastClaim(share: nat, shape: seq<Act>, run: seq<Happened>, k: nat, r: nat)
    requires k < |shape| == |run| && Filled(shape, run, k) && ClaimerAt(shape, k) == Some(r)
    requires Quiet(run, k + 1, |shape|) && RealAt(share, shape, run, {}, k + 1) >= 0
    ensures r < |BookAt(share, shape, run, k).records|
    ensures var records, b := AllClaimsAt(share, shape, run), BookAt(share, shape, run, k);
            && r < |records|
            && records[r] == ClaimsAt(share, shape, run, k, r) + [MadeClaim(b, r, run[k].fill.value)]
  {
    ClaimOfFill(share, shape, run, k, r);
    ClaimsStay(share, shape, run, k + 1, |shape|, r);
  }

  lemma ClaimsStay(share: nat, shape: seq<Act>, run: seq<Happened>, from: nat, to: nat, k: nat)
    requires from <= to <= |shape| == |run| && Quiet(run, from, to) && RealAt(share, shape, run, {}, from) >= 0
    ensures ClaimsAt(share, shape, run, to, k) == ClaimsAt(share, shape, run, from, k)
  {
    QuietStays(share, shape, run, from, to);
  }

  lemma ClaimOfFill(share: nat, shape: seq<Act>, run: seq<Happened>, k: nat, r: nat)
    requires k < |shape| == |run| && Filled(shape, run, k) && ClaimerAt(shape, k) == Some(r)
    ensures var b := BookAt(share, shape, run, k);
            && r < |b.records|
            && ClaimsAt(share, shape, run, k + 1, r)
               == ClaimsAt(share, shape, run, k, r) + [MadeClaim(b, r, run[k].fill.value)]
  {
    BareAgrees(share, shape, run, k);
    ClaimsNext(BookAt(share, shape, run, k), shape[k], run[k].fill, r);
  }

  /** A claim charged by itself, after claims that charge nothing and leave `credit`. */
  lemma ChargeOfLast(claims: seq<Claim>, claim: Claim, own: set<int>)
    requires !claim.venue && claim.order !in own
    ensures Charged(claims + [claim], own, |claims| + 1, false)
            == Charged(claims, own, |claims|, false) + LowTake(claim, CreditWith(claims, own, |claims|))
  {
    ChargedPrefix(claims, claim, own, |claims|);
  }

  lemma {:induction false} ChargedPrefix(claims: seq<Claim>, claim: Claim, own: set<int>, n: nat)
    requires n <= |claims|
    ensures CreditWith(claims + [claim], own, n) == CreditWith(claims, own, n)
    ensures Charged(claims + [claim], own, n, false) == Charged(claims, own, n, false)
  {
    if n > 0 {
      ChargedPrefix(claims, claim, own, n - 1);
    }
  }

  /** So the last fill is charged, if its claim is by itself, and nobody took anything. */
  lemma FalseLastCharge(share: nat, shape: seq<Act>, run: seq<Happened>, k: nat, r: nat, claims: seq<Claim>)
    requires k < |shape| == |run| && Filled(shape, run, k) && ClaimerAt(shape, k) == Some(r)
    requires Quiet(run, k + 1, |shape|) && RealAt(share, shape, run, {}, k + 1) >= 0
    requires claims == ClaimsAt(share, shape, run, k, r) && Charged(claims, {}, |claims|, false) == 0
    requires !run[k].fill.value.venue && r < |BookAt(share, shape, run, k).records|
    requires LowTake(MadeClaim(BookAt(share, shape, run, k), r, run[k].fill.value),
                     CreditWith(claims, {}, |claims|)) > 0
    requires Truthful(shape, run, {}) && !SomeoneTook(share, shape, run, {})
    ensures !Sound(share, shape)
  {
    LastClaim(share, shape, run, k, r);
    ChargeOfLast(claims, MadeClaim(BookAt(share, shape, run, k), r, run[k].fill.value), {});
    FalseReport(share, shape, run, {}, r);
  }

  /** A claim taken while closes that may have executed are not counted as unresolved: another party
      closes its own, and is charged what executed unseen. */
  lemma UncountedFails(share: nat, shape: seq<Act>, k: nat)
    requires k < |shape| && shape[k].Slot? && ClaimerAt(shape, k).Some?
    requires Lost(shape, k) < Min(Sent(shape, k), share)
    ensures !Sound(share, shape)
  {
    var unseen: nat := Min(Sent(shape, k), share);
    var run := Play(|shape|, -1, Happened(0, None), k, Happened(unseen, Some(Foreign(share - unseen))));
    var r := ClaimerAt(shape, k).value;
    AtFirst(share, shape, run, k);
    TruthfulOnce(shape, run, k);
    assert MetAt(share, shape, run, {}, k) == share - unseen;
    BareAgrees(share, shape, run, k);
    assert ClaimsAt(share, shape, run, k, r) == [];
    forall i
      ensures !TookAt(share, shape, run, {}, i)
    {
    }
    FalseLastCharge(share, shape, run, k, r, []);
  }

  /** The first of two fills was a stop-out of one unit, booked for nothing as the lost closes may have
      taken it. */
  lemma AfterStopOut(share: nat, shape: seq<Act>, run: seq<Happened>, i: nat)
    requires i < |shape| == |run| && Quiet(run, 0, i) && shape[i].Slot? && share > 0
    requires run[i] == Happened(0, Some(StopOut(share - 1))) && Lost(shape, i) > 0
    ensures BookAt(share, shape, run, i + 1).share == share && RealAt(share, shape, run, {}, i + 1) == share - 1
    ensures NoneCharge(share, shape, run, i + 1)
  {
    AtFirst(share, shape, run, i);
    var b, fill, next := BookAt(share, shape, run, i), StopOut(share - 1), i + 1;
    forall k: nat
      ensures ChargesNothing(ClaimsAt(share, shape, run, next, k))
    {
      if k < |b.records| {
        ClaimsNext(b, shape[i], run[i].fill, k);
        FirstCharge(MadeClaim(b, k, fill), {});
      } else {
        assert ClaimsAt(share, shape, run, next, k) == [];
      }
    }
  }

  ghost predicate NoneCharge(share: nat, shape: seq<Act>, run: seq<Happened>, n: nat)
    requires n <= |shape| == |run|
  {
    forall k: nat :: ChargesNothing(ClaimsAt(share, shape, run, n, k))
  }

  /** Claims that charge nothing, leave no credit and took nothing off the request. */
  predicate ChargesNothing(claims: seq<Claim>) {
    && CreditWith(claims, {}, |claims|) == 0 && Charged(claims, {}, |claims|, false) == 0
    && TakenVolume(claims) == 0
  }

  lemma FirstCharge(claim: Claim, own: set<int>)
    requires !TakenAsOwn(claim, own)
    ensures CreditWith([claim], own, 1) == claim.booked - LowTake(claim, 0)
    ensures Charged([claim], own, 1, false) == if claim.venue then 0 else LowTake(claim, 0)
    ensures TakenVolume([claim]) == if claim.venue then 0 else claim.fillQty
  {
    assert CreditWith([claim], own, 0) == 0 && Charged([claim], own, 0, false) == 0;
    assert [claim][..0] == [];
  }

  /** A claim after a fill against a lower bound that is above nothing: that fill was a stop-out booked for
      nothing, then the closes execute unseen, and another party closes its own. */
  lemma StopOutFails(share: nat, shape: seq<Act>, i: nat, k: nat)
    requires i < k < |shape| && shape[i].Slot? && shape[k].Slot? && ClaimerAt(shape, k).Some?
    requires 0 < Lost(shape, i) && Lost(shape, k) == Sent(shape, k) < share
    ensures !Sound(share, shape)
  {
    var unseen := Lost(shape, k);
    LostMonotone(shape, i, k);
    var first := Happened(0, Some(StopOut(share - 1)));
    var run := Play(|shape|, i, first, k, Happened(unseen, Some(Foreign(share - 1 - unseen))));
    var r := ClaimerAt(shape, k).value;
    AfterStopOut(share, shape, run, i);
    var claims := StopOutThenQuiet(share, shape, run, i, k, r);
    TruthfulOnce(shape, run, k);
    assert MetAt(share, shape, run, {}, k) == share - 1 - unseen;
    forall j
      ensures !TookAt(share, shape, run, {}, j)
    {
    }
    BareAgrees(share, shape, run, k);
    FalseLastCharge(share, shape, run, k, r, claims);
  }

  lemma StopOutThenQuiet(share: nat, shape: seq<Act>, run: seq<Happened>, i: nat, k: nat, r: nat)
    returns (claims: seq<Claim>)
    requires i < k <= |shape| == |run| && Quiet(run, i + 1, k) && share > 0 && NoneCharge(share, shape, run, i + 1)
    requires BookAt(share, shape, run, i + 1).share == share && RealAt(share, shape, run, {}, i + 1) == share - 1
    ensures claims == ClaimsAt(share, shape, run, k, r) && ChargesNothing(claims)
    ensures RealAt(share, shape, run, {}, k) == share - 1
    ensures var b := BookAt(share, shape, run, k); b.share == share && Unresolved(b.records) == Lost(shape, k)
  {
    QuietStays(share, shape, run, i + 1, k);
    NothingTakenAt(share, shape, run, i + 1, k);
    claims := ClaimsAt(share, shape, run, i + 1, r);
    assert ChargesNothing(claims) && ClaimsAt(share, shape, run, k, r) == claims;
  }

  lemma NothingTakenAt(share: nat, shape: seq<Act>, run: seq<Happened>, from: nat, k: nat)
    requires from <= k <= |shape| == |run| && Quiet(run, from, k) && RealAt(share, shape, run, {}, from) >= 0
    requires NoneCharge(share, shape, run, from)
    ensures Unresolved(BookAt(share, shape, run, k).records) == Lost(shape, k)
  {
    QuietStays(share, shape, run, from, k);
    BareAgrees(share, shape, run, k);
    var records := BookAt(share, shape, run, k).records;
    forall q: nat | q < |records|
      ensures TakenVolume(records[q].claims) == 0
    {
      assert ChargesNothing(ClaimsAt(share, shape, run, from, q));
      assert ClaimsAt(share, shape, run, k, q) == ClaimsAt(share, shape, run, from, q);
    }
    NothingEaten(records, |records|);
  }

  lemma LostGrows(shape: seq<Act>, n: nat)
    requires n < |shape|
    ensures Lost(shape, n) <= Lost(shape, n + 1)
  {
    var bare := Bare(shape, n);
    match shape[n]
    case Send(volume) => TotalPrefix(bare, bare + [Record(volume, false, false, [])], AskedLost, |bare|);
    case Lose(k) =>
      if k < |bare| {
        TotalUpdate(bare, AskedLost, k, bare[k].(answered := true), |bare|);
      }
    case Expire(k) =>
      if k < |bare| && bare[k].answered {
        TotalUpdate(bare, AskedLost, k, bare[k].(expired := true), |bare|);
      }
    case Slot =>
  }

  lemma {:induction false} LostMonotone(shape: seq<Act>, m: nat, n: nat)
    requires m <= n <= |shape|
    ensures Lost(shape, m) <= Lost(shape, n)
  {
    if m < n {
      LostMonotone(shape, m, n - 1);
      LostGrows(shape, n - 1);
    }
  }

  /** Two claims of one close: the first is another party's close of its own, whose booking is credited
      though nothing of the share is certain; then the closes have executed unseen, and another party
      closes its own once more. */
  lemma SecondClaimFails(share: nat, shape: seq<Act>, i: nat, k: nat)
    requires i < k < |shape| && shape[i].Slot? && shape[k].Slot? && ClaimerAt(shape, k).Some?
    requires ClaimerAt(shape, i) == ClaimerAt(shape, k) && 0 < share <= Lost(shape, k)
    requires AsksForSome(shape)
    ensures !Sound(share, shape)
  {
    var first := Happened(0, Some(Foreign(share)));
    var run := Play(|shape|, i, first, k, Happened(share, Some(Foreign(0))));
    var r := ClaimerAt(shape, k).value;
    var older := AfterForeign(share, shape, run, i, r);
    QuietStays(share, shape, run, i + 1, k);
    LostWithinSent(Bare(shape, k), |Bare(shape, k)|);
    TruthfulOnce(shape, run, k);
    assert ClaimsAt(share, shape, run, k, r) == [older];
    assert MetAt(share, shape, run, {}, k) == 0;
    forall j | j != i
      ensures !TookAt(share, shape, run, {}, j)
    {
    }
    BareAgrees(share, shape, run, k);
    FalseLastCharge(share, shape, run, k, r, [older]);
  }

  /** The first of two fills was another party's close of its own. */
  lemma AfterForeign(share: nat, shape: seq<Act>, run: seq<Happened>, i: nat, r: nat) returns (claim: Claim)
    requires i < |shape| == |run| && Quiet(run, 0, i) && shape[i].Slot? && share > 0 && AsksForSome(shape)
    requires run[i] == Happened(0, Some(Foreign(share))) && ClaimerAt(shape, i) == Some(r)
    ensures RealAt(share, shape, run, {}, i + 1) == share && ClaimsAt(share, shape, run, i + 1, r) == [claim]
    ensures !TookAt(share, shape, run, {}, i)
    ensures CreditWith([claim], {}, 1) == 1 && Charged([claim], {}, 1, false) == 0
  {
    AtFirst(share, shape, run, i);
    BareAgrees(share, shape, run, i);
    AllAsk(shape, i);
    var b := BookAt(share, shape, run, i);
    claim := MadeClaim(b, r, run[i].fill.value);
    ClaimsNext(b, shape[i], run[i].fill, r);
    assert b.records[r].(claims := []) == Bare(shape, i)[r].(claims := []);
    FirstCharge(claim, {});
  }

  lemma {:induction false} AllAsk(shape: seq<Act>, n: nat)
    requires n <= |shape| && AsksForSome(shape)
    ensures forall k :: 0 <= k < |Bare(shape, n)| ==> Bare(shape, n)[k].volume > 0
    ensures forall k :: 0 <= k < |Bare(shape, n)| ==> Bare(shape, n)[k].expired ==> Bare(shape, n)[k].answered
  {
    if n > 0 {
      AllAsk(shape, n - 1);
    }
  }

  lemma {:induction false} AllAnsweredTotal(records: seq<Record>, n: nat)
    requires n <= |records| && forall k :: 0 <= k < n ==> records[k].answered
    ensures Total(records, AskedLost, n) == Total(records, Asked, n)
  {
    if n > 0 {
      AllAnsweredTotal(records, n - 1);
    }
  }

  /** Once a close was sent, a slot either meets a lost one, or a claim that does not count one. */
  lemma SentIsLostOrClaims(shape: seq<Act>, i: nat)
    requires i <= |shape| && AsksForSome(shape) && Bare(shape, i) != []
    ensures Sent(shape, i) > 0
    ensures ClaimerAt(shape, i).None? ==> Lost(shape, i) > 0
  {
    var bare := Bare(shape, i);
    AllAsk(shape, i);
    assert Total(bare, Asked, |bare|) >= bare[|bare| - 1].volume;
    ClaimerIsOne(bare, |bare|);
    if ClaimerAt(shape, i).None? {
      AllAnsweredTotal(bare, |bare|);
    }
  }

  /** A claim that is not safe can make a false report. */
  lemma UnsafeFails(share: nat, shape: seq<Act>, k: nat)
    requires k < |shape| && shape[k].Slot? && ClaimerAt(shape, k).Some? && share > 0
    requires AsksForSome(shape) && !Safe(share, shape, k)
    ensures !Sound(share, shape)
  {
    LostWithinSent(Bare(shape, k), |Bare(shape, k)|);
    if Lost(shape, k) >= share {
      var i :| 0 <= i < k && shape[i].Slot? && ClaimerAt(shape, i) == ClaimerAt(shape, k);
      SecondClaimFails(share, shape, i, k);
    } else if Lost(shape, k) < Sent(shape, k) {
      UncountedFails(share, shape, k);
    } else {
      var i :| 0 <= i < k && shape[i].Slot? && Bare(shape, i) != [];
      SentIsLostOrClaims(shape, i);
      if Lost(shape, i) == 0 {
        UncountedFails(share, shape, i);
      } else {
        StopOutFails(share, shape, i, k);
      }
    }
  }

  predicate OfNoShare(claims: seq<Claim>) {
    forall i :: 0 <= i < |claims| ==> claims[i].share == Some((0, 0)) && claims[i].booked == 0
  }

  lemma {:induction false} NothingCharged(claims: seq<Claim>, own: set<int>, n: nat)
    requires n <= |claims| && OfNoShare(claims)
    ensures CreditWith(claims, own, n) == 0 && Charged(claims, own, n, false) == 0
  {
    if n > 0 {
      NothingCharged(claims, own, n - 1);
    }
  }

  ghost predicate AllOfNoShare(shape: seq<Act>, run: seq<Happened>, n: nat)
    requires n <= |shape| == |run|
  {
    forall k: nat :: OfNoShare(ClaimsAt(0, shape, run, n, k))
  }

  lemma {:induction false} ClaimsOfNoShare(shape: seq<Act>, run: seq<Happened>, n: nat)
    requires n <= |shape| == |run|
    ensures AllOfNoShare(shape, run, n)
  {
    if n > 0 {
      var i := n - 1;
      ClaimsOfNoShare(shape, run, i);
      AlwaysBalanced(0, shape, run, i);
      forall k: nat
        ensures OfNoShare(ClaimsAt(0, shape, run, n, k))
      {
        assert OfNoShare(ClaimsAt(0, shape, run, i, k));
        if k < |BookAt(0, shape, run, n).records| {
          NoShareNext(BookAt(0, shape, run, i), shape[i], run[i].fill, k);
        }
      }
    }
  }

  lemma NoShareNext(b: Book, act: Act, fill: Option<Fill>, k: nat)
    requires Balanced(b, 0) && k < |Next(b, act, fill).records|
    requires k < |b.records| ==> OfNoShare(b.records[k].claims)
    ensures OfNoShare(Next(b, act, fill).records[k].claims)
  {
    ClaimsNext(b, act, fill, k);
    if k < |b.records| && fill.Some? {
      ClaimEats(b, k, fill.value);
    }
  }

  lemma NoShareNoReport(
    shape: seq<Act>, run: seq<Happened>, own: set<int>, maybe: set<int>, truth: set<int>)
    requires |run| == |shape|
    ensures ReportTrue(0, shape, run, own, maybe, truth)
  {
    var records := AllClaimsAt(0, shape, run);
    if PossibleOwn(records, maybe, truth) && ChargedInAllWays(records, own, maybe) {
      var k := SomeoneCharged(records, own + truth);
      ClaimsOfNoShare(shape, run, |shape|);
      assert records[k] == ClaimsAt(0, shape, run, |shape|, k);
      NothingCharged(records[k], own + truth, |records[k]|);
      assert false;
    }
  }

  /** For any closes of one position, sent with the journal share `share` the real one: reports are true
      for all fills and all unseen executions exactly if there is no share, or every claim is safe. */
  lemma SoundIff(share: nat, shape: seq<Act>)
    requires AsksForSome(shape)
    ensures Sound(share, shape) <==> share == 0 || AllSafe(share, shape)
  {
    if share == 0 || AllSafe(share, shape) {
      forall run: seq<Happened>, own, maybe, truth | |run| == |shape|
        ensures ReportTrue(share, shape, run, own, maybe, truth)
      {
        if share == 0 {
          NoShareNoReport(shape, run, own, maybe, truth);
        } else {
          SafeReportIsTrue(share, shape, run, own, maybe, truth);
        }
      }
    } else {
      var k :| 0 <= k < |shape| && shape[k].Slot? && ClaimerAt(shape, k).Some? && !Safe(share, shape, k);
      UnsafeFails(share, shape, k);
    }
  }

  // --- one close ------------------------------------------------------------------------

  /** One close: a single claim is safe once the answer is lost, not before, and a second never is. */
  lemma OneLostClose(share: nat, volume: nat)
    requires volume > 0
    ensures Sound(share, [Send(volume), Lose(0), Slot])
    ensures Sound(share, [Send(volume), Slot, Lose(0)]) <==> share == 0
    ensures Sound(share, [Send(volume), Lose(0), Slot, Slot]) <==> share == 0
  {
    var late, early, twice := [Send(volume), Lose(0), Slot], [Send(volume), Slot, Lose(0)],
                              [Send(volume), Lose(0), Slot, Slot];
    OneBare(volume, late);
    OneBare(volume, twice);
    SoundIff(share, late);
    SoundIff(share, twice);
    EarlyClaimFails(share, volume);
    assert !FirstOfItsClose(twice, 3) && !NoFillSince(twice, 3);
  }

  lemma EarlyClaimFails(share: nat, volume: nat)
    requires volume > 0
    ensures Sound(share, [Send(volume), Slot, Lose(0)]) <==> share == 0
  {
    var early := [Send(volume), Slot, Lose(0)];
    SoundIff(share, early);
    assert Bare(early, 0) == [] && Bare(early, 1) == [Record(volume, false, false, [])];
    OneRecord(Record(volume, false, false, []));
    assert share > 0 ==> !Safe(share, early, 1);
  }

  lemma OneBare(volume: nat, shape: seq<Act>)
    requires 3 <= |shape| <= 4 && shape[0] == Send(volume) && shape[1] == Lose(0) && shape[2] == Slot
    requires |shape| == 4 ==> shape[3] == Slot
    ensures Bare(shape, 2) == [Record(volume, true, false, [])] && ClaimerAt(shape, 2) == Some(0)
    ensures Lost(shape, 2) == Sent(shape, 2) == volume && NoFillSince(shape, 2)
    ensures |shape| == 4 ==> Bare(shape, 3) == Bare(shape, 2) && ClaimerAt(shape, 3) == Some(0)
  {
    assert Bare(shape, 0) == [] && Bare(shape, 1) == [Record(volume, false, false, [])];
    assert Bare(shape, 2) == [Record(volume, true, false, [])];
    OneRecord(Record(volume, true, false, []));
  }

  lemma OneRecord(r: Record)
    requires !r.expired
    ensures Total([r], Asked, 1) == r.volume && Total([r], AskedLost, 1) == AskedLost(r)
    ensures Claimer([r], 1) == Some(0)
  {
    TotalNext([r], Asked, 0);
    TotalNext([r], AskedLost, 0);
    assert Claimer([r], 0) == None;
  }

  // --- nothing unseen ------------------------------------------------------------------

  predicate NothingUnseen(run: seq<Happened>) {
    forall i :: 0 <= i < |run| ==> run[i].unseen == 0
  }

  /** No close unresolved at a fill of the venue, no other fill unclaimed, and where a close claims, no
      older one's claims used up its request, unless the journal share is gone. */
  predicate PlainFill(b: Book, fill: Fill) {
    var c := ClaimerOf(b.records);
    && (fill.venue ==> Unresolved(b.records) == 0)
    && (c.None? ==> fill.venue)
    && (c.Some? && b.share > 0 ==> NoneUsedUp(b.records, c.value))
  }

  predicate Plain(share: nat, shape: seq<Act>, run: seq<Happened>, n: nat)
    requires n < |shape| == |run|
  {
    Filled(shape, run, n) ==> PlainFill(BookAt(share, shape, run, n), run[n].fill.value)
  }

  predicate UsedUp(r: Record) {
    ClaimedBy(r.claims, |r.claims|) >= r.volume
  }

  predicate NoneUsedUp(records: seq<Record>, n: nat)
    requires n <= |records|
  {
    forall k :: 0 <= k < n ==> !UsedUp(records[k])
  }

  /** What the walk of a close's claims takes the share for. */
  function WalkedShare(b: Book, own: set<int>, k: nat): int
    requires k < |b.records|
  {
    b.share + CreditWith(b.records[k].claims, own, |b.records[k].claims|)
  }

  /** One claim, where nobody else took anything: it is charged nothing, and the walk stays within the
      real share. */
  lemma ClaimKeepsWalk(b: Book, own: set<int>, k: nat, fill: Fill, met: int)
    requires k < |b.records| && b.share >= 0 && met >= 0 && WalkedShare(b, own, k) <= met
    requires fill.venue ==> Unresolved(b.records) == 0
    requires !fill.venue && fill.order !in own ==> TakesOf(fill, own, met) == 0
    requires Measured(b.records[k])
    ensures var claim, r, took := MadeClaim(b, k, fill), b.records[k], TakesOf(fill, own, met);
            var claims := r.claims + [claim];
            && took <= met
            && b.share - claim.booked + CreditWith(claims, own, |claims|) <= met - took
            && Charged(claims, own, |claims|, false) == Charged(r.claims, own, |r.claims|, false)
  {
    var claim, claims := MadeClaim(b, k, fill), b.records[k].claims;
    var credit := CreditWith(claims, own, |claims|);
    ClaimEats(b, k, fill);
    ChargedPrefix(claims, claim, own, |claims|);
    WeighedBelow(fill.qty, fill.venueAfter, claim.booked, met, b.share, credit);
    if !IsOwnFill(fill, own) {
      LowWithin(claim, b.share, credit, met);
    }
  }

  /** Weighed against a lower share, a fill is charged no more. */
  lemma LowWithin(claim: Claim, share: int, credit: int, met: int)
    requires claim.share.Some? && 0 <= claim.share.value.0 <= share && 0 <= met && share + credit <= met
    ensures 0 <= LowTake(claim, credit) <= Min(claim.fillQty, Max(0, met - claim.venueAfter))
  {
  }

  /** The record charges nobody, and its claims booked no more than they took and it asked for. */
  predicate Fair(r: Record, own: set<int>) {
    Measured(r) && 0 < r.volume && ClaimedBy(r.claims, |r.claims|) <= r.volume
    && Charged(r.claims, own, |r.claims|, false) == 0
  }

  /** As long as nobody else took anything: the real share is behind the journal's only where a close's
      claims used up its request, the walk of the close that claims stays within it, and closes yet to
      claim have no claims. */
  ghost predicate Walking(b: Book, own: set<int>, held: int) {
    && 0 <= b.share && 0 <= held && (held < b.share ==> !NoneUsedUp(b.records, |b.records|))
    && (forall k :: 0 <= k < |b.records| ==> Fair(b.records[k], own))
    && (forall k :: 0 <= k < |b.records| ==> ClaimsInTurn(b, own, k, held))
  }

  predicate ClaimsInTurn(b: Book, own: set<int>, k: nat, held: int)
    requires k < |b.records|
  {
    var c := ClaimerOf(b.records);
    c.Some? ==>
      && (k > c.value ==> b.records[k].claims == [])
      && (k == c.value && b.records[k].claims != [] ==> WalkedShare(b, own, k) <= held)
  }

  /** An act that is no fill. */
  lemma WalkOnNoFill(b: Book, act: Act, own: set<int>, held: int)
    requires Walking(b, own, held) && (act.Send? ==> act.volume > 0)
    ensures Walking(b.(records := NextRecords(b.records, act)), own, held)
  {
    var now := b.(records := NextRecords(b.records, act));
    if held < b.share {
      var k :| 0 <= k < |b.records| && UsedUp(b.records[k]);
      assert UsedUp(now.records[k]);
    }
    ClaimerGoesOn(b.records, act);
    forall k | 0 <= k < |now.records|
      ensures Fair(now.records[k], own) && ClaimsInTurn(now, own, k, held)
    {
      QuietClaims(b.records, act, k);
      if k < |b.records| {
        assert Fair(b.records[k], own) && ClaimsInTurn(b, own, k, held);
      }
    }
  }

  /** The claiming close is only ever followed by a later one. */
  lemma ClaimerGoesOn(records: seq<Record>, act: Act)
    ensures var was, now := ClaimerOf(records), ClaimerOf(NextRecords(records, act));
            && (was.Some? && now.Some? ==> was.value <= now.value)
            && (was.None? && now.Some? ==> now.value >= |records|)
  {
    ClaimerIsOne(records, |records|);
    ClaimerIsOne(NextRecords(records, act), |NextRecords(records, act)|);
  }

  /** A stop-out or the like that no close claims. */
  lemma WalkOnUnclaimed(b: Book, fill: Fill, own: set<int>, held: int)
    requires Walking(b, own, held) && ClaimerOf(b.records).None? && fill.venue && Unresolved(b.records) == 0
    ensures Walking(TakeFill(b, fill), own, held - TakesOf(fill, own, held))
  {
    var now, left := TakeFill(b, fill), held - TakesOf(fill, own, held);
    forall k | 0 <= k < |now.records|
      ensures Fair(now.records[k], own) && ClaimsInTurn(now, own, k, left)
    {
      assert Fair(b.records[k], own);
    }
  }

  /** A fill a close claims, which took nothing if it is another party's. */
  lemma WalkOnClaim(b: Book, fill: Fill, own: set<int>, held: int)
    requires Walking(b, own, held) && ClaimerOf(b.records).Some?
    requires fill.venue ==> Unresolved(b.records) == 0
    requires b.share > 0 ==> NoneUsedUp(b.records, ClaimerOf(b.records).value)
    requires !fill.venue && fill.order !in own ==> TakesOf(fill, own, held) == 0
    ensures Walking(TakeFill(b, fill), own, held - TakesOf(fill, own, held))
  {
    var c := ClaimerOf(b.records).value;
    ClaimerIsOne(b.records, |b.records|);
    var was, claim := b.records[c], MadeClaim(b, c, fill);
    var next := was.(claims := was.claims + [claim]);
    var now, left := TakeFill(b, fill), held - TakesOf(fill, own, held);
    assert now.records == b.records[c := next];
    assert Fair(was, own) && ClaimsInTurn(b, own, c, held);
    BehindOnlyUsedUp(b, own, c, held);
    ClaimKeepsWalk(b, own, c, fill, held);
    ClaimKeepsFair(b, own, c, fill, held);
    ClaimerKept(b.records, c, next, |b.records|);
    forall k | 0 <= k < |now.records|
      ensures Fair(now.records[k], own) && ClaimsInTurn(now, own, k, left)
    {
      if k != c {
        assert Fair(b.records[k], own) && ClaimsInTurn(b, own, k, held);
      }
    }
    assert left < now.share ==> UsedUp(now.records[c]);
  }

  /** Where a close claims, the walk starts within the real share, and only its own claims can have used
      up a request. */
  lemma BehindOnlyUsedUp(b: Book, own: set<int>, c: nat, held: int)
    requires Walking(b, own, held) && ClaimerOf(b.records) == Some(c)
    requires b.share > 0 ==> NoneUsedUp(b.records, c)
    ensures held < b.share ==> UsedUp(b.records[c])
    ensures WalkedShare(b, own, c) <= held
  {
    if held < b.share {
      var k :| 0 <= k < |b.records| && UsedUp(b.records[k]);
      assert Fair(b.records[k], own) && ClaimsInTurn(b, own, k, held);
    }
    assert ClaimsInTurn(b, own, c, held);
  }

  /** The claim keeps the record fair, and the real share behind only if its request is used up. */
  lemma ClaimKeepsFair(b: Book, own: set<int>, c: nat, fill: Fill, held: int)
    requires c < |b.records| && b.share >= 0 && held >= 0 && Fair(b.records[c], own)
    requires fill.venue ==> Unresolved(b.records) == 0
    requires held < b.share ==> UsedUp(b.records[c])
    requires var r := b.records[c]; var claims := r.claims + [MadeClaim(b, c, fill)];
             Charged(claims, own, |claims|, false) == 0
    ensures var r := b.records[c]; var now := r.(claims := r.claims + [MadeClaim(b, c, fill)]);
            && Fair(now, own)
            && (held - TakesOf(fill, own, held) < b.share - MadeClaim(b, c, fill).booked ==> UsedUp(now))
  {
    var claim, r := MadeClaim(b, c, fill), b.records[c];
    ClaimEats(b, c, fill);
    ClaimedPush(r.claims, claim, |r.claims|);
    BookingStep(Some(r.volume), ClaimedBy(r.claims, |r.claims|), b.share, held,
                fill.(unresolved := Unresolved(b.records)), IsOwnFill(fill, own));
  }

  lemma {:induction false} ClaimerKept(records: seq<Record>, c: nat, r: Record, n: nat)
    requires c < |records| && n <= |records| && r.expired == records[c].expired
    ensures Claimer(records[c := r], n) == Claimer(records, n)
  {
    if n > 0 {
      ClaimerKept(records, c, r, n - 1);
    }
  }

  lemma {:induction false} WalksOn(share: nat, shape: seq<Act>, run: seq<Happened>, own: set<int>, n: nat)
    requires n <= |shape| == |run| && NothingUnseen(run) && AsksForSome(shape)
    requires forall i: nat :: i < n ==> PlainAt(share, shape, run, own, i)
    ensures forall m: nat :: m <= n ==> WalkingAt(share, shape, run, own, m)
  {
    if n == 0 {
      WalksFrom(share, shape, run, own);
    } else {
      WalksOn(share, shape, run, own, n - 1);
      WalksNext(share, shape, run, own, n - 1);
    }
  }

  lemma WalksFrom(share: nat, shape: seq<Act>, run: seq<Happened>, own: set<int>)
    requires |shape| == |run|
    ensures WalkingAt(share, shape, run, own, 0)
  {
  }

  /** The act is plain, and nobody else took anything. */
  predicate PlainAt(share: nat, shape: seq<Act>, run: seq<Happened>, own: set<int>, i: nat) {
    i < |shape| == |run| && Plain(share, shape, run, i) && !TookAt(share, shape, run, own, i)
  }

  ghost predicate WalkingAt(share: nat, shape: seq<Act>, run: seq<Happened>, own: set<int>, n: nat)
    requires n <= |shape| == |run|
  {
    Walking(BookAt(share, shape, run, n), own, RealAt(share, shape, run, own, n))
  }

  lemma WalksNext(share: nat, shape: seq<Act>, run: seq<Happened>, own: set<int>, i: nat)
    requires i < |shape| == |run| && run[i].unseen == 0 && AsksForSome(shape) && WalkingAt(share, shape, run, own, i)
    requires PlainAt(share, shape, run, own, i)
    ensures WalkingAt(share, shape, run, own, i + 1)
  {
    var b, held := BookAt(share, shape, run, i), RealAt(share, shape, run, own, i);
    NothingTakenIn(share, shape, run, own, i);
    WalkNext(b, shape[i], run[i].fill, own, held);
    assert BookAt(share, shape, run, i + 1) == Next(b, shape[i], run[i].fill);
  }

  /** Where nobody else took anything, in the terms of the act. */
  lemma NothingTakenIn(share: nat, shape: seq<Act>, run: seq<Happened>, own: set<int>, i: nat)
    requires i < |shape| == |run| && run[i].unseen == 0 && RealAt(share, shape, run, own, i) >= 0
    requires !TookAt(share, shape, run, own, i)
    ensures var held, fill := RealAt(share, shape, run, own, i), run[i].fill;
            && (shape[i].Slot? && fill.Some? && ClaimerOf(BookAt(share, shape, run, i).records).Some?
                && !fill.value.venue && fill.value.order !in own
                ==> TakesOf(fill.value, own, held) <= 0)
            && RealAt(share, shape, run, own, i + 1)
               == held - if shape[i].Slot? && fill.Some? then TakesOf(fill.value, own, held) else 0
  {
    BareAgrees(share, shape, run, i);
    assert MetAt(share, shape, run, own, i) == RealAt(share, shape, run, own, i);
  }

  ghost predicate AllPlain(share: nat, shape: seq<Act>, run: seq<Happened>)
    requires |shape| == |run|
  {
    forall i :: 0 <= i < |shape| ==> Plain(share, shape, run, i)
  }

  /** One act, where another party's fill took nothing. */
  lemma WalkNext(b: Book, act: Act, fill: Option<Fill>, own: set<int>, held: int)
    requires Walking(b, own, held) && (act.Send? ==> act.volume > 0)
    requires act.Slot? && fill.Some? ==> PlainFill(b, fill.value)
    requires act.Slot? && fill.Some? && ClaimerOf(b.records).Some? && !fill.value.venue && fill.value.order !in own
             ==> TakesOf(fill.value, own, held) <= 0
    ensures Walking(Next(b, act, fill), own,
                    held - if act.Slot? && fill.Some? then TakesOf(fill.value, own, held) else 0)
  {
    if act.Slot? && fill.Some? {
      if ClaimerOf(b.records).None? {
        WalkOnUnclaimed(b, fill.value, own, held);
      } else {
        WalkOnClaim(b, fill.value, own, held);
      }
    } else {
      WalkOnNoFill(b, act, own, held);
    }
  }

  /** With nothing executed unseen, a report is true where each fill was plain. */
  lemma PlainReportIsTrue(
    share: nat, shape: seq<Act>, run: seq<Happened>, own: set<int>, maybe: set<int>, truth: set<int>)
    requires |run| == |shape| && NothingUnseen(run) && AsksForSome(shape)
    requires AllPlain(share, shape, run)
    ensures ReportTrue(share, shape, run, own, maybe, truth)
  {
    var records := AllClaimsAt(share, shape, run);
    if && PossibleOwn(records, maybe, truth) && ChargedInAllWays(records, own, maybe)
       && !SomeoneTook(share, shape, run, own + truth)
    {
      forall i: nat | i < |shape|
        ensures PlainAt(share, shape, run, own + truth, i)
      {
        assert Plain(share, shape, run, i) && !TookAt(share, shape, run, own + truth, i);
      }
      WalksOn(share, shape, run, own + truth, |shape|);
      assert WalkingAt(share, shape, run, own + truth, |shape|);
      var k := SomeoneCharged(records, own + truth);
      assert false;
    }
  }

  /** The first close asked for `first`, got no fill, and its grace ended; then a second is sent. */
  function SecondClose(first: nat, second: nat): seq<Act> {
    [Send(first), Lose(0), Expire(0), Send(second), Slot, Slot, Slot]
  }

  /** A stop-out of one unit, another party's close of as much of its own as the bot holds, and one of one
      unit more. */
  function StopOutAndTwoForeign(share: nat): seq<Happened>
    requires share > 1
  {
    var nothing := Happened(0, None);
    [nothing, nothing, nothing, nothing, Happened(0, Some(StopOut(share - 1))),
     Happened(0, Some(Fill(5, 5, share, None, share, false, true, 0))), Happened(0, Some(Foreign(share - 1)))]
  }

  /** The failing family where a fill was not plain, nothing executed unseen: the stop-out is booked for
      nothing as the first close is unresolved, and a report is queued though nobody else took anything. */
  lemma StopOutWhileUnresolved(share: nat, first: nat, second: nat)
    requires 1 < share <= second && first > 0
    ensures var shape, run := SecondClose(first, second), StopOutAndTwoForeign(share);
            && NothingUnseen(run) && Truthful(shape, run, {}) && !ReportTrue(share, shape, run, {}, {}, {})
  {
    var shape, run := SecondClose(first, second), StopOutAndTwoForeign(share);
    TruthfulOnce(shape, run, 0);
    var claims := TwoTaken(share, first, second);
    var b := SecondBook(0, first, second, claims);
    var claim := SecondTakes(b, run[6].fill.value);
    ChargeOfLast(claims, claim, {});
    assert BookAt(share, shape, run, 7).records[1].claims == claims + [claim];
    forall i
      ensures !TookAt(share, shape, run, {}, i)
    {
      NobodyTook(share, first, second, i);
    }
    FalseReport(share, shape, run, {}, 1);
  }

  function SecondBook(share: int, first: nat, second: nat, claims: seq<Claim>): Book {
    Book(share, [Record(first, true, true, []), Record(second, false, false, claims)])
  }

  /** The stop-out is booked for nothing, the first foreign close for the whole journal share. */
  lemma TwoTaken(share: nat, first: nat, second: nat) returns (claims: seq<Claim>)
    requires 1 < share <= second && first > 0
    ensures BookAt(share, SecondClose(first, second), StopOutAndTwoForeign(share), 6)
            == SecondBook(0, first, second, claims)
    ensures CreditWith(claims, {}, |claims|) == share && Charged(claims, {}, |claims|, false) == 0
  {
    var shape, run := SecondClose(first, second), StopOutAndTwoForeign(share);
    SecondIsSent(share, first, second, run);
    var one := SecondTakes(SecondBook(share, first, second, []), run[4].fill.value);
    assert [] + [one] == [one] && one.booked == 0;
    FirstCharge(one, {});
    assert BookAt(share, shape, run, 5) == SecondBook(share, first, second, [one]);
    assert ClaimedBy([one], 0) == 0 && ClaimedBy([one], 1) == 0;
    var two := SecondTakes(SecondBook(share, first, second, [one]), run[5].fill.value);
    claims := [one] + [two];
    assert BookAt(share, shape, run, 6) == SecondBook(share - two.booked, first, second, claims);
    SecondBooked(one, two, share);
  }

  lemma SecondBooked(one: Claim, two: Claim, share: nat)
    requires one.venue && one.booked == 0 && one.share.Some? && LowTake(one, 0) == 0
    requires !two.venue && two.order == 5 && two.booked == share && LowTake(two, 0) == 0
    ensures CreditWith([one] + [two], {}, 2) == share && Charged([one] + [two], {}, 2, false) == 0
  {
    FirstCharge(one, {});
    ChargeOfLast([one], two, {});
    ChargedPrefix([one], two, {}, 1);
  }

  lemma NobodyTook(share: nat, first: nat, second: nat, i: int)
    requires 1 < share <= second && first > 0
    ensures !TookAt(share, SecondClose(first, second), StopOutAndTwoForeign(share), {}, i)
  {
    var shape, run := SecondClose(first, second), StopOutAndTwoForeign(share);
    QuietActs(share, shape, run, {}, 4);
    OneAct(share, shape, run, {}, 4);
    OneAct(share, shape, run, {}, 5);
    OneAct(share, shape, run, {}, 6);
  }

  /** Before anything happens, to the real share and to what executed. */
  lemma {:induction false} QuietActs(share: nat, shape: seq<Act>, run: seq<Happened>, own: set<int>, n: nat)
    requires n <= |shape| == |run| && Quiet(run, 0, n)
    ensures RealAt(share, shape, run, own, n) == share && Executed(shape, run, own, n) == 0
  {
    if n > 0 {
      QuietActs(share, shape, run, own, n - 1);
    }
  }

  /** One act, for the real share and for what executed. */
  lemma OneAct(share: nat, shape: seq<Act>, run: seq<Happened>, own: set<int>, n: nat)
    requires n < |shape| == |run|
    ensures var met, filled := MetAt(share, shape, run, own, n), Filled(shape, run, n);
            && met == RealAt(share, shape, run, own, n) - Min(run[n].unseen, RealAt(share, shape, run, own, n))
            && RealAt(share, shape, run, own, n + 1)
               == met - (if filled then TakesOf(run[n].fill.value, own, met) else 0)
            && Executed(shape, run, own, n + 1)
               == Executed(shape, run, own, n) + run[n].unseen
                  + if filled && IsOwnFill(run[n].fill.value, own) then run[n].fill.value.qty else 0
  {
  }

  lemma SecondIsSent(share: nat, first: nat, second: nat, run: seq<Happened>)
    requires |run| == 7 && Quiet(run, 0, 4)
    ensures BookAt(share, SecondClose(first, second), run, 4)
            == SecondBook(share, first, second, [])
  {
    var shape := SecondClose(first, second);
    assert BookAt(share, shape, run, 1) == Book(share, [Record(first, false, false, [])]);
    assert BookAt(share, shape, run, 2) == Book(share, [Record(first, true, false, [])]);
    assert BookAt(share, shape, run, 3) == Book(share, [Record(first, true, true, [])]);
  }

  /** The second close claims a fill while the first is unresolved. */
  lemma SecondTakes(b: Book, fill: Fill) returns (claim: Claim)
    requires |b.records| == 2 && b.records[0].expired && b.records[0].answered && b.records[0].claims == []
    requires !b.records[1].expired && !b.records[1].answered
    ensures Unresolved(b.records) == b.records[0].volume && claim == MadeClaim(b, 1, fill)
    ensures var second := b.records[1];
            TakeFill(b, fill) == Book(b.share - claim.booked,
                                      [b.records[0], second.(claims := second.claims + [claim])])
  {
    claim := MadeClaim(b, 1, fill);
    assert Claimer(b.records, 0) == None && Claimer(b.records, 1) == None && Claimer(b.records, 2) == Some(1);
    assert Left(b.records[0]) == b.records[0].volume && Left(b.records[1]) == 0;
    TotalNext(b.records, Left, 0);
    TotalNext(b.records, Left, 1);
    assert [b.records[0], b.records[1]] == b.records;
  }

  /** The same where the first close's fill comes after its grace. */
  function LateFill(first: nat, second: nat): seq<Act> {
    [Send(first), Lose(0), Expire(0), Slot, Send(second), Slot, Slot]
  }

  /** One unit of the first close, which no close claims, and another party's two closes of its own. */
  function OwnFillAndTwoForeign(share: nat): seq<Happened>
    requires share > 1
  {
    var nothing := Happened(0, None);
    [nothing, nothing, nothing, Happened(0, Some(Fill(9, 9, 1, None, share, false, true, 0))), nothing,
     Happened(0, Some(Fill(5, 5, share, None, share, false, true, 0))), Happened(0, Some(Foreign(share - 1)))]
  }

  /** The failing family where another fill than the venue's went unclaimed: it is booked for nothing as
      other parties hold the rest of the position. */
  lemma OwnFillUnclaimed(share: nat, first: nat, second: nat)
    requires 1 < share <= second && first > 0
    ensures var shape, run := LateFill(first, second), OwnFillAndTwoForeign(share);
            && NothingUnseen(run) && Truthful(shape, run, {9}) && !ReportTrue(share, shape, run, {9}, {}, {})
  {
    var shape, run := LateFill(first, second), OwnFillAndTwoForeign(share);
    var claims := OneTaken(share, first, second);
    var claim := SecondTakes(SecondBook(0, first, second, claims), run[6].fill.value);
    ChargeOfLast(claims, claim, {9});
    assert BookAt(share, shape, run, 7).records[1].claims == claims + [claim];
    OwnFillTold(share, first, second);
    forall i
      ensures !TookAt(share, shape, run, {9}, i)
    {
      NobodyElseTook(share, first, second, i);
    }
    FalseReport(share, shape, run, {9}, 1);
  }

  lemma OneTaken(share: nat, first: nat, second: nat) returns (claims: seq<Claim>)
    requires 1 < share <= second && first > 0
    ensures BookAt(share, LateFill(first, second), OwnFillAndTwoForeign(share), 6)
            == SecondBook(0, first, second, claims)
    ensures CreditWith(claims, {9}, |claims|) == share && Charged(claims, {9}, |claims|, false) == 0
  {
    var shape, run := LateFill(first, second), OwnFillAndTwoForeign(share);
    assert BookAt(share, shape, run, 1) == Book(share, [Record(first, false, false, [])]);
    assert BookAt(share, shape, run, 2) == Book(share, [Record(first, true, false, [])]);
    assert BookAt(share, shape, run, 3) == Book(share, [Record(first, true, true, [])]);
    assert Claimer([Record(first, true, true, [])], 1) == None;
    assert BookAt(share, shape, run, 4) == BookAt(share, shape, run, 3);
    assert BookAt(share, shape, run, 5) == SecondBook(share, first, second, []);
    var claim := SecondTakes(SecondBook(share, first, second, []), run[5].fill.value);
    claims := [] + [claim];
    assert claims == [claim] && ClaimedBy([], 0) == 0;
    FirstCharge(claim, {9});
  }

  lemma OwnFillTold(share: nat, first: nat, second: nat)
    requires 1 < share <= second && first > 0
    ensures Truthful(LateFill(first, second), OwnFillAndTwoForeign(share), {9})
  {
    var shape, run := LateFill(first, second), OwnFillAndTwoForeign(share);
    QuietActs(share, shape, run, {9}, 3);
    OneAct(share, shape, run, {9}, 3);
    OneAct(share, shape, run, {9}, 4);
    OneAct(share, shape, run, {9}, 5);
    OneAct(share, shape, run, {9}, 6);
    QuietActs(share, shape, run, {9}, 1);
    QuietActs(share, shape, run, {9}, 2);
    assert Bare(shape, 0) == [] && Bare(shape, 1) == [Record(first, false, false, [])];
    assert Bare(shape, 2) == [Record(first, true, false, [])];
    assert Bare(shape, 3) == [Record(first, true, true, [])];
    TotalNext([Record(first, true, true, [])], Asked, 0);
    assert Sent(shape, 3) == first;
    forall n | 3 <= n <= 7
      ensures Sent(shape, n) >= 1
    {
      SentMonotone(shape, 3, n);
    }
  }

  lemma NobodyElseTook(share: nat, first: nat, second: nat, i: int)
    requires 1 < share <= second && first > 0
    ensures !TookAt(share, LateFill(first, second), OwnFillAndTwoForeign(share), {9}, i)
  {
    var shape, run := LateFill(first, second), OwnFillAndTwoForeign(share);
    QuietActs(share, shape, run, {9}, 3);
    OneAct(share, shape, run, {9}, 3);
    OneAct(share, shape, run, {9}, 4);
    OneAct(share, shape, run, {9}, 5);
    OneAct(share, shape, run, {9}, 6);
  }

  // --- the code ------------------------------------------------------------------------

  /** The plugin's closes of one position. */
  class Position {
    var share: int
    var closes: seq<Record>

    constructor (share: nat)
      ensures Held() == Book(share, [])
    {
      this.share, closes := share, [];
    }

    function Held(): Book
      reads this
    {
      Book(share, closes)
    }

    /** `_open_own_close`. */
    method OpenOwnClose(volume: nat)
      modifies this
      ensures Held() == Next(old(Held()), Send(volume), None)
    {
      closes := closes + [Record(volume, false, false, [])];
    }

    /** `_settle_own_close` of a close whose answer was lost. */
    method LoseAnswer(k: nat)
      modifies this`closes
      ensures Held() == Next(old(Held()), Lose(k), None)
    {
      if k < |closes| {
        closes := closes[k := closes[k].(answered := true)];
      }
    }

    /** The grace of a lost close ends. */
    method EndGrace(k: nat)
      modifies this`closes
      ensures Held() == Next(old(Held()), Expire(k), None)
    {
      if k < |closes| && closes[k].answered {
        closes := closes[k := closes[k].(expired := true)];
      }
    }

    /** `_unresolved_own_close`. */
    method UnresolvedOwnClose() returns (total: nat)
      ensures total == Unresolved(closes)
    {
      total := 0;
      for i := 0 to |closes|
        invariant total == Total(closes, Left, i)
      {
        total := total + Left(closes[i]);
      }
    }

    /** `_own_close_wildcard`. */
    method OwnCloseWildcard() returns (k: Option<nat>)
      ensures k == ClaimerOf(closes)
    {
      k := None;
      for i := 0 to |closes|
        invariant k == Claimer(closes, i)
      {
        if k.None? && !closes[i].expired {
          k := Some(i);
        }
      }
    }

    /** `_judge_close_fill` of a fill whose order is none of the bot's known ones: bounded by what is
        unresolved, booked, and claimed by the first close that may. */
    method JudgeCloseFill(fill: Fill)
      modifies this
      ensures Held() == TakeFill(old(Held()), fill)
    {
      var unresolved := UnresolvedOwnClose();
      var k := OwnCloseWildcard();
      var low := Max(0, share - unresolved);
      if k.None? {
        share := share - Min(fill.qty, Max(0, low - fill.venueAfter));
      } else {
        var claims := closes[k.value].claims;
        var claimed := 0;
        for i := 0 to |claims|
          invariant claimed == ClaimedBy(claims, i)
        {
          if !claims[i].venue {
            claimed := claimed + claims[i].booked;
          }
        }
        var booked := if fill.venue then Min(fill.qty, Max(0, low - fill.venueAfter))
                      else Min(Min(fill.qty, share), Max(0, closes[k.value].volume - claimed));
        var claim := Claim(fill.order, fill.deal, fill.qty, fill.executedMs, Some((low, share)), fill.venueAfter,
                           booked, fill.venue, booked > 0, fill.terminal);
        closes := closes[k.value := closes[k.value].(claims := claims + [claim])];
        share := share - booked;
      }
    }

    /** Any acts, with the fills that come. */
    method Run(shape: seq<Act>, run: seq<Happened>)
      requires |shape| == |run| && share >= 0 && closes == []
      modifies this
      ensures Held() == BookAt(old(share), shape, run, |shape|)
    {
      for i := 0 to |shape|
        invariant Held() == BookAt(old(share), shape, run, i)
      {
        match shape[i]
        case Send(volume) => OpenOwnClose(volume);
        case Lose(k) => LoseAnswer(k);
        case Expire(k) => EndGrace(k);
        case Slot =>
          if run[i].fill.Some? {
            JudgeCloseFill(run[i].fill.value);
          }
      }
    }
  }
}

/** Fills taken for closes whose answer was lost (`_foreign_claims_taken`,
`_judge_ambiguous_close_claims`): every way the orders that filled can have been the bot's is
weighed, and a report needs someone else to have taken the share in all of them.
*/
module AmbiguousClaims {
  import opened Common
  import opened CloseClaims
  import ShareReplay
  import Sorting

  predicate TakenAsOwn(claim: Claim, own: set<int>) {
    !claim.venue && claim.order in own
  }

  /** What a claim of another order took of a share of `share + credit`. */
  function TakeOf(claim: Claim, share: int, credit: int): int {
    Min(claim.fillQty, Max(0, Max(0, share + credit) - claim.venueAfter))
  }

  function LowTake(claim: Claim, credit: int): int {
    if claim.share.None? then claim.booked else TakeOf(claim, claim.share.value.0, credit)
  }

  function HighTake(claim: Claim, credit: int): int {
    if claim.share.None? then claim.booked else TakeOf(claim, claim.share.value.1, credit)
  }

  function CreditWith(claims: seq<Claim>, own: set<int>, n: nat): int
    requires n <= |claims|
  {
    if n == 0 then 0
    else
      var credit, claim := CreditWith(claims, own, n - 1), claims[n - 1];
      if TakenAsOwn(claim, own) then credit - OwnShortfall(claim, credit)
      else credit + claim.booked - LowTake(claim, credit)
  }

  /** What the orders outside `own` provably took (or, `high`, may have taken) with the first `n`
      claims. */
  function Charged(claims: seq<Claim>, own: set<int>, n: nat, high: bool): int
    requires n <= |claims|
  {
    if n == 0 then 0
    else
      var credit, claim := CreditWith(claims, own, n - 1), claims[n - 1];
      Charged(claims, own, n - 1, high)
      + if claim.venue || claim.order in own then 0
        else if high then HighTake(claim, credit)
        else LowTake(claim, credit)
  }

  method ForeignClaimsTaken(claims: seq<Claim>, own: set<int>) returns (low: int, high: int)
    ensures low == Charged(claims, own, |claims|, false)
    ensures high == Charged(claims, own, |claims|, true)
  {
    low, high := 0, 0;
    var credit := 0;
    for i := 0 to |claims|
      invariant credit == CreditWith(claims, own, i)
      invariant low == Charged(claims, own, i, false) && high == Charged(claims, own, i, true)
    {
      var claim := claims[i];
      if !claim.venue && claim.order in own {
        if claim.share.Some? {
          credit := credit - Max(0, Min(claim.fillQty, claim.share.value.1 + credit) - claim.booked);
        }
      } else {
        var lowTake, highTake := LowTake(claim, credit), HighTake(claim, credit);
        if !claim.venue {
          low, high := low + lowTake, high + highTake;
        }
        credit := credit + claim.booked - lowTake;
      }
    }
  }

  /** What judging again with the true order charges to the other parties' first `n` claims. */
  function RejudgedCharge(claims: seq<Claim>, order: int, n: nat): int
    requires n <= |claims|
  {
    if n == 0 then 0
    else RejudgedCharge(claims, order, n - 1)
         + if claims[n - 1].venue || claims[n - 1].order == order then 0
           else TakenAt(claims, Some(order), None, {}, n - 1)
  }

  predicate NoVenueClaimOf(claims: seq<Claim>, order: int) {
    forall i :: 0 <= i < |claims| && claims[i].venue ==> claims[i].order != order
  }

  /** With the close's true order this weighing is the judgement an answer naming it would give:
      for every list of claims, whatever its shares. */
  lemma {:induction false} WeighingIsRejudging(claims: seq<Claim>, order: int, n: nat)
    requires n <= |claims| && NoVenueClaimOf(claims, order)
    ensures CreditWith(claims, {order}, n) == Credit(claims, Some(order), None, {}, n)
    ensures Charged(claims, {order}, n, false) == RejudgedCharge(claims, order, n)
  {
    if n > 0 {
      WeighingIsRejudging(claims, order, n - 1);
    }
  }

  // --- the truth ---------------------------------------------------------------

  /** What other parties' fills really took of the share when the bot's orders are `own`. */
  function OthersReallyTook(f: Flight, own: set<int>, n: nat): int
    requires n <= |f.fills|
  {
    if n == 0 then 0
    else OthersReallyTook(f, own, n - 1)
         + if f.fills[n - 1].venue || f.fills[n - 1].order in own then 0 else f.ReallyTook(own, n - 1)
  }

  /** One claim, in numbers: where the share is taken for no more than it was, so it is afterwards, and
      no fill is charged more than it took. */
  lemma WeighedBelow(qty: nat, venueAfter: nat, booked: int, share: int, journal: int, credit: int)
    requires share >= 0 && booked <= qty && journal + credit <= share
    ensures journal - booked + credit - Max(0, Min(qty, journal + credit) - booked) <= share - Min(qty, share)
    ensures var charged, took := Min(qty, Max(0, Max(0, journal + credit) - venueAfter)),
                                 Min(qty, Max(0, share - venueAfter));
            0 <= charged <= took <= share && journal + credit - charged <= share - took
  {
  }

  /** Weighed with the bot's true orders: of a close sent with no less than the journal share, the
      credit is at most what the real share exceeds the journal share by and the charge at most what
      the others really took, whatever further own orders are among the fills; both are exact where the
      close was sent with equal shares.  Its claims have exact shares. */
  lemma {:induction false} TrueOrdersChargeTruth(f: Flight, own: set<int>, n: nat)
    requires n <= |f.fills| && f.start <= f.held && f.Exact()
    ensures f.RealShare(own, n) >= 0
    ensures CreditWith(f.Claims(), own, n) <= f.RealShare(own, n) - f.JournalShare(n)
    ensures Charged(f.Claims(), own, n, false) <= OthersReallyTook(f, own, n)
    ensures f.start == f.held ==>
              && CreditWith(f.Claims(), own, n) == f.RealShare(own, n) - f.JournalShare(n)
              && Charged(f.Claims(), own, n, false) == OthersReallyTook(f, own, n)
              && Charged(f.Claims(), own, n, true) == OthersReallyTook(f, own, n)
  {
    if n > 0 {
      var i := n - 1;
      TrueOrdersChargeTruth(f, own, i);
      WeighingStep(f, own, i, CreditWith(f.Claims(), own, i));
      assert f.Claims()[i] == f.ClaimAt(i);
      assert f.RealShare(own, n) == f.RealShare(own, i) - f.ReallyTook(own, i);
      assert f.JournalShare(n) == f.JournalShare(i) - f.Booked(i);
    }
  }

  lemma WeighingStep(f: Flight, own: set<int>, i: nat, credit: int)
    requires i < |f.fills| && f.RealShare(own, i) >= 0 && f.start <= f.held && f.Exact()
    requires credit <= f.RealShare(own, i) - f.JournalShare(i)
    requires f.start == f.held ==> credit == f.RealShare(own, i) - f.JournalShare(i)
    ensures f.ReallyTook(own, i) <= f.RealShare(own, i)
    ensures var claim, over := f.ClaimAt(i), f.RealShare(own, i) - f.JournalShare(i);
            if TakenAsOwn(claim, own)
            then var after := over - f.ReallyTook(own, i) + f.Booked(i);
                 && credit - OwnShortfall(claim, credit) <= after
                 && (f.start == f.held ==> credit - OwnShortfall(claim, credit) == after)
            else && LowTake(claim, credit) <= f.ReallyTook(own, i)
                 && credit - LowTake(claim, credit) <= over - f.ReallyTook(own, i)
                 && (f.start == f.held ==> LowTake(claim, credit) == f.ReallyTook(own, i))
  {
    SharesInStep(f, own, i);
    WeighedBelow(f.fills[i].qty, f.fills[i].venueAfter, f.Booked(i), f.RealShare(own, i), f.JournalShare(i), credit);
  }

  // --- every way the orders can have been the bot's ------------------------------

  function Prefixed(x: int, rest: seq<seq<int>>): seq<seq<int>> {
    seq(|rest|, i requires 0 <= i < |rest| => [x] + rest[i])
  }

  /** The `k`-element subsequences of `s`. */
  function Combinations(s: seq<int>, k: nat): seq<seq<int>> {
    if k == 0 then [[]]
    else if s == [] then []
    else Prefixed(s[0], Combinations(s[1..], k - 1)) + Combinations(s[1..], k)
  }

  lemma CombinationsSplit(s: seq<int>, k: nat, chosen: seq<int>)
    requires k > 0 && s != [] && chosen in Combinations(s, k)
    ensures chosen in Combinations(s[1..], k)
            || (chosen != [] && chosen[1..] in Combinations(s[1..], k - 1)
                && Elements(chosen) == Elements(chosen[1..]) + {s[0]})
  {
  }

  lemma {:induction false} SubsetStep(s: seq<int>, k: nat, chosen: set<int>, older: set<int>)
    requires Distinct(s) && s != [] && older <= Elements(s[1..])
    requires (chosen == older && |older| == k) || (chosen == older + {s[0]} && |older| + 1 == k)
    ensures chosen <= Elements(s) && |chosen| == k
  {
  }

  lemma {:induction false} CombinationsAreSubsets(s: seq<int>, k: nat, chosen: seq<int>)
    requires Distinct(s) && chosen in Combinations(s, k)
    ensures Elements(chosen) <= Elements(s) && |Elements(chosen)| == k
    decreases |s|
  {
    if k == 0 {
      assert Elements(chosen) == {};
    } else {
      CombinationsSplit(s, k, chosen);
      if chosen in Combinations(s[1..], k) {
        CombinationsAreSubsets(s[1..], k, chosen);
        SubsetStep(s, k, Elements(chosen), Elements(chosen));
      } else {
        CombinationsAreSubsets(s[1..], k - 1, chosen[1..]);
        SubsetStep(s, k, Elements(chosen), Elements(chosen[1..]));
      }
    }
  }

  lemma CombinationsExtend(s: seq<int>, k: nat, rest: seq<int>)
    requires s != [] && k > 0
    ensures rest in Combinations(s[1..], k - 1) ==> [s[0]] + rest in Combinations(s, k)
    ensures rest in Combinations(s[1..], k) ==> rest in Combinations(s, k)
    ensures Elements([s[0]] + rest) == {s[0]} + Elements(rest)
  {
    var with := Combinations(s[1..], k - 1);
    if rest in with {
      var i :| 0 <= i < |with| && with[i] == rest;
      assert Combinations(s, k)[i] == [s[0]] + rest;
    }
  }

  lemma {:induction false} CombinationsCoverSubsets(s: seq<int>, k: nat, c: set<int>) returns (chosen: seq<int>)
    requires Distinct(s) && c <= Elements(s) && |c| == k
    ensures chosen in Combinations(s, k) && Elements(chosen) == c
  {
    if k == 0 || s == [] {
      assert c == {};
      chosen := [];
    } else if s[0] in c {
      var rest := CombinationsCoverSubsets(s[1..], k - 1, c - {s[0]});
      chosen := [s[0]] + rest;
      CombinationsExtend(s, k, rest);
    } else {
      chosen := CombinationsCoverSubsets(s[1..], k, c);
      CombinationsExtend(s, k, chosen);
    }
  }

  /** What other parties took over all records when the orders of `own` were the bot's. */
  function TotalCharged(records: seq<seq<Claim>>, own: set<int>): int {
    if records == [] then 0
    else TotalCharged(records[..|records| - 1], own)
         + var claims := records[|records| - 1]; Charged(claims, own, |claims|, false)
  }

  method SumCharged(records: seq<seq<Claim>>, own: set<int>) returns (total: int)
    ensures total == TotalCharged(records, own)
  {
    total := 0;
    for i := 0 to |records|
      invariant total == TotalCharged(records[..i], own)
    {
      var low, high := ForeignClaimsTaken(records[i], own);
      assert records[..i + 1][..i] == records[..i];
      total := total + low;
    }
    assert records[..|records|] == records;
  }

  /** `c` is a way the undecided orders can have been the bot's closes of unknown outcome. */
  predicate PossibleOwn(records: seq<seq<Claim>>, maybe: set<int>, c: set<int>) {
    c <= maybe && |c| <= |records|
  }

  /** `taken` is no more than what others took in any possible way with fewer than `count` orders. */
  ghost predicate LeastBelow(records: seq<seq<Claim>>, own: set<int>, maybe: seq<int>, count: int, taken: int) {
    forall c :: PossibleOwn(records, Elements(maybe), c) && |c| < count ==> taken <= TotalCharged(records, own + c)
  }

  ghost predicate Attained(records: seq<seq<Claim>>, own: set<int>, maybe: seq<int>, taken: int) {
    exists c :: PossibleOwn(records, Elements(maybe), c) && taken == TotalCharged(records, own + c)
  }

  lemma AllWaysCovered(records: seq<seq<Claim>>, own: set<int>, maybe: seq<int>, count: nat, taken: int)
    requires Distinct(maybe) && LeastBelow(records, own, maybe, count, taken)
    requires BelowFirst(records, own, Combinations(maybe, count), |Combinations(maybe, count)|, taken)
    ensures LeastBelow(records, own, maybe, count + 1, taken)
  {
    forall c | PossibleOwn(records, Elements(maybe), c) && |c| == count
      ensures taken <= TotalCharged(records, own + c)
    {
      var chosen := CombinationsCoverSubsets(maybe, count, c);
    }
  }

  lemma LeastBelowLess(records: seq<seq<Claim>>, own: set<int>, maybe: seq<int>, count: int, taken: int, less: int)
    requires LeastBelow(records, own, maybe, count, taken) && less <= taken
    ensures LeastBelow(records, own, maybe, count, less)
  {
  }

  /** `taken` is no more than what others took in any of the first `n` ways. */
  predicate BelowFirst(records: seq<seq<Claim>>, own: set<int>, ways: seq<seq<int>>, n: nat, taken: int)
    requires n <= |ways|
  {
    forall i :: 0 <= i < n ==> taken <= TotalCharged(records, own + Elements(ways[i]))
  }

  method OneWay(
    records: seq<seq<Claim>>, own: set<int>, maybe: seq<int>, count: nat, ways: seq<seq<int>>, i: nat, sofar: int)
    returns (taken: int)
    requires Distinct(maybe) && count <= |records| && ways == Combinations(maybe, count) && i < |ways|
    requires Attained(records, own, maybe, sofar) && BelowFirst(records, own, ways, i, sofar)
    ensures taken <= sofar && Attained(records, own, maybe, taken) && BelowFirst(records, own, ways, i + 1, taken)
  {
    CombinationsAreSubsets(maybe, count, ways[i]);
    assert PossibleOwn(records, Elements(maybe), Elements(ways[i]));
    var take := SumCharged(records, own + Elements(ways[i]));
    taken := Min(sofar, take);
  }

  method LeastOfSize(records: seq<seq<Claim>>, own: set<int>, maybe: seq<int>, count: nat, sofar: int)
    returns (taken: int)
    requires Distinct(maybe) && count <= |records|
    requires LeastBelow(records, own, maybe, count, sofar) && Attained(records, own, maybe, sofar)
    ensures LeastBelow(records, own, maybe, count + 1, taken) && Attained(records, own, maybe, taken)
  {
    taken := sofar;
    var ways := Combinations(maybe, count);
    for i := 0 to |ways|
      invariant taken <= sofar && Attained(records, own, maybe, taken)
      invariant BelowFirst(records, own, ways, i, taken)
    {
      taken := OneWay(records, own, maybe, count, ways, i, taken);
    }
    LeastBelowLess(records, own, maybe, count, sofar, taken);
    AllWaysCovered(records, own, maybe, count, taken);
  }

  /** The least the other parties took over every possible way. */
  method LeastTaken(records: seq<seq<Claim>>, own: set<int>, maybe: seq<int>) returns (taken: int)
    requires Distinct(maybe)
    ensures forall c :: PossibleOwn(records, Elements(maybe), c) ==> taken <= TotalCharged(records, own + c)
    ensures exists c :: PossibleOwn(records, Elements(maybe), c) && taken == TotalCharged(records, own + c)
  {
    var most := Min(|records|, |maybe|);
    taken := SumCharged(records, own);
    assert PossibleOwn(records, Elements(maybe), {}) && own + {} == own;
    for count := 0 to most + 1
      invariant LeastBelow(records, own, maybe, count, taken) && Attained(records, own, maybe, taken)
    {
      taken := LeastOfSize(records, own, maybe, count, taken);
    }
    LeastOfAll(records, own, maybe, most + 1, taken);
  }

  lemma LeastOfAll(records: seq<seq<Claim>>, own: set<int>, maybe: seq<int>, count: nat, taken: int)
    requires LeastBelow(records, own, maybe, count, taken) && count > Min(|records|, |maybe|)
    ensures forall c :: PossibleOwn(records, Elements(maybe), c) ==> taken <= TotalCharged(records, own + c)
  {
    forall c | PossibleOwn(records, Elements(maybe), c)
      ensures taken <= TotalCharged(records, own + c)
    {
      SubsetNoLarger(c, maybe);
    }
  }

  lemma {:induction false} SubsetNoLarger(c: set<int>, s: seq<int>)
    requires c <= Elements(s)
    ensures |c| <= |s|
  {
    if s == [] {
      assert c == {};
    } else {
      assert Elements(s) == Elements(s[1..]) + {s[0]};
      SubsetNoLarger(c - {s[0]}, s[1..]);
    }
  }

  // --- the judgement --------------------------------------------------------------

  datatype Outcome = Cleared | AlreadyReported | Deferred | Reported | AuditStands

  /** The orders of the claims that are not the venue's. */
  function ClaimedIn(records: seq<seq<Claim>>): set<int> {
    set i, c | 0 <= i < |records| && c in records[i] && !c.venue :: c.order
  }

  /** The orders that a lookup gives one of `kinds`. */
  function OfKind(
    orders: set<int>, kindOf: int -> Option<ShareReplay.Origin>, kinds: set<ShareReplay.Origin>): set<int> {
    set o | o in orders && kindOf(o).Some? && kindOf(o).value in kinds
  }

  function KnownOwn(records: seq<seq<Claim>>, kindOf: int -> Option<ShareReplay.Origin>): set<int> {
    OfKind(ClaimedIn(records), kindOf, {ShareReplay.Own})
  }

  function MaybeOwn(records: seq<seq<Claim>>, kindOf: int -> Option<ShareReplay.Origin>): set<int> {
    OfKind(ClaimedIn(records), kindOf, {ShareReplay.Unattributed, ShareReplay.Unknown})
  }

  /** Some record claims a fill of the order that is not the venue's. */
  ghost predicate Claimed(records: seq<seq<Claim>>, order: int) {
    exists i, c :: 0 <= i < |records| && c in records[i] && !c.venue && c.order == order
  }

  ghost predicate AllLookedUp(records: seq<seq<Claim>>, kindOf: int -> Option<ShareReplay.Origin>) {
    forall o :: Claimed(records, o) ==> kindOf(o).Some?
  }

  /** The lookups allow that of the claimed orders exactly those in `own` were the bot's: every one known to be
      its own, none known to be the venue's or another client's, and of the others as many as there are
      closes of unknown outcome. */
  ghost predicate Allowed(records: seq<seq<Claim>>, kindOf: int -> Option<ShareReplay.Origin>, own: set<int>) {
    && (forall o :: Claimed(records, o) && kindOf(o) == Some(ShareReplay.Own) ==> o in own)
    && (forall o :: Claimed(records, o) && o in own ==>
          kindOf(o) != Some(ShareReplay.Venue) && kindOf(o) != Some(ShareReplay.External))
    && |set o | o in own && Claimed(records, o) && kindOf(o) != Some(ShareReplay.Own)| <= |records|
  }

  /** Only which of the claimed orders are the bot's matters. */
  lemma {:induction false} ChargedByClaimed(claims: seq<Claim>, own: set<int>, other: set<int>, n: nat)
    requires n <= |claims|
    requires forall c :: c in claims && !c.venue ==> (c.order in own <==> c.order in other)
    ensures CreditWith(claims, own, n) == CreditWith(claims, other, n)
    ensures Charged(claims, own, n, false) == Charged(claims, other, n, false)
  {
    if n > 0 {
      ChargedByClaimed(claims, own, other, n - 1);
    }
  }

  lemma {:induction false} TotalByClaimed(records: seq<seq<Claim>>, own: set<int>, other: set<int>)
    requires forall o :: Claimed(records, o) ==> (o in own <==> o in other)
    ensures TotalCharged(records, own) == TotalCharged(records, other)
  {
    if records != [] {
      var n := |records| - 1;
      forall o | Claimed(records[..n], o)
        ensures Claimed(records, o)
      {
        var i, c :| 0 <= i < n && c in records[..n][i] && !c.venue && c.order == o;
        assert c in records[i];
      }
      TotalByClaimed(records[..n], own, other);
      forall c | c in records[n] && !c.venue
        ensures c.order in own <==> c.order in other
      {
        assert Claimed(records, c.order);
      }
      ChargedByClaimed(records[n], own, other, |records[n]|);
    }
  }

  lemma ClaimedInIs(records: seq<seq<Claim>>, o: int)
    ensures o in ClaimedIn(records) <==> Claimed(records, o)
  {
  }

  lemma KindsOfClaimed(records: seq<seq<Claim>>, kindOf: int -> Option<ShareReplay.Origin>, o: int)
    requires Claimed(records, o) && kindOf(o).Some?
    ensures o in KnownOwn(records, kindOf) <==> kindOf(o) == Some(ShareReplay.Own)
    ensures o in MaybeOwn(records, kindOf) <==>
              kindOf(o).value !in {ShareReplay.Own, ShareReplay.Venue, ShareReplay.External}
  {
    ClaimedInIs(records, o);
    match kindOf(o).value
    case Own =>
    case Venue =>
    case External =>
    case Unattributed =>
    case Unknown =>
  }

  lemma AllowedIsWay(records: seq<seq<Claim>>, kindOf: int -> Option<ShareReplay.Origin>, own: set<int>)
    returns (c: set<int>)
    requires AllLookedUp(records, kindOf) && Allowed(records, kindOf, own)
    ensures PossibleOwn(records, MaybeOwn(records, kindOf), c)
    ensures TotalCharged(records, own) == TotalCharged(records, KnownOwn(records, kindOf) + c)
  {
    c := set o | o in own && Claimed(records, o) && kindOf(o) != Some(ShareReplay.Own);
    forall o | Claimed(records, o)
      ensures o in KnownOwn(records, kindOf) <==> kindOf(o) == Some(ShareReplay.Own)
      ensures o in c ==> o in MaybeOwn(records, kindOf)
    {
      KindsOfClaimed(records, kindOf, o);
    }
    TotalByClaimed(records, own, KnownOwn(records, kindOf) + c);
  }

  lemma WayIsAllowed(records: seq<seq<Claim>>, kindOf: int -> Option<ShareReplay.Origin>, c: set<int>)
    requires AllLookedUp(records, kindOf) && PossibleOwn(records, MaybeOwn(records, kindOf), c)
    ensures Allowed(records, kindOf, KnownOwn(records, kindOf) + c)
  {
    var own := KnownOwn(records, kindOf) + c;
    forall o | Claimed(records, o)
      ensures kindOf(o) == Some(ShareReplay.Own) ==> o in own
      ensures o in own ==> kindOf(o) != Some(ShareReplay.Venue) && kindOf(o) != Some(ShareReplay.External)
    {
      ClaimedInIs(records, o);
    }
    var some := set o | o in own && Claimed(records, o) && kindOf(o) != Some(ShareReplay.Own);
    SmallerSet(some, c);
  }

  /** The ways weighed are those the lookups allow. */
  lemma WaysAreAllowed(records: seq<seq<Claim>>, kindOf: int -> Option<ShareReplay.Origin>)
    requires AllLookedUp(records, kindOf)
    ensures ChargedInAllWays(records, KnownOwn(records, kindOf), MaybeOwn(records, kindOf)) <==>
              forall own :: Allowed(records, kindOf, own) ==> TotalCharged(records, own) > 0
  {
    if ChargedInAllWays(records, KnownOwn(records, kindOf), MaybeOwn(records, kindOf)) {
      forall own | Allowed(records, kindOf, own)
        ensures TotalCharged(records, own) > 0
      {
        var c := AllowedIsWay(records, kindOf, own);
      }
    }
    forall c | PossibleOwn(records, MaybeOwn(records, kindOf), c)
      ensures Allowed(records, kindOf, KnownOwn(records, kindOf) + c)
    {
      WayIsAllowed(records, kindOf, c);
    }
  }

  lemma {:induction false} SmallerSet(some: set<int>, all: set<int>)
    requires some <= all
    ensures |some| <= |all|
  {
    assert all == some + (all - some);
  }

  /** `_judge_ambiguous_close_claims` for one position: on a netting account what is waiting is cleared
      unjudged; otherwise nothing is judged twice, or before every claimed order is looked up (`kindOf`
      gives none for a failed lookup); then a report is queued exactly when other parties are charged
      whichever of the claimed orders the lookups allow to have been the bot's. */
  method JudgeAmbiguous(
    records: seq<seq<Claim>>, hedged: bool, reported: bool, kindOf: int -> Option<ShareReplay.Origin>)
    returns (outcome: Outcome)
    ensures outcome == Cleared <==> !hedged
    ensures outcome == AlreadyReported <==> hedged && reported
    ensures outcome == Deferred <==> hedged && !reported && !AllLookedUp(records, kindOf)
    ensures outcome == Reported <==>
              && hedged && !reported && AllLookedUp(records, kindOf)
              && forall own :: Allowed(records, kindOf, own) ==> TotalCharged(records, own) > 0
  {
    forall o
      ensures o in ClaimedIn(records) <==> Claimed(records, o)
    {
      ClaimedInIs(records, o);
    }
    if !hedged {
      return Cleared;
    }
    if reported {
      return AlreadyReported;
    }
    var claimed := Sorting.Sort(ClaimedIn(records), (a: int, b: int) => a < b);
    var failed, own, maybe := LookUp(ClaimedIn(records), claimed, kindOf);
    if failed {
      return Deferred;
    }
    assert own == KnownOwn(records, kindOf) && Elements(maybe) == MaybeOwn(records, kindOf);
    WaysAreAllowed(records, kindOf);
    var taken := LeastTaken(records, own, maybe);
    outcome := if taken > 0 then Reported else AuditStands;
  }

  /** The kinds of the claimed orders, up to the first lookup that fails. */
  method LookUp(all: set<int>, claimed: seq<int>, kindOf: int -> Option<ShareReplay.Origin>)
    returns (failed: bool, own: set<int>, maybe: seq<int>)
    requires Distinct(claimed) && forall o :: o in claimed <==> o in all
    ensures failed <==> exists o :: o in all && kindOf(o) == None
    ensures !failed ==> Distinct(maybe) && own == OfKind(all, kindOf, {ShareReplay.Own})
    ensures !failed ==> Elements(maybe) == OfKind(all, kindOf, {ShareReplay.Unattributed, ShareReplay.Unknown})
  {
    own, maybe := {}, [];
    for i := 0 to |claimed|
      invariant Distinct(maybe) && forall o :: o in maybe ==> o in claimed[..i]
      invariant forall o :: o in claimed[..i] ==> kindOf(o).Some?
      invariant forall o :: o in own <==> o in claimed[..i] && kindOf(o).value in {ShareReplay.Own}
      invariant forall o :: o in maybe <==>
                  o in claimed[..i] && kindOf(o).value in {ShareReplay.Unattributed, ShareReplay.Unknown}
    {
      var order := claimed[i];
      assert order in claimed && claimed[..i + 1] == claimed[..i] + [order];
      assert order !in claimed[..i];
      var kind := kindOf(order);
      if kind.None? {
        return true, own, maybe;
      }
      if kind.value == ShareReplay.Own {
        own := own + {order};
      } else if kind.value in {ShareReplay.Unattributed, ShareReplay.Unknown} {
        maybe := maybe + [order];
      }
    }
    assert claimed[..|claimed|] == claimed;
    failed := false;
    assert forall o :: o in own <==> o in OfKind(all, kindOf, {ShareReplay.Own});
    assert forall o :: o in Elements(maybe) <==>
                         o in OfKind(all, kindOf, {ShareReplay.Unattributed, ShareReplay.Unknown});
  }

  /** The claims of closes of one position whose answers were lost. */
  function AllClaims(flights: seq<Flight>): seq<seq<Claim>> {
    seq(|flights|, i requires 0 <= i < |flights| => flights[i].Claims())
  }

  function AllOthersTook(flights: seq<Flight>, own: set<int>): int {
    if flights == [] then 0
    else AllOthersTook(flights[..|flights| - 1], own)
         + var f := flights[|flights| - 1]; OthersReallyTook(f, own, |f.fills|)
  }

  /** Every close was sent with no less than the journal share. */
  predicate NoneBehind(flights: seq<Flight>) {
    forall k :: 0 <= k < |flights| ==> flights[k].start <= flights[k].held
  }

  /** No close was unresolved at any claim, so that all claims have exact shares. */
  predicate AllExact(flights: seq<Flight>) {
    forall k :: 0 <= k < |flights| ==> flights[k].Exact()
  }

  predicate AllEqual(flights: seq<Flight>) {
    forall k :: 0 <= k < |flights| ==> flights[k].start == flights[k].held
  }

  /** Over all closes sent with no less than the journal share the others are charged no more than they
      really took, and exactly that where the shares were equal. */
  lemma {:induction false} TotalWithinTruth(flights: seq<Flight>, own: set<int>)
    requires NoneBehind(flights) && AllExact(flights)
    ensures TotalCharged(AllClaims(flights), own) <= AllOthersTook(flights, own)
    ensures AllEqual(flights) ==> TotalCharged(AllClaims(flights), own) == AllOthersTook(flights, own)
  {
    if flights != [] {
      var n := |flights| - 1;
      TotalWithinTruth(flights[..n], own);
      LastCharge(flights, own);
      TrueOrdersChargeTruth(flights[n], own, |flights[n].fills|);
    }
  }

  /** Every possible way charges the others: what a report needs. */
  ghost predicate ChargedInAllWays(records: seq<seq<Claim>>, own: set<int>, maybe: set<int>) {
    forall c :: PossibleOwn(records, maybe, c) ==> TotalCharged(records, own + c) > 0
  }

  ghost predicate SomeoneElseTook(flights: seq<Flight>, own: set<int>) {
    exists k, i :: 0 <= k < |flights| && 0 <= i < |flights[k].fills| && TookFromBot(flights[k], own, i)
  }

  /** Where a report is queued, another party's fill really took part of the share: for any number of
      closes of unknown outcome, sent with no less than the journal share and nothing unresolved at any
      claim, any further orders known to be the bot's, and whichever of the undecided ones the closes'
      really were. */
  lemma ReportMeansSomeoneElseTook(flights: seq<Flight>, own: set<int>, maybe: set<int>, truth: set<int>)
    requires NoneBehind(flights) && AllExact(flights) && PossibleOwn(AllClaims(flights), maybe, truth)
    requires ChargedInAllWays(AllClaims(flights), own, maybe)
    ensures SomeoneElseTook(flights, own + truth)
  {
    TotalWithinTruth(flights, own + truth);
    SomeFlightLost(flights, own + truth);
  }

  lemma {:induction false} OthersNeverGive(f: Flight, own: set<int>, n: nat, i: nat)
    requires n <= |f.fills| && f.start <= f.held && f.Exact()
    ensures OthersReallyTook(f, own, n) >= 0
    ensures i < n && TookFromBot(f, own, i) ==> OthersReallyTook(f, own, n) > 0
  {
    if n > 0 {
      OthersNeverGive(f, own, n - 1, i);
      SharesInStep(f, own, n - 1);
    }
  }

  lemma {:induction false} AllNeverGive(flights: seq<Flight>, own: set<int>, k: nat, i: nat)
    requires NoneBehind(flights) && AllExact(flights)
    ensures AllOthersTook(flights, own) >= 0
    ensures k < |flights| && i < |flights[k].fills| && TookFromBot(flights[k], own, i) ==>
              AllOthersTook(flights, own) > 0
  {
    if flights != [] {
      var n := |flights| - 1;
      AllNeverGive(flights[..n], own, k, i);
      OthersNeverGive(flights[n], own, |flights[n].fills|, i);
    }
  }

  /** Other parties took something in all exactly if one of their fills did. */
  lemma SomeoneTookIff(flights: seq<Flight>, own: set<int>)
    requires NoneBehind(flights) && AllExact(flights)
    ensures AllOthersTook(flights, own) > 0 <==> SomeoneElseTook(flights, own)
  {
    if AllOthersTook(flights, own) > 0 {
      SomeFlightLost(flights, own);
    }
    if SomeoneElseTook(flights, own) {
      var k, i :| 0 <= k < |flights| && 0 <= i < |flights[k].fills| && TookFromBot(flights[k], own, i);
      AllNeverGive(flights, own, k, i);
    }
  }

  /** Judging the claims of real closes, nothing unseen or unresolved.  A report means that another party's
      fill took part of the share, whichever claimed orders the lookups allow to have been the bot's; and it
      is queued whenever that is so, if the closes were sent with equal shares. */
  method JudgeFlights(
    records: seq<seq<Claim>>, hedged: bool, reported: bool, kindOf: int -> Option<ShareReplay.Origin>,
    ghost flights: seq<Flight>)
    returns (outcome: Outcome)
    requires records == AllClaims(flights) && NoneBehind(flights) && AllExact(flights)
    ensures outcome == Reported ==>
              forall own :: Allowed(records, kindOf, own) ==> SomeoneElseTook(flights, own)
    ensures AllEqual(flights) && hedged && !reported && AllLookedUp(records, kindOf) ==>
              (outcome == Reported <==>
               forall own :: Allowed(records, kindOf, own) ==> SomeoneElseTook(flights, own))
  {
    forall own
      ensures TotalCharged(records, own) <= AllOthersTook(flights, own)
      ensures AllEqual(flights) ==> TotalCharged(records, own) == AllOthersTook(flights, own)
      ensures AllOthersTook(flights, own) > 0 <==> SomeoneElseTook(flights, own)
    {
      TotalWithinTruth(flights, own);
      SomeoneTookIff(flights, own);
    }
    outcome := JudgeAmbiguous(records, hedged, reported, kindOf);
  }

  /** The closes were sent with these journal and real shares. */
  predicate SentWith(flights: seq<Flight>, shares: seq<(nat, nat)>) {
    |flights| == |shares| && forall k :: 0 <= k < |flights| ==> (flights[k].start, flights[k].held) == shares[k]
  }

  /** A report about these closes is true, whichever orders were the bot's. */
  ghost predicate ReportsTrue(flights: seq<Flight>, own: set<int>, maybe: set<int>, truth: set<int>) {
    PossibleOwn(AllClaims(flights), maybe, truth) && ChargedInAllWays(AllClaims(flights), own, maybe) ==>
      SomeoneElseTook(flights, own + truth)
  }

  /** Whatever fills closes sent with these shares took, nothing unresolved. */
  ghost predicate ReportsSound(shares: seq<(nat, nat)>) {
    forall flights, own, maybe, truth ::
      SentWith(flights, shares) && AllExact(flights) ==> ReportsTrue(flights, own, maybe, truth)
  }

  predicate SharesCovered(shares: seq<(nat, nat)>) {
    forall k :: 0 <= k < |shares| ==> shares[k].0 <= shares[k].1
  }

  lemma SentCovered(flights: seq<Flight>, shares: seq<(nat, nat)>)
    requires SentWith(flights, shares) && SharesCovered(shares)
    ensures NoneBehind(flights)
  {
    forall k: nat | k < |flights|
      ensures flights[k].start <= flights[k].held
    {
      assert (flights[k].start, flights[k].held) == shares[k];
    }
  }

  /** Reports are true for all fills taken with nothing unresolved exactly if every close was sent with
      no less than the journal share. */
  lemma ReportsSoundIff(shares: seq<(nat, nat)>)
    ensures ReportsSound(shares) <==> SharesCovered(shares)
  {
    if SharesCovered(shares) {
      forall flights, own, maybe, truth | SentWith(flights, shares) && AllExact(flights)
        ensures ReportsTrue(flights, own, maybe, truth)
      {
        SentCovered(flights, shares);
        if PossibleOwn(AllClaims(flights), maybe, truth) && ChargedInAllWays(AllClaims(flights), own, maybe) {
          ReportMeansSomeoneElseTook(flights, own, maybe, truth);
        }
      }
    } else {
      var k :| 0 <= k < |shares| && shares[k].0 > shares[k].1;
      var flights := seq(|shares|, i requires 0 <= i < |shares| =>
        Flight(shares[i].0, shares[i].1, None, if i == k then [ForeignClose(shares[k].1)] else []));
      FalselyCharged(flights[k], {});
      ChargedInAll(flights, {}, {}, k);
      assert !SomeoneElseTook(flights, {} + {});
      assert PossibleOwn(AllClaims(flights), {}, {});
      assert SentWith(flights, shares) && AllExact(flights) && !ReportsTrue(flights, {}, {}, {});
    }
  }

  /** Another party closes one unit of its own, leaving `held`. */
  function ForeignClose(held: nat): Fill {
    Fill(3, 3, 1, None, held, false, true, 0)
  }

  /** Of a close sent with less than the journal share such a fill is charged, and took nothing. */
  lemma FalselyCharged(f: Flight, own: set<int>)
    requires f.start > f.held && f.volume == None && f.fills == [ForeignClose(f.held)] && 3 !in own
    ensures Charged(f.Claims(), own, 1, false) == 1 && f.ReallyTook(own, 0) == 0
  {
    assert f.Claims()[0] == f.ClaimAt(0) && f.JournalShare(0) == f.start;
    assert CreditWith(f.Claims(), own, 0) == Charged(f.Claims(), own, 0, false) == 0;
  }

  /** Claims of known shares charge nothing negative. */
  lemma {:induction false} ChargedNotNegative(claims: seq<Claim>, own: set<int>, n: nat)
    requires n <= |claims| && forall i :: 0 <= i < |claims| ==> claims[i].share.Some?
    ensures Charged(claims, own, n, false) >= 0
  {
    if n > 0 {
      ChargedNotNegative(claims, own, n - 1);
    }
  }

  predicate SharesKnown(records: seq<seq<Claim>>) {
    forall k, i :: 0 <= k < |records| && 0 <= i < |records[k]| ==> records[k][i].share.Some?
  }

  /** The records charge something once one of them, record `k`, does. */
  lemma {:induction false} ChargedFrom(records: seq<seq<Claim>>, own: set<int>, some: bool, k: nat)
    requires SharesKnown(records)
    requires some ==> k < |records| && Charged(records[k], own, |records[k]|, false) > 0
    ensures TotalCharged(records, own) >= if some then 1 else 0
  {
    if records != [] {
      var n := |records| - 1;
      ChargedFrom(records[..n], own, some && k < n, k);
      ChargedNotNegative(records[n], own, |records[n]|);
    }
  }

  /** What the last close adds. */
  lemma LastCharge(flights: seq<Flight>, own: set<int>)
    requires flights != []
    ensures var n := |flights| - 1;
            TotalCharged(AllClaims(flights), own)
            == TotalCharged(AllClaims(flights[..n]), own)
               + Charged(flights[n].Claims(), own, |flights[n].fills|, false)
  {
    assert AllClaims(flights)[..|flights| - 1] == AllClaims(flights[..|flights| - 1]);
  }

  /** Close `k` took another party's fill, which it charges whatever the undecided orders were. */
  lemma ChargedInAll(flights: seq<Flight>, own: set<int>, maybe: set<int>, k: nat)
    requires k < |flights| && 3 !in own && 3 !in maybe
    requires flights[k].start > flights[k].held && flights[k].volume == None
    requires flights[k].fills == [ForeignClose(flights[k].held)]
    ensures ChargedInAllWays(AllClaims(flights), own, maybe)
  {
    forall c | PossibleOwn(AllClaims(flights), maybe, c)
      ensures TotalCharged(AllClaims(flights), own + c) > 0
    {
      FalselyCharged(flights[k], own + c);
      ChargedFrom(AllClaims(flights), own + c, true, k);
    }
  }

  // --- one close after another ------------------------------------------------------

  /** What the real share exceeds the journal share by after the close's fills. */
  function OverJournal(f: Flight, own: set<int>): int {
    f.RealShare(own, |f.fills|) - f.JournalShare(|f.fills|)
  }

  /** The closes were sent one after another, and nothing between them moved the two shares apart: a
      close whose answer was lost delivers its events as booked. */
  predicate Chained(flights: seq<Flight>, own: set<int>) {
    forall k :: 0 < k < |flights| ==> flights[k].held - flights[k].start == OverJournal(flights[k - 1], own)
  }

  /** What the code takes for unresolved of the close once its answer was lost. */
  function LeftUnresolved(f: Flight): nat {
    UnresolvedOf(true, f.volume, false, 0, f.Claims())
  }

  /** The close's claims used up the volume it asked for, and not the journal share. */
  predicate UsedUp(f: Flight) {
    f.volume.Some? && f.Claimed(|f.fills|) == f.volume.value && f.JournalShare(|f.fills|) > 0
  }

  lemma {:induction false} ChainKeepsUp(flights: seq<Flight>, own: set<int>, n: nat)
    requires n < |flights| && Chained(flights, own) && flights[0].start <= flights[0].held
    requires AllExact(flights) && forall k :: 0 <= k < |flights| - 1 ==> !UsedUp(flights[k])
    ensures flights[n].start <= flights[n].held
  {
    if n > 0 {
      ChainKeepsUp(flights, own, n - 1);
      SharesInStep(flights[n - 1], own, |flights[n - 1].fills|);
    }
  }

  /** A report about closes sent one after another, nothing unresolved at their claims, is true unless an
      earlier one's claims used up the volume it asked for. */
  lemma ChainedReportIsTrue(flights: seq<Flight>, own: set<int>, maybe: set<int>, truth: set<int>)
    requires Chained(flights, own + truth) && (flights != [] ==> flights[0].start <= flights[0].held)
    requires AllExact(flights) && forall k :: 0 <= k < |flights| - 1 ==> !UsedUp(flights[k])
    ensures ReportsTrue(flights, own, maybe, truth)
  {
    forall k: nat | k < |flights|
      ensures flights[k].start <= flights[k].held
    {
      ChainKeepsUp(flights, own + truth, k);
    }
    if PossibleOwn(AllClaims(flights), maybe, truth) && ChargedInAllWays(AllClaims(flights), own, maybe) {
      ReportMeansSomeoneElseTook(flights, own, maybe, truth);
    }
  }

  /** Reports about two closes of which the first asked for `volume` of `start`, the share the journal
      and the bot had, are true whatever fills they took, if the first left nothing unresolved. */
  ghost predicate TwoClosesSound(start: nat, volume: Option<nat>) {
    forall flights: seq<Flight>, own, maybe, truth ::
      && |flights| == 2 && flights[0].start == flights[0].held == start && flights[0].volume == volume
      && Chained(flights, own + truth) && AllExact(flights) && LeftUnresolved(flights[0]) == 0
      ==> ReportsTrue(flights, own, maybe, truth)
  }

  /** They are exactly if the first asked for the whole share. */
  lemma TwoClosesSoundIff(start: nat, volume: Option<nat>)
    requires volume != Some(0)
    ensures TwoClosesSound(start, volume) <==> volume.None? || volume.value >= start
  {
    if volume.None? || volume.value >= start {
      forall flights: seq<Flight>, own, maybe, truth |
          && |flights| == 2 && flights[0].start == flights[0].held == start && flights[0].volume == volume
          && Chained(flights, own + truth) && AllExact(flights) && LeftUnresolved(flights[0]) == 0
        ensures ReportsTrue(flights, own, maybe, truth)
      {
        JournalShareSpends(flights[0], |flights[0].fills|);
        ChainedReportIsTrue(flights, own, maybe, truth);
      }
    } else {
      LostPartialThenForeignClose(start, volume.value);
      var flights := [LostPartial(start, volume.value), NextLost(start, volume.value)];
      assert Chained(flights, {} + {2}) && AllExact(flights) && !ReportsTrue(flights, {}, {1, 2}, {2});
    }
  }

  /** A close of `volume` of `start` takes another party's fill (order 1), which closes `volume` of that
      party's own and leaves `start`; a stop-out takes one unit; then the close itself fills (order 2).
      Its answer is lost. */
  function LostPartial(start: nat, volume: nat): Flight
    requires 0 < volume < start
  {
    Flight(start, start, Some(volume),
           [Fill(1, 1, volume, None, start, false, true, 0),
            Fill(4, 4, 1, None, start - 1, true, true, 0),
            Fill(2, 2, volume, None, start - 1 - volume, false, true, 0)])
  }

  /** The next close whose answer is lost, which takes another party's fill of its own exposure. */
  function NextLost(start: nat, volume: nat): Flight
    requires 0 < volume < start
  {
    Flight(start - volume, start - volume - 1, None, [ForeignClose(start - volume - 1)])
  }

  /** The failing family: a report is queued, and nobody else took any of the share. */
  lemma LostPartialThenForeignClose(start: nat, volume: nat)
    requires 0 < volume < start
    ensures var flights := [LostPartial(start, volume), NextLost(start, volume)];
            && Chained(flights, {} + {2}) && AllExact(flights) && LeftUnresolved(flights[0]) == 0
            && PossibleOwn(AllClaims(flights), {1, 2}, {2})
            && ChargedInAllWays(AllClaims(flights), {}, {1, 2}) && !SomeoneElseTook(flights, {} + {2})
  {
    var flights := [LostPartial(start, volume), NextLost(start, volume)];
    var own: set<int> := {} + {2};
    LostPartialShares(start, volume, own);
    LostPartialTakes(start, volume);
    ChargedInAll(flights, {}, {1, 2}, 1);
    FalselyCharged(flights[1], own);
  }

  lemma LostPartialShares(start: nat, volume: nat, own: set<int>)
    requires 0 < volume < start && own == {2}
    ensures var f := LostPartial(start, volume);
            && f.RealShare(own, 3) == start - 1 - volume && f.JournalShare(3) == start - volume
            && f.ReallyTook(own, 0) == 0
  {
    var f := LostPartial(start, volume);
    assert f.RealShare(own, 1) == start && f.JournalShare(1) == start - volume && f.Claimed(1) == volume;
    assert f.RealShare(own, 2) == start - 1 && f.JournalShare(2) == start - volume && f.Claimed(2) == volume;
  }

  lemma LostPartialTakes(start: nat, volume: nat)
    requires 0 < volume < start
    ensures LeftUnresolved(LostPartial(start, volume)) == 0
  {
    var claims := LostPartial(start, volume).Claims();
    assert claims[..2][..1] == claims[..1] && claims[..3] == claims;
    assert TakenVolume(claims[..1]) >= volume && TakenVolume(claims[..2]) >= volume;
  }

  /** Fill `i` is another party's close that really took part of the share. */
  predicate TookFromBot(f: Flight, own: set<int>, i: int)
    requires 0 <= i < |f.fills|
  {
    !f.fills[i].venue && f.fills[i].order !in own && f.ReallyTook(own, i) > 0
  }

  lemma {:induction false} SomeFlightLost(flights: seq<Flight>, own: set<int>)
    requires AllOthersTook(flights, own) > 0
    ensures exists k, i :: 0 <= k < |flights| && 0 <= i < |flights[k].fills| && TookFromBot(flights[k], own, i)
  {
    var n := |flights| - 1;
    if AllOthersTook(flights[..n], own) > 0 {
      SomeFlightLost(flights[..n], own);
      var k, i :| 0 <= k < n && 0 <= i < |flights[..n][k].fills| && TookFromBot(flights[..n][k], own, i);
      assert TookFromBot(flights[k], own, i);
    } else {
      var i := SomeoneTook(flights[n], own, |flights[n].fills|);
      assert TookFromBot(flights[n], own, i);
    }
  }

  lemma {:induction false} SomeoneTook(f: Flight, own: set<int>, n: nat) returns (i: nat)
    requires n <= |f.fills| && OthersReallyTook(f, own, n) > 0
    ensures i < n && TookFromBot(f, own, i)
  {
    if OthersReallyTook(f, own, n - 1) > 0 {
      i := SomeoneTook(f, own, n - 1);
    } else {
      i := n - 1;
    }
  }
}

/** What of an answered own close may have executed unseen (`_OwnClose.unresolved`).

The record of a close counts the fills it took while unanswered, the fill its answer carried, later
events of its order and deals found in the history, each deal once.  What is left of the volume it
asked for is proved to be exactly the most that can have executed without the bot seeing it, as long
as nothing says that the close is complete.
*/
module OwnCloses {
  import opened Common
  import opened CloseClaims
  import Exposure
  import ShareBounds

  /** An execution of the close's order. */
  datatype Deal = Deal(id: int, volume: nat)

  predicate DistinctDeals(deals: seq<Deal>) {
    forall i, j :: 0 <= i < j < |deals| ==> deals[i].id != deals[j].id
  }

  function Total(deals: seq<Deal>): nat {
    if deals == [] then 0 else Total(deals[..|deals| - 1]) + deals[|deals| - 1].volume
  }

  /** The volume of the deals with these ids. */
  function VolumeOf(deals: seq<Deal>, ids: set<int>): nat {
    if deals == [] then 0
    else VolumeOf(deals[..|deals| - 1], ids) + if deals[|deals| - 1].id in ids then deals[|deals| - 1].volume else 0
  }

  lemma {:induction false} VolumeWithin(deals: seq<Deal>, ids: set<int>)
    ensures VolumeOf(deals, ids) <= Total(deals)
  {
    if deals != [] {
      VolumeWithin(deals[..|deals| - 1], ids);
    }
  }

  lemma {:induction false} VolumeOfUnion(deals: seq<Deal>, some: set<int>, others: set<int>)
    requires some !! others
    ensures VolumeOf(deals, some + others) == VolumeOf(deals, some) + VolumeOf(deals, others)
  {
    if deals != [] {
      VolumeOfUnion(deals[..|deals| - 1], some, others);
    }
  }

  lemma {:induction false} VolumeOfOne(deals: seq<Deal>, deal: Deal)
    requires DistinctDeals(deals)
    ensures VolumeOf(deals, {deal.id}) == if deal in deals then deal.volume else VolumeOf(deals, {deal.id})
    ensures (forall d :: d in deals ==> d.id != deal.id) ==> VolumeOf(deals, {deal.id}) == 0
  {
    if deals != [] {
      var n := |deals| - 1;
      VolumeOfOne(deals[..n], deal);
      assert deals == deals[..n] + [deals[n]];
    }
  }

  /** One more deal seen. */
  lemma SeeOne(deals: seq<Deal>, ids: set<int>, deal: Deal)
    requires DistinctDeals(deals) && deal in deals && deal.id !in ids
    ensures VolumeOf(deals, ids + {deal.id}) == VolumeOf(deals, ids) + deal.volume
  {
    VolumeOfUnion(deals, ids, {deal.id});
    VolumeOfOne(deals, deal);
  }

  // --- what a close counts ---------------------------------------------------------

  function DealsOf(claims: seq<Claim>): set<int> {
    set c | c in claims :: c.deal
  }

  /** Each claim of `order` is another execution of it. */
  predicate ClaimsTell(claims: seq<Claim>, order: int, deals: seq<Deal>) {
    && (forall i, j :: 0 <= i < j < |claims| ==> claims[i].deal != claims[j].deal)
    && forall c :: c in claims && c.order == order ==> !c.venue && Deal(c.deal, c.fillQty) in deals
  }

  lemma {:induction false} OwnClaimsTell(claims: seq<Claim>, order: int, deals: seq<Deal>)
    requires ClaimsTell(claims, order, deals)
    ensures var own := OwnClaims(claims, Some(order));
            && ClaimsTell(own, order, deals) && (forall c :: c in own ==> c in claims && c.order == order)
  {
    if claims != [] {
      var n := |claims| - 1;
      OwnClaimsTell(claims[..n], order, deals);
      assert claims == claims[..n] + [claims[n]];
      forall c | c in claims[..n]
        ensures c.deal != claims[n].deal
      {
      }
    }
  }

  lemma {:induction false} ClaimsVolume(claims: seq<Claim>, order: int, deals: seq<Deal>)
    requires DistinctDeals(deals) && ClaimsTell(claims, order, deals) && forall c :: c in claims ==> c.order == order
    ensures TakenVolume(claims) == VolumeOf(deals, DealsOf(claims))
  {
    if claims == [] {
      assert DealsOf(claims) == {};
      NothingOf(deals);
    } else {
      var n, last := |claims| - 1, claims[|claims| - 1];
      ClaimsVolume(claims[..n], order, deals);
      assert claims == claims[..n] + [last];
      assert DealsOf(claims) == DealsOf(claims[..n]) + {last.deal};
      SeeOne(deals, DealsOf(claims[..n]), Deal(last.deal, last.fillQty));
    }
  }

  lemma {:induction false} NothingOf(deals: seq<Deal>)
    ensures VolumeOf(deals, {}) == 0
  {
    if deals != [] {
      NothingOf(deals[..|deals| - 1]);
    }
  }

  /** The record of an answered close of `order` counts executions of it, each once. */
  predicate Accounts(executed: nat, counted: set<int>, claims: seq<Claim>, order: int, deals: seq<Deal>) {
    && ClaimsTell(claims, order, deals) && (forall c :: c in claims ==> c.order == order)
    && counted !! DealsOf(claims) && executed == VolumeOf(deals, counted)
  }

  /** What executed without the record counting it. */
  function Unseen(counted: set<int>, claims: seq<Claim>, deals: seq<Deal>): int {
    Total(deals) - VolumeOf(deals, counted + DealsOf(claims))
  }

  /** What executed unseen is within the unresolved volume if and only if the requested volume is known
      and nothing says the close is complete, or nothing executed unseen; and then the unresolved
      volume is just that and the rest of the request. */
  lemma UnseenIsUnresolvedIff(
    volume: Option<nat>, complete: bool, executed: nat, counted: set<int>, claims: seq<Claim>, order: int,
    deals: seq<Deal>)
    requires DistinctDeals(deals) && Accounts(executed, counted, claims, order, deals)
    requires volume.Some? ==> Total(deals) <= volume.value
    ensures var unresolved := UnresolvedOf(true, volume, complete, executed, claims);
            var unseen := Unseen(counted, claims, deals);
            && (0 <= unseen <= unresolved <==> (volume.Some? && !complete) || unseen == 0)
            && (volume.Some? && !complete ==> unresolved == unseen + volume.value - Total(deals))
  {
    ClaimsVolume(claims, order, deals);
    VolumeOfUnion(deals, counted, DealsOf(claims));
    VolumeWithin(deals, counted + DealsOf(claims));
  }

  /** The failing case: a final fill that was seen hides a partial one that was lost. */
  lemma FinalFillHidesLostPartial(volume: nat, lost: nat)
    requires 0 < lost < volume
    ensures var deals := [Deal(1, lost), Deal(2, volume - lost)];
            && Accounts(volume - lost, {2}, [], 1, deals) && Total(deals) == volume
            && Unseen({2}, [], deals) == lost && UnresolvedOf(true, Some(volume), true, volume - lost, []) == 0
  {
    var deals := [Deal(1, lost), Deal(2, volume - lost)];
    assert deals[..1] == [Deal(1, lost)];
    OneDeal(Deal(1, lost), {2});
    assert {2} + DealsOf([]) == {2};
  }

  lemma OneDeal(deal: Deal, ids: set<int>)
    ensures Total([deal]) == deal.volume && VolumeOf([deal], ids) == if deal.id in ids then deal.volume else 0
  {
    assert [deal][..0] == [];
  }

  /** With `total` executed in all and `seen` of it known, the rest is covered. */
  predicate Covered(total: int, seen: int, unresolved: int) {
    total - seen <= unresolved
  }

  /** Whatever executed in all, of up to `volume`. */
  ghost predicate CoversAll(volume: int, seen: int, unresolved: int) {
    forall total: int :: seen <= total <= volume ==> Covered(total, seen, unresolved)
  }

  /** A close whose answer was lost keeps every claim as its own.  Where `foreign` units of its claims
      were really other parties', the unresolved volume covers whatever may have executed unseen if and
      only if there were none of those, or nothing of the request is left. */
  lemma AnswerLostCoversIff(volume: nat, executed: nat, claims: seq<Claim>, foreign: nat)
    requires foreign <= TakenVolume(claims) <= volume + foreign - executed
    ensures var seen, unresolved := executed + TakenVolume(claims) - foreign,
                                    UnresolvedOf(true, Some(volume), false, executed, claims);
            CoversAll(volume, seen, unresolved) <==> foreign == 0 || seen == volume
  {
    CoversIff(volume, executed + TakenVolume(claims) - foreign,
              UnresolvedOf(true, Some(volume), false, executed, claims));
  }

  lemma CoversIff(volume: int, seen: int, unresolved: int)
    requires seen <= volume
    ensures CoversAll(volume, seen, unresolved) <==> volume - seen <= unresolved
  {
    assert Covered(volume, seen, unresolved) <==> volume - seen <= unresolved;
  }

  // --- the life of a close -----------------------------------------------------------

  /** What reaches the record once its order is named: an event of its order, a deal of it found in the
      history, or a cancellation. */
  datatype Later = OwnFill(deal: Deal, terminal: bool) | Recovered(deal: Deal) | Cancellation(order: int)

  /** The stream delivers each deal once: no fill is taken twice, and those of `order` are its own. */
  predicate FillsTell(fills: seq<Fill>, order: int, deals: seq<Deal>) {
    && (forall i, j :: 0 <= i < j < |fills| ==> fills[i].deal != fills[j].deal)
    && forall f :: f in fills && f.order == order ==> !f.venue && Deal(f.deal, f.qty) in deals
  }

  predicate LaterTell(later: seq<Later>, fills: seq<Fill>, deals: seq<Deal>) {
    forall e :: e in later && !e.Cancellation? ==> e.deal in deals && forall f :: f in fills ==> f.deal != e.deal.id
  }

  predicate AnswerTells(answer: Option<AnswerFill>, deals: seq<Deal>) {
    answer.Some? ==> Deal(answer.value.deal, answer.value.closed) in deals
  }

  /** Counting a deal, seen before or not, keeps the account. */
  lemma CountKeepsAccount(
    executed: nat, counted: set<int>, claims: seq<Claim>, order: int, deals: seq<Deal>, deal: Deal)
    requires DistinctDeals(deals) && Accounts(executed, counted, claims, order, deals)
    requires deal in deals && deal.id !in DealsOf(claims)
    ensures Accounts(executed + if deal.id in counted then 0 else deal.volume, counted + {deal.id}, claims, order,
                     deals)
  {
    if deal.id in counted {
      assert counted + {deal.id} == counted;
    } else {
      SeeOne(deals, counted, deal);
    }
  }

  /** The claims the fills became. */
  predicate ClaimsFrom(claims: seq<Claim>, fills: seq<Fill>) {
    && (forall i, j :: 0 <= i < j < |claims| ==> claims[i].deal != claims[j].deal)
    && forall c :: c in claims ==> exists f :: f in fills && IsClaimOf(c, f)
  }

  predicate IsClaimOf(c: Claim, f: Fill) {
    c.deal == f.deal && c.order == f.order && c.fillQty == f.qty && c.venue == f.venue
  }

  lemma OneMoreClaim(claims: seq<Claim>, fills: seq<Fill>, claim: Claim, fill: Fill)
    requires ClaimsFrom(claims, fills) && IsClaimOf(claim, fill)
    requires forall f :: f in fills ==> f.deal != fill.deal
    ensures ClaimsFrom(claims, fills + [fill]) && ClaimsFrom(claims + [claim], fills + [fill])
  {
    forall c | c in claims
      ensures c.deal != claim.deal
    {
      var f :| f in fills && IsClaimOf(c, f);
    }
    forall c | c in claims + [claim]
      ensures exists f :: f in fills + [fill] && IsClaimOf(c, f)
    {
      if c in claims {
        var f :| f in fills && IsClaimOf(c, f);
        assert f in fills + [fill];
      } else {
        assert fill in fills + [fill];
      }
    }
  }

  lemma ClaimsFromTell(claims: seq<Claim>, fills: seq<Fill>, order: int, deals: seq<Deal>)
    requires ClaimsFrom(claims, fills) && FillsTell(fills, order, deals)
    ensures ClaimsTell(claims, order, deals)
  {
  }

  /** The account the answer opens. */
  lemma AnswerOpensAccount(claims: seq<Claim>, order: int, deals: seq<Deal>, answer: Option<AnswerFill>)
    requires DistinctDeals(deals) && ClaimsTell(claims, order, deals) && AnswerTells(answer, deals)
    ensures var own := OwnClaims(claims, Some(order));
            if NewDeal(own, answer) then Accounts(answer.value.closed, {answer.value.deal}, own, order, deals)
            else Accounts(0, {}, own, order, deals)
  {
    OwnClaimsTell(claims, order, deals);
    NothingOf(deals);
    if NewDeal(OwnClaims(claims, Some(order)), answer) {
      SeeOne(deals, {}, Deal(answer.value.deal, answer.value.closed));
      assert {} + {answer.value.deal} == {answer.value.deal};
    }
  }

  /** The fills taken while the close is unanswered. */
  method TakeFills(book: CloseBook, fills: seq<Fill>, ghost order: int, ghost deals: seq<Deal>)
    requires book.Valid() && !book.answered && book.claims == [] && FillsTell(fills, order, deals)
    modifies book`claims, book`flight, book`tracked, book`gone, book.journal
    ensures book.Valid() && ClaimsFrom(book.claims, fills)
  {
    for i := 0 to |fills|
      invariant book.Valid() && !book.answered && ClaimsFrom(book.claims, fills[..i])
    {
      ghost var share, claimed := ShareOf(book.journal.rows), ClaimedBy(book.claims, |book.claims|);
      if !fills[i].venue || share.Some? {
        OneMoreClaim(book.claims, fills[..i], ClaimOf(fills[i], share, book.volume, claimed), fills[i]);
      }
      assert fills[..i + 1] == fills[..i] + [fills[i]];
      book.TakeFill(fills[i]);
    }
    assert fills[..|fills|] == fills;
  }

  /** What reaches the record afterwards. */
  method TakeLater(
    book: CloseBook, later: seq<Later>, ghost fills: seq<Fill>, ghost order: int, ghost deals: seq<Deal>)
    requires book.Valid() && book.answered && DistinctDeals(deals) && LaterTell(later, fills, deals)
    requires Accounts(book.executed, book.executedDeals, book.claims, order, deals)
    requires forall c :: c in book.claims ==> exists f :: f in fills && IsClaimOf(c, f)
    modifies book`executed, book`executedDeals, book`complete
    ensures book.Valid() && Accounts(book.executed, book.executedDeals, book.claims, order, deals)
  {
    for i := 0 to |later|
      invariant book.Valid() && Accounts(book.executed, book.executedDeals, book.claims, order, deals)
    {
      assert later[i] in later;
      match later[i]
      case Cancellation(cancelled) => book.Cancelled(cancelled);
      case OwnFill(deal, terminal) =>
        CountKeepsAccount(book.executed, book.executedDeals, book.claims, order, deals, deal);
        book.TakeOwnFill(Some(deal.id), deal.volume, terminal);
      case Recovered(deal) =>
        CountKeepsAccount(book.executed, book.executedDeals, book.claims, order, deals, deal);
        book.TakeOwnFill(Some(deal.id), deal.volume, false);
    }
  }

  /** The whole life of a close whose answer names its order.  `deals` is what the order really executed,
      at most what it asked for.  Whatever reached the bot, what executed unseen is within the unresolved
      volume exactly where the request is known and the close not complete, or nothing was lost. */
  method Live(
    journal: Exposure.Journal, volume: Option<nat>, hedged: bool, ghost held: nat, fills: seq<Fill>, order: int,
    answer: Option<AnswerFill>, others: set<int>, final: bool, later: seq<Later>, ghost deals: seq<Deal>)
    returns (book: CloseBook)
    requires DistinctDeals(deals) && (volume.Some? ==> Total(deals) <= volume.value)
    requires FillsTell(fills, order, deals) && AnswerTells(answer, deals) && LaterTell(later, fills, deals)
    modifies journal
    ensures book.answered && book.orderId == Some(order) && book.volume == volume
    ensures Accounts(book.executed, book.executedDeals, book.claims, order, deals)
    ensures var unseen := Unseen(book.executedDeals, book.claims, deals);
            && (0 <= unseen <= book.Unresolved() <==> (volume.Some? && !book.complete) || unseen == 0)
            && (volume.Some? && !book.complete ==> book.Unresolved() == unseen + volume.value - Total(deals))
  {
    book := new CloseBook(journal, volume, hedged, held);
    TakeFills(book, fills, order, deals);
    ghost var taken := book.claims;
    ClaimsFromTell(taken, fills, order, deals);
    AnswerOpensAccount(taken, order, deals, answer);
    OwnClaimsTell(taken, order, deals);
    book.Settle(Some(order), answer, others, final);
    TakeLater(book, later, fills, order, deals);
    UnseenIsUnresolvedIff(volume, book.complete, book.executed, book.executedDeals, book.claims, order, deals);
  }

  // --- all closes of a position ---------------------------------------------------------

  function TotalUnresolved(history: seq<CloseBook>): nat
    reads history
  {
    if history == [] then 0
    else TotalUnresolved(history[..|history| - 1]) + history[|history| - 1].Unresolved()
  }

  /** `_unresolved_own_close`: what the closes of a position may have executed unseen, the volume the
      share bounds take off the net. */
  method UnresolvedOwnClose(history: seq<CloseBook>) returns (total: nat)
    ensures total == TotalUnresolved(history)
  {
    total := 0;
    for i := 0 to |history|
      invariant total == TotalUnresolved(history[..i])
    {
      assert history[..i + 1][..i] == history[..i];
      total := total + history[i].Unresolved();
    }
    assert history[..|history|] == history;
  }

  /** The record is that of an answered close of `order` that really executed `deals`, as `Live` leaves it. */
  ghost predicate LivedAs(book: CloseBook, order: int, deals: seq<Deal>)
    reads book
  {
    && book.answered && DistinctDeals(deals) && (book.volume.Some? ==> Total(deals) <= book.volume.value)
    && Accounts(book.executed, book.executedDeals, book.claims, order, deals)
  }

  /** What of it executed unseen, and whether the record covers that. */
  function UnseenBy(book: CloseBook, deals: seq<Deal>): int
    reads book
  {
    Unseen(book.executedDeals, book.claims, deals)
  }

  predicate Covering(book: CloseBook, deals: seq<Deal>)
    reads book
  {
    (book.volume.Some? && !book.complete) || UnseenBy(book, deals) == 0
  }

  function AllUnseen(history: seq<CloseBook>, deals: seq<seq<Deal>>): seq<int>
    requires |deals| == |history|
    reads history
  {
    seq(|history|, k requires 0 <= k < |history| reads history => UnseenBy(history[k], deals[k]))
  }

  /** Of real records, the unseen executions are among those the share bounds allow for, as long as each
      request is known and the close not complete, or nothing of it was lost: then the bounds bracket the
      real share, where no unseen close can overshoot. */
  lemma RecordsBoundShare(
    history: seq<CloseBook>, orders: seq<int>, deals: seq<seq<Deal>>, t: ShareBounds.Truth, e: ShareBounds.Evidence)
    requires |orders| == |deals| == |history| && ShareBounds.FillsAgree(t, e)
    requires forall k :: 0 <= k < |history| ==> LivedAs(history[k], orders[k], deals[k])
    requires e.unresolved == TotalUnresolved(history)
    requires ShareBounds.Unseen(t.closes, |t.closes|) == Sum(AllUnseen(history, deals))
    requires forall k :: 0 <= k < |history| ==> Covering(history[k], deals[k])
    ensures ShareBounds.Consistent(t, e)
    ensures ShareBounds.NeverOvershoots(t.fills, e) ==>
              ShareBounds.BoundsHold(e.Share(), ShareBounds.RealNet(t))
  {
    forall k | 0 <= k < |history|
      ensures AllUnseen(history, deals)[k] <= history[k].Unresolved()
    {
      var book := history[k];
      assert LivedAs(book, orders[k], deals[k]) && Covering(book, deals[k]);
      UnseenIsUnresolvedIff(book.volume, book.complete, book.executed, book.executedDeals, book.claims, orders[k],
                            deals[k]);
    }
    UnseenInAll(history, AllUnseen(history, deals));
    ShareBounds.ShareBoundsBracketTruth(t, e);
  }

  /** Where each close's unseen volume is within its unresolved one, all of them together are: what
      the share bounds ask of the closes of a possible truth. */
  lemma {:induction false} UnseenInAll(history: seq<CloseBook>, unseen: seq<int>)
    requires |unseen| == |history| && forall k :: 0 <= k < |history| ==> unseen[k] <= history[k].Unresolved()
    ensures Sum(unseen) <= TotalUnresolved(history)
  {
    if history != [] {
      UnseenInAll(history[..|history| - 1], unseen[..|history| - 1]);
    }
  }
}

/** Reading one window of trendbars from a server that caps its answers
(`_fetch_trendbar_window`).

A bar is named by its opening (ms).  `served` is the set of bars the venue has for a window,
the bar containing the window's start included.
*/
module TrendbarDrain {
  import opened Common

  /** One answer: the openings in any order, and whether the server capped it. */
  datatype Reply = Reply(bars: seq<int>, hasMore: bool)

  /** Which end of a window a capped answer keeps, if the server always keeps the same. */
  datatype Caps = EitherEnd | NewestEnd | OldestEnd

  ghost predicate KeepsNewest(served: set<int>, upper: int, bars: seq<int>) {
    forall a, b :: a in bars && b in served && a <= b <= upper ==> b in bars
  }

  ghost predicate KeepsOldest(served: set<int>, upper: int, bars: seq<int>) {
    forall a, b :: a in bars && b in served && b <= a && b <= upper ==> b in bars
  }

  /** An uncapped answer is everything up to `upper`; a capped one keeps one of its ends. */
  ghost predicate Honest(served: set<int>, upper: int, reply: Reply) {
    && (forall b :: b in reply.bars ==> b in served && b <= upper)
    && (!reply.hasMore ==> forall b :: b in served && b <= upper ==> b in reply.bars)
    && (reply.hasMore ==> KeepsNewest(served, upper, reply.bars) || KeepsOldest(served, upper, reply.bars))
  }

  /** A server that always caps at the same end, leaves something out when it says so, and returns
      at least two bars then. */
  ghost predicate Consistent(caps: Caps, served: set<int>, upper: int, reply: Reply) {
    reply.hasMore && caps != EitherEnd ==>
      && (if caps == NewestEnd then KeepsNewest(served, upper, reply.bars) else KeepsOldest(served, upper, reply.bars))
      && (exists b :: b in served && b <= upper && b !in reply.bars)
      && (exists a, b :: a in reply.bars && b in reply.bars && a < b)
  }

  /** At most one bar opens at or before the window's start: the one containing it. */
  ghost predicate OneContaining(served: set<int>, from: int) {
    forall a, b :: a in served && b in served && a <= from && b <= from ==> a == b
  }

  /** One request's bars folded into those held. */
  method FoldIn(held: set<int>, upper: int, answer: seq<int>) returns (bars: set<int>, oldest: int, added: bool)
    ensures bars == held + set b | b in answer
    ensures oldest <= upper && (forall b :: b in answer ==> oldest <= b) && (oldest == upper || oldest in answer)
    ensures added <==> exists b :: b in answer && b !in held
  {
    bars, oldest, added := held, upper, false;
    for i := 0 to |answer|
      invariant bars == held + set b | b in answer[..i]
      invariant oldest <= upper && (forall b :: b in answer[..i] ==> oldest <= b)
      invariant oldest == upper || oldest in answer[..i]
      invariant added <==> exists b :: b in answer[..i] && b !in held
    {
      var opening := answer[i];
      assert answer[..i + 1] == answer[..i] + [opening];
      oldest := Min(oldest, opening);
      if opening !in bars {
        bars := bars + {opening};
        added := true;
      }
    }
    assert answer[..|answer|] == answer;
  }

  /** What the drain holds while it runs: everything at or above `upper`, or everything at or below
      it, so that an answer without anything new tells the two apart. */
  ghost predicate HoldsAnEnd(served: set<int>, to: int, upper: int, bars: set<int>) {
    || (forall b :: b in served && upper <= b <= to ==> b in bars)
    || (forall b :: b in served && b <= upper && b <= to ==> b in bars)
  }

  /** `_fetch_trendbar_window`: `covered` means that every bar of the window was read, even if the
      server chooses per request which end to cap; a server that always keeps the newest bars is
      always covered, and one that keeps the oldest leaves no hole below what it returned. */
  method FetchWindow(from: int, to: int, ghost served: set<int>, server: (nat, int) -> Reply, ghost caps: Caps)
    returns (bars: set<int>, covered: bool)
    requires forall k: nat, upper ::
               Honest(served, upper, server(k, upper)) && Consistent(caps, served, upper, server(k, upper))
    ensures forall b :: b in bars ==> b in served && b <= to
    ensures covered ==> forall b :: b in served && b <= to ==> b in bars
    ensures from < to && !server(0, to).hasMore ==> covered
    ensures from < to ==> Elements(server(0, to).bars) <= bars
    ensures caps == NewestEnd && from < to && OneContaining(served, from) ==> covered
    ensures caps == OldestEnd && from < to ==> forall a, b :: a in bars && b in served && b <= a ==> b in bars
    ensures caps == OldestEnd && from < to && !covered ==> exists a, b :: a in bars && b in bars && a < b
  {
    bars := {};
    var upper := to;
    var narrowed := false;
    var k := 0;
    while upper > from
      invariant upper <= to && (narrowed <==> bars != {}) && (narrowed ==> upper in bars)
      invariant (!narrowed ==> upper == to) && (k == 0 <==> !narrowed) && (k > 0 ==> server(0, to).hasMore)
      invariant forall b :: b in bars ==> b in served && b <= to && (narrowed ==> upper <= b)
      invariant k > 0 ==> Elements(server(0, to).bars) <= bars
      invariant narrowed ==> HoldsAnEnd(served, to, upper, bars)
      invariant narrowed && caps == NewestEnd ==>
                  (forall b :: b in served && upper <= b <= to ==> b in bars)
                  && exists b :: b in served && b < upper && b !in bars
      invariant narrowed && caps == OldestEnd ==>
                  (forall b :: b in served && b <= to ==> upper <= b)
                  && (forall a, b :: a in bars && b in served && b <= a ==> b in bars)
                  && exists a, b :: a in bars && b in bars && a < b
      invariant OneContaining(served, from) && caps == NewestEnd && from < to ==> upper > from
      invariant caps == OldestEnd && from < to && !narrowed ==> upper > from
      decreases served - bars
    {
      ghost var top := upper;
      var reply := server(k, upper);
      assert Honest(served, upper, reply) && Consistent(caps, served, upper, reply);
      var held, oldest, added := FoldIn(bars, upper, reply.bars);
      ghost var was := bars;
      k, bars := k + 1, held;
      assert forall b :: b in reply.bars || b in was <==> b in bars;
      if added {
        ghost var news :| news in reply.bars && news !in was;
        assert news in served - was && news !in served - bars;
      }
      if reply.hasMore && caps != EitherEnd {
        ghost var missing :| missing in served && missing <= top && missing !in reply.bars;
        ghost var a, b :| a in reply.bars && b in reply.bars && a < b;
        assert a in bars && b in bars && oldest <= a < b <= top;
        assert caps == NewestEnd ==> missing < oldest < top && oldest in served && missing !in bars;
      }
      if narrowed && !added {
        return bars, false;
      }
      if !reply.hasMore {
        return bars, true;
      }
      if !added || oldest <= from {
        return bars, false;
      }
      upper := oldest;
      narrowed := true;
    }
    covered := false;
  }
}

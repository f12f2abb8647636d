/** The historical download (`download_ohlcv`): windows are read one after another, and the cursor
resumes just past the newest bar that was fully read.

`venue` is the set of all bar openings the venue has; a window from `lo` is served its bars and at
most the one containing `lo`.
*/
module Download {
  import opened Common
  import opened TrendbarDrain
  import Sorting

  /** What the venue serves for a window from `lo`: its own bars, and at most the containing one. */
  ghost predicate ServesWindow(venue: set<int>, served: set<int>, lo: int) {
    && (forall b :: b in served ==> b in venue)
    && (forall b :: b in venue && lo <= b ==> b in served)
    && OneContaining(served, lo)
  }

  /** An honest server that always caps at the same end, keeping at least two bars. */
  ghost predicate ConsistentServer(
    venue: set<int>, served: int -> set<int>, server: (int, nat, int) -> Reply, caps: Caps) {
    && caps != EitherEnd
    && (forall lo :: ServesWindow(venue, served(lo), lo))
    && forall lo, k: nat, upper ::
         Honest(served(lo), upper, server(lo, k, upper)) && Consistent(caps, served(lo), upper, server(lo, k, upper))
  }

  /** Exactly the venue's bars of `[from, upTo)` are saved, in strictly increasing order. */
  ghost predicate Saved(venue: set<int>, from: int, upTo: int, saved: seq<int>) {
    Increasing(saved) && forall b :: b in saved <==> b in venue && from <= b < upTo
  }

  /** Saving a page of bars that continues what is saved. */
  method SavePage(from: int, to: int, bars: seq<int>, saved: seq<int>, lastSaved: Option<int>, ghost upTo: int)
    returns (all: seq<int>, last: Option<int>)
    requires Increasing(bars) && Increasing(saved)
    requires forall b :: b in saved ==> from <= b < upTo
    requires forall b :: b in bars ==> upTo <= b
    requires lastSaved == if saved == [] then None else Some(saved[|saved| - 1])
    ensures Increasing(all) && last == if all == [] then None else Some(all[|all| - 1])
    ensures forall b :: b in all <==> b in saved || (b in bars && from <= b < to)
  {
    all, last := saved, lastSaved;
    for i := 0 to |bars|
      invariant Increasing(all) && last == if all == [] then None else Some(all[|all| - 1])
      invariant forall b :: b in all <==> b in saved || (b in bars[..i] && from <= b < to)
    {
      var opening := bars[i];
      assert bars[..i + 1] == bars[..i] + [opening];
      assert opening in bars;
      assert forall b :: b in bars[..i] ==> b < opening;
      if from <= opening < to && (last.None? || opening > last.value) {
        all, last := all + [opening], Some(opening);
      } else {
        assert last.Some? && from <= opening < to ==> last.value in all;
      }
    }
    assert bars[..|bars|] == bars;
  }

  /** One window: what is saved after it, and where the next one starts. */
  method ReadWindow(
    from: int, to: int, cursor: int, end: int, ghost venue: set<int>, ghost served: set<int>,
    server: (nat, int) -> Reply, ghost caps: Caps, saved: seq<int>, lastSaved: Option<int>)
    returns (all: seq<int>, last: Option<int>, next: int)
    requires from <= cursor < end <= to && caps != EitherEnd && ServesWindow(venue, served, cursor)
    requires forall k: nat, upper ::
               Honest(served, upper, server(k, upper)) && Consistent(caps, served, upper, server(k, upper))
    requires Saved(venue, from, cursor, saved)
    requires lastSaved == if saved == [] then None else Some(saved[|saved| - 1])
    ensures next > cursor && Saved(venue, from, Min(next, to), all)
    ensures last == if all == [] then None else Some(all[|all| - 1])
  {
    var held, covered := FetchWindow(cursor, end, served, server, caps);
    var opens := Sorting.Sort(set b | b in held && b >= cursor, (a: int, b: int) => a < b);
    if opens == [] {
      NothingInWindow(venue, served, held, opens, caps, covered, cursor, end);
      return saved, lastSaved, end;
    }
    var newest := opens[|opens| - 1];
    assert newest in opens;
    var resume := newest + 1;
    ghost var page := opens;
    if !covered && |opens| > 1 {
      resume := newest;
      opens := opens[..|opens| - 1];
    }
    next := Max(resume, cursor + 1);
    PageReachesNext(venue, served, held, page, opens, caps, covered, cursor, end, next);
    all, last := SavePage(from, to, opens, saved, lastSaved, cursor);
  }

  /** An empty page means that the venue has nothing in the window. */
  lemma NothingInWindow(
    venue: set<int>, served: set<int>, held: set<int>, opens: seq<int>, caps: Caps, covered: bool, cursor: int,
    end: int)
    requires caps != EitherEnd && ServesWindow(venue, served, cursor) && opens == []
    requires forall b :: b in opens <==> b in held && b >= cursor
    requires forall b :: b in held ==> b in served
    requires covered ==> forall b :: b in served && b <= end ==> b in held
    requires caps == NewestEnd ==> covered
    requires caps == OldestEnd && !covered ==> exists a, b :: a in held && b in held && a < b
    ensures forall b :: b in venue && cursor <= b ==> end < b
  {
  }

  /** The page, less a newest bar handed back to the next window, is exactly the venue's bars from
      the cursor to where the next window starts. */
  lemma PageReachesNext(
    venue: set<int>, served: set<int>, held: set<int>, page: seq<int>, opens: seq<int>, caps: Caps, covered: bool,
    cursor: int, end: int, next: int)
    requires caps != EitherEnd && ServesWindow(venue, served, cursor) && page != [] && Increasing(page)
    requires forall b :: b in page <==> b in held && b >= cursor
    requires forall b :: b in held ==> b in served && b <= end
    requires covered ==> forall b :: b in served && b <= end ==> b in held
    requires caps == NewestEnd ==> covered
    requires caps == OldestEnd ==> forall a, b :: a in held && b in served && b <= a ==> b in held
    requires var newest := page[|page| - 1];
             if !covered && |page| > 1 then opens == page[..|page| - 1] && next == Max(newest, cursor + 1)
             else opens == page && next == Max(newest + 1, cursor + 1)
    ensures Increasing(opens) && next > cursor
    ensures forall b :: b in opens <==> b in venue && cursor <= b < next
  {
    var newest := page[|page| - 1];
    assert newest in page && page == page[..|page| - 1] + [newest];
    assert forall b :: b in page ==> b <= newest;
    if !covered && |page| > 1 {
      assert page[0] in page && page[0] < newest;
    }
    forall b | b in venue && cursor <= b <= newest
      ensures b in page
    {
      assert b in served;
    }
  }

  /** `download_ohlcv`: it terminates, and saves every venue bar opening in `[from, to)` exactly once
      in strictly increasing order. */
  method DownloadBars(
    from: int, to: int, window: int, ghost venue: set<int>, ghost served: int -> set<int>,
    server: (int, nat, int) -> Reply, ghost caps: Caps)
    returns (saved: seq<int>)
    requires window > 0 && ConsistentServer(venue, served, server, caps)
    ensures Saved(venue, from, Max(from, to), saved)
  {
    saved := [];
    var cursor := from;
    var lastSaved: Option<int> := None;
    while cursor < to
      invariant from <= cursor
      invariant Saved(venue, from, if cursor >= to then Max(from, to) else cursor, saved)
      invariant lastSaved == if saved == [] then None else Some(saved[|saved| - 1])
      decreases (to - cursor)
    {
      var end := Min(cursor + window, to);
      saved, lastSaved, cursor := ReadWindow(
        from, to, cursor, end, venue, served(cursor), (k: nat, upper: int) => server(cursor, k, upper), caps,
        saved, lastSaved);
    }
  }
}

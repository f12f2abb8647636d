/** Bounds of the bot's share of a position as of one deal's execution (`_bounds_of_net`,
`_net_bounds`, `_entries_in_flight`, `_share_bounds`).

The journal, the event stream and the venue see the bot's own fills at different times.  The bounds
are proved to bracket the real share however those fills were ordered, and to be attained.
*/
module ShareBounds {
  import opened Common

  /** `side` is the side of the share, `None` when it is nil or undecided. */
  datatype Bounds = Bounds(low: int, high: int, side: Option<Side>)

  function SideOf(net: int): Option<Side> {
    if net == 0 then None else if net > 0 then Some(Buy) else Some(Sell)
  }

  /** The share when the signed net lies in `[lo, hi]`. */
  function BoundsFor(lo: int, hi: int): Bounds {
    if lo >= 0 && hi <= 0 then Bounds(0, 0, None)
    else if lo >= 0 then Bounds(Max(0, lo), hi, Some(Buy))
    else if hi <= 0 then Bounds(Max(0, -hi), -lo, Some(Sell))
    else Bounds(0, Max(-lo, hi), None)
  }

  /** Sum of the negative (or positive) elements. */
  function Reach(xs: seq<int>, up: bool): int {
    if xs == [] then 0
    else Reach(xs[..|xs| - 1], up) + if up then Max(0, xs[|xs| - 1]) else Min(0, xs[|xs| - 1])
  }

  lemma ReachPush(xs: seq<int>, x: int, up: bool)
    ensures Reach(xs + [x], up) == Reach(xs, up) + if up then Max(0, x) else Min(0, x)
  {
  }

  method BoundsOfNet(lo: int, hi: int, inFlight: seq<int>) returns (bounds: Bounds)
    ensures bounds == BoundsFor(lo + Reach(inFlight, false), hi + Reach(inFlight, true))
  {
    var low, high := lo, hi;
    for i := 0 to |inFlight|
      invariant low == lo + Reach(inFlight[..i], false) && high == hi + Reach(inFlight[..i], true)
    {
      assert inFlight[..i + 1][..i] == inFlight[..i];
      low := low + Min(0, inFlight[i]);
      high := high + Max(0, inFlight[i]);
    }
    assert inFlight[..|inFlight|] == inFlight;
    if low >= 0 && high <= 0 {
      return Bounds(0, 0, None);
    }
    if low >= 0 {
      return Bounds(Max(0, low), high, Some(Buy));
    }
    if high <= 0 {
      return Bounds(Max(0, -high), -low, Some(Sell));
    }
    return Bounds(0, Max(-low, high), None);
  }

  /** The bounds hold for every net of the interval, both are attained, and the side is decided
      exactly when every net that is not nil lies on it and some does. */
  lemma BoundsAreExact(lo: int, hi: int)
    requires lo <= hi
    ensures var b := BoundsFor(lo, hi);
            && (forall net :: lo <= net <= hi ==> b.low <= Abs(net) <= b.high)
            && (exists net :: lo <= net <= hi && Abs(net) == b.low)
            && (exists net :: lo <= net <= hi && Abs(net) == b.high)
            && (forall net :: lo <= net <= hi && net != 0 && b.side.Some? ==> SideOf(net) == b.side)
            && (b.side.Some? <==> (lo < 0 || hi > 0) && !(lo < 0 < hi))
  {
    assert Abs(lo) == -lo || Abs(lo) == lo;
    assert Abs(hi) == -hi || Abs(hi) == hi;
    if lo < 0 < hi {
      assert Abs(0) == 0;
    }
  }

  // --- own entries that may have executed ----------------------------------------

  /** `part` is an execution of at most `volume`, on its side. */
  predicate PartOf(part: int, volume: int) {
    0 <= part <= volume || volume <= part <= 0
  }

  predicate PartsOf(parts: seq<int>, volumes: seq<int>) {
    |parts| == |volumes| && forall i :: 0 <= i < |parts| ==> PartOf(parts[i], volumes[i])
  }

  lemma {:induction false} PartsStayInReach(parts: seq<int>, volumes: seq<int>)
    requires PartsOf(parts, volumes)
    ensures Reach(volumes, false) <= Sum(parts) <= Reach(volumes, true)
  {
    if parts != [] {
      PartsStayInReach(parts[..|parts| - 1], volumes[..|volumes| - 1]);
    }
  }

  /** Every net in reach is reached by some executions. */
  lemma {:induction false} PartsReach(volumes: seq<int>, target: int) returns (parts: seq<int>)
    requires Reach(volumes, false) <= target <= Reach(volumes, true)
    ensures PartsOf(parts, volumes) && Sum(parts) == target
  {
    if volumes == [] {
      parts := [];
    } else {
      var older, last := volumes[..|volumes| - 1], volumes[|volumes| - 1];
      var rest := Max(Reach(older, false), Min(Reach(older, true), target));
      ReachOrdered(older);
      var before := PartsReach(older, rest);
      assert PartOf(target - rest, last) by {
        assert Reach(volumes, false) == Reach(older, false) + Min(0, last);
        assert Reach(volumes, true) == Reach(older, true) + Max(0, last);
      }
      PartsExtend(before, older, target - rest, last);
      parts := before + [target - rest];
      assert volumes == older + [last];
    }
  }

  lemma PartsExtend(parts: seq<int>, volumes: seq<int>, part: int, volume: int)
    requires PartsOf(parts, volumes) && PartOf(part, volume)
    ensures PartsOf(parts + [part], volumes + [volume]) && Sum(parts + [part]) == Sum(parts) + part
  {
  }

  lemma {:induction false} ReachOrdered(volumes: seq<int>)
    ensures Reach(volumes, false) <= 0 <= Reach(volumes, true)
  {
    if volumes != [] {
      ReachOrdered(volumes[..|volumes| - 1]);
    }
  }

  /** A dispatched entry the venue has not answered, and what of it the journal already counts. */
  datatype Dispatch = Dispatch(coid: int, symbol: string, volume: int, counted: nat)

  /** What of a dispatch may still add to a position of `symbols`. */
  function Rest(dispatch: Dispatch, symbols: set<string>, hedged: bool): int {
    var rest := Abs(dispatch.volume) - dispatch.counted;
    if hedged || dispatch.symbol !in symbols || rest <= 0 then 0
    else if dispatch.volume < 0 then -rest else rest
  }

  method EntriesInFlight(dispatches: seq<Dispatch>, symbols: set<string>, hedged: bool)
    returns (pending: seq<(int, int)>)
    ensures pending == Pending(dispatches, symbols, hedged)
    ensures forall p :: p in pending <==>
              exists i :: 0 <= i < |dispatches| && p == PendingOf(dispatches[i], symbols, hedged) && p.1 != 0
    ensures forall up :: Reach(Volumes(pending), up) == Reach(Rests(dispatches, symbols, hedged), up)
  {
    pending := [];
    if !hedged {
      for i := 0 to |dispatches|
        invariant pending == Pending(dispatches[..i], symbols, hedged)
      {
        var d := dispatches[i];
        var rest := Abs(d.volume) - d.counted;
        assert dispatches[..i + 1][..i] == dispatches[..i];
        if d.symbol in symbols && rest > 0 {
          pending := pending + [(d.coid, if d.volume < 0 then -rest else rest)];
        }
      }
      assert dispatches[..|dispatches|] == dispatches;
    } else {
      NonePendingHedged(dispatches, symbols);
    }
    PendingAre(dispatches, symbols, hedged);
    PendingReach(dispatches, symbols, hedged, true);
    PendingReach(dispatches, symbols, hedged, false);
  }

  function PendingOf(dispatch: Dispatch, symbols: set<string>, hedged: bool): (int, int) {
    (dispatch.coid, Rest(dispatch, symbols, hedged))
  }

  function Pending(dispatches: seq<Dispatch>, symbols: set<string>, hedged: bool): seq<(int, int)> {
    if dispatches == [] then []
    else
      var p := PendingOf(dispatches[|dispatches| - 1], symbols, hedged);
      Pending(dispatches[..|dispatches| - 1], symbols, hedged) + if p.1 != 0 then [p] else []
  }

  lemma {:induction false} NonePendingHedged(dispatches: seq<Dispatch>, symbols: set<string>)
    ensures Pending(dispatches, symbols, true) == []
  {
    if dispatches != [] {
      NonePendingHedged(dispatches[..|dispatches| - 1], symbols);
    }
  }

  lemma {:induction false} PendingAre(dispatches: seq<Dispatch>, symbols: set<string>, hedged: bool)
    ensures forall p :: p in Pending(dispatches, symbols, hedged) <==>
              exists i :: 0 <= i < |dispatches| && p == PendingOf(dispatches[i], symbols, hedged) && p.1 != 0
  {
    if dispatches != [] {
      var older := dispatches[..|dispatches| - 1];
      PendingAre(older, symbols, hedged);
      assert forall i :: 0 <= i < |older| ==> older[i] == dispatches[i];
    }
  }

  lemma {:induction false} PendingReach(dispatches: seq<Dispatch>, symbols: set<string>, hedged: bool, up: bool)
    ensures Reach(Volumes(Pending(dispatches, symbols, hedged)), up) == Reach(Rests(dispatches, symbols, hedged), up)
  {
    if dispatches != [] {
      var n := |dispatches| - 1;
      PendingReach(dispatches[..n], symbols, hedged, up);
      var older, rests := Pending(dispatches[..n], symbols, hedged), Rests(dispatches[..n], symbols, hedged);
      var p := PendingOf(dispatches[n], symbols, hedged);
      assert Rests(dispatches, symbols, hedged) == rests + [p.1];
      OneMorePending(older, rests, p, up);
    }
  }

  lemma OneMorePending(older: seq<(int, int)>, rests: seq<int>, p: (int, int), up: bool)
    requires Reach(Volumes(older), up) == Reach(rests, up)
    ensures Reach(Volumes(older + if p.1 != 0 then [p] else []), up) == Reach(rests + [p.1], up)
  {
    ReachPush(rests, p.1, up);
    if p.1 != 0 {
      assert Volumes(older + [p]) == Volumes(older) + [p.1];
      ReachPush(Volumes(older), p.1, up);
    } else {
      assert older + [] == older;
    }
  }

  function Volumes(pending: seq<(int, int)>): seq<int> {
    seq(|pending|, i requires 0 <= i < |pending| => pending[i].1)
  }

  function Rests(dispatches: seq<Dispatch>, symbols: set<string>, hedged: bool): seq<int> {
    seq(|dispatches|, i requires 0 <= i < |dispatches| => Rest(dispatches[i], symbols, hedged))
  }

  /** What a dispatch added to the position beyond what the journal counts: nothing on a hedged
      account or another symbol, at most its volume otherwise. */
  predicate UncountedPart(dispatch: Dispatch, symbols: set<string>, hedged: bool, part: int) {
    if hedged || dispatch.symbol !in symbols then part == 0
    else if dispatch.volume < 0 then part <= 0 && dispatch.counted - part <= Max(dispatch.counted, -dispatch.volume)
    else part >= 0 && dispatch.counted + part <= Max(dispatch.counted, dispatch.volume)
  }

  lemma UncountedPartIsInFlight(dispatch: Dispatch, symbols: set<string>, hedged: bool, part: int)
    ensures UncountedPart(dispatch, symbols, hedged, part) <==> PartOf(part, Rest(dispatch, symbols, hedged))
  {
  }

  // --- own fills the journal and the event stream see at different times ------------

  /** An own fill the journal counts ahead of its event (`counted`), or not yet. */
  datatype Effect = Effect(delta: int, counted: bool, executedMs: Option<int>)

  /** Whether the fill can have executed after (or before) the deal. */
  predicate Orderable(effect: Effect, dealMs: Option<int>, after: bool) {
    effect.executedMs.Some? && dealMs.Some? ==>
      && (effect.executedMs.value > dealMs.value ==> after)
      && (effect.executedMs.value < dealMs.value ==> !after)
  }

  /** What the journal net must change by to be the net as of the deal. */
  function Correction(effect: Effect, after: bool): int {
    if effect.counted then (if after then -effect.delta else 0) else if after then 0 else effect.delta
  }

  function Corrections(effects: seq<Effect>, after: seq<bool>): int
    requires |effects| == |after|
  {
    if effects == [] then 0
    else Corrections(effects[..|effects| - 1], after[..|after| - 1])
         + Correction(effects[|effects| - 1], after[|after| - 1])
  }

  predicate Orders(effects: seq<Effect>, dealMs: Option<int>, after: seq<bool>) {
    |after| == |effects| && forall i :: 0 <= i < |after| ==> Orderable(effects[i], dealMs, after[i])
  }

  /** An own close of up to `volume` takes the net toward zero, never past it. */
  function TowardZero(net: int, volume: nat): int {
    if net > 0 then Max(0, net - volume) else if net < 0 then Min(0, net + volume) else 0
  }

  /** The extreme correction of one effect. */
  function Extreme(effect: Effect, dealMs: Option<int>, up: bool): int {
    var shift := if effect.counted then -effect.delta else effect.delta;
    if !Orderable(effect, dealMs, !effect.counted) then shift
    else if !Orderable(effect, dealMs, effect.counted) then 0
    else if up then Max(0, shift) else Min(0, shift)
  }

  function Extremes(effects: seq<Effect>, dealMs: Option<int>, up: bool): int {
    if effects == [] then 0
    else Extremes(effects[..|effects| - 1], dealMs, up) + Extreme(effects[|effects| - 1], dealMs, up)
  }

  function NetInterval(net: int, effects: seq<Effect>, dealMs: Option<int>, unresolved: nat): (int, int) {
    var lo, hi := net + Extremes(effects, dealMs, false), net + Extremes(effects, dealMs, true);
    if lo > 0 then (Max(0, lo - unresolved), hi)
    else if hi < 0 then (lo, Min(0, hi + unresolved))
    else (lo, hi)
  }

  method NetBounds(net: int, effects: seq<Effect>, dealMs: Option<int>, unresolved: nat) returns (lo: int, hi: int)
    ensures (lo, hi) == NetInterval(net, effects, dealMs, unresolved)
  {
    lo, hi := net, net;
    for i := 0 to |effects|
      invariant lo == net + Extremes(effects[..i], dealMs, false)
      invariant hi == net + Extremes(effects[..i], dealMs, true)
    {
      var effect := effects[i];
      assert effects[..i + 1][..i] == effects[..i];
      var known := effect.executedMs.Some? && dealMs.Some?;
      var later := known && effect.executedMs.value > dealMs.value;
      var earlier := known && effect.executedMs.value < dealMs.value;
      var certain, excluded, shift := earlier, later, effect.delta;
      if effect.counted {
        certain, excluded, shift := later, earlier, -effect.delta;
      }
      if certain {
        lo, hi := lo + shift, hi + shift;
      } else if !excluded {
        lo, hi := lo + Min(0, shift), hi + Max(0, shift);
      }
    }
    assert effects[..|effects|] == effects;
    if unresolved > 0 {
      if lo > 0 {
        lo := Max(0, lo - unresolved);
      } else if hi < 0 {
        hi := Min(0, hi + unresolved);
      }
    }
  }

  lemma {:induction false} CorrectionsWithinExtremes(effects: seq<Effect>, dealMs: Option<int>, after: seq<bool>)
    requires Orders(effects, dealMs, after)
    ensures Extremes(effects, dealMs, false) <= Corrections(effects, after) <= Extremes(effects, dealMs, true)
  {
    if effects != [] {
      CorrectionsWithinExtremes(effects[..|effects| - 1], dealMs, after[..|after| - 1]);
    }
  }

  lemma {:induction false} ExtremesAreAttained(effects: seq<Effect>, dealMs: Option<int>, up: bool)
    returns (after: seq<bool>)
    ensures Orders(effects, dealMs, after) && Corrections(effects, after) == Extremes(effects, dealMs, up)
  {
    after := [];
    if effects != [] {
      var last := effects[|effects| - 1];
      var older := ExtremesAreAttained(effects[..|effects| - 1], dealMs, up);
      var choice := if !Orderable(last, dealMs, true) then false
                    else if !Orderable(last, dealMs, false) then true
                    else Correction(last, true) == Extreme(last, dealMs, up);
      after := older + [choice];
      assert after[..|after| - 1] == older;
    }
  }

  // --- the truth: own fills in time order, unseen closes among them -------------------

  /** What the code knows when it bounds the share: the journal net, the own fills the journal and
      the event stream see at different times, the deal's time, the volume of answered own closes
      nobody saw execute, and the entries in flight. */
  datatype Evidence = Evidence(
    net: int, effects: seq<Effect>, dealMs: Option<int>, unresolved: nat, inFlight: seq<int>)
  {
    /** The lowest net the known fills allow, and the highest. */
    function Least(): int {
      net + Extremes(effects, dealMs, false)
    }

    function Most(): int {
      net + Extremes(effects, dealMs, true)
    }

    /** The code's interval of the net, entries in flight included. */
    function Low(): int {
      NetInterval(net, effects, dealMs, unresolved).0 + Reach(inFlight, false)
    }

    function High(): int {
      NetInterval(net, effects, dealMs, unresolved).1 + Reach(inFlight, true)
    }

    function Share(): Bounds {
      BoundsFor(Low(), High())
    }
  }

  /** One way things can really have gone up to the deal: the order of the time-unknown fills against
      it, what of each entry in flight executed, every own execution in time order, and what the
      unseen closes executed right after each of them. */
  datatype Truth = Truth(after: seq<bool>, parts: seq<int>, fills: seq<int>, closes: seq<nat>)

  /** The net of the first `n` own executions, had no unseen close executed. */
  function NetAt(fills: seq<int>, n: nat): int
    requires n <= |fills|
  {
    if n == 0 then 0 else NetAt(fills, n - 1) + fills[n - 1]
  }

  /** The real net after `n` executions and the unseen closes among them. */
  function RealNetAt(fills: seq<int>, closes: seq<nat>, n: nat): int
    requires n <= |fills| == |closes|
  {
    if n == 0 then 0 else TowardZero(RealNetAt(fills, closes, n - 1) + fills[n - 1], closes[n - 1])
  }

  function Unseen(closes: seq<nat>, n: nat): nat
    requires n <= |closes|
  {
    if n == 0 then 0 else Unseen(closes, n - 1) + closes[n - 1]
  }

  function RealNet(t: Truth): int
    requires |t.fills| == |t.closes|
  {
    RealNetAt(t.fills, t.closes, |t.fills|)
  }

  /** The truth agrees with what the code knows of the own executions. */
  ghost predicate FillsAgree(t: Truth, e: Evidence) {
    && Orders(e.effects, e.dealMs, t.after) && PartsOf(t.parts, e.inFlight)
    && NetAt(t.fills, |t.fills|) == e.net + Corrections(e.effects, t.after) + Sum(t.parts)
    && |t.closes| == |t.fills|
  }

  /** The truth agrees with what the code knows. */
  ghost predicate Consistent(t: Truth, e: Evidence) {
    FillsAgree(t, e) && Unseen(t.closes, |t.closes|) <= e.unresolved
  }

  /** Unseen closes of up to `unresolved` that met a net `was` keep the net now, `now` without them,
      within the range. */
  predicate StaysWithin(was: int, now: int, unresolved: nat, low: int, high: int) {
    && (was > 0 ==> now - Min(unresolved, was) >= low)
    && (was < 0 ==> now + Min(unresolved, -was) <= high)
  }

  predicate AlwaysStaysWithin(fills: seq<int>, unresolved: nat, low: int, high: int) {
    forall n :: 0 <= n <= |fills| ==> StaysWithin(NetAt(fills, n), NetAt(fills, |fills|), unresolved, low, high)
  }

  /** Such closes move the net no further past zero than the uncertain fills and entries may. */
  predicate NoOvershoot(was: int, now: int, e: Evidence) {
    StaysWithin(was, now, e.unresolved, Min(0, e.Least()) + Reach(e.inFlight, false),
                Max(0, e.Most()) + Reach(e.inFlight, true))
  }

  predicate NeverOvershoots(fills: seq<int>, e: Evidence) {
    forall n :: 0 <= n <= |fills| ==> NoOvershoot(NetAt(fills, n), NetAt(fills, |fills|), e)
  }

  /** What unseen closes take off the net never exceeds what one of them could have taken at once. */
  lemma {:induction false} DriftBounded(fills: seq<int>, closes: seq<nat>, unresolved: nat, down: int, up: int, n: nat)
    requires n <= |fills| == |closes| && Unseen(closes, n) <= unresolved && 0 <= down && 0 <= up
    requires forall m :: 0 <= m <= |fills| ==> (NetAt(fills, m) > 0 ==> Min(unresolved, NetAt(fills, m)) <= down)
    requires forall m :: 0 <= m <= |fills| ==> (NetAt(fills, m) < 0 ==> Min(unresolved, -NetAt(fills, m)) <= up)
    ensures -up <= NetAt(fills, n) - RealNetAt(fills, closes, n) <= down
    ensures Abs(NetAt(fills, n) - RealNetAt(fills, closes, n)) <= Unseen(closes, n)
  {
    if n > 0 {
      DriftBounded(fills, closes, unresolved, down, up, n - 1);
    }
  }

  /** Without unseen closes the net lies where the fills and entries allow it. */
  lemma NetInReach(t: Truth, e: Evidence)
    requires Consistent(t, e)
    ensures e.Least() + Reach(e.inFlight, false) <= NetAt(t.fills, |t.fills|) <= e.Most() + Reach(e.inFlight, true)
  {
    CorrectionsWithinExtremes(e.effects, e.dealMs, t.after);
    PartsStayInReach(t.parts, e.inFlight);
  }

  /** One unseen close of `volume`, right after execution `at`. */
  function OneClose(count: nat, at: nat, volume: nat): seq<nat> {
    seq(count, i => if i + 1 == at then volume else 0)
  }

  lemma {:induction false} OneCloseTakes(fills: seq<int>, at: nat, volume: nat, n: nat)
    requires 0 < at <= |fills| && n <= |fills|
    ensures var closes := OneClose(|fills|, at, volume);
            && RealNetAt(fills, closes, n) == NetAt(fills, n)
               + (if n < at then 0 else TowardZero(NetAt(fills, at), volume) - NetAt(fills, at))
            && Unseen(closes, n) == if n < at then 0 else volume
  {
    if n > 0 {
      OneCloseTakes(fills, at, volume, n - 1);
    }
  }

  /** A close that does not stay within the range leaves it. */
  lemma OvershootLeaves(t: Truth, e: Evidence, low: int, high: int, at: nat) returns (closes: seq<nat>)
    requires Consistent(t, e) && at <= |t.fills|
    requires !StaysWithin(NetAt(t.fills, at), NetAt(t.fills, |t.fills|), e.unresolved, low, high)
    ensures Consistent(t.(closes := closes), e) && !(low <= RealNet(t.(closes := closes)) <= high)
  {
    var volume := Min(e.unresolved, Abs(NetAt(t.fills, at)));
    closes := OneClose(|t.fills|, at, volume);
    OneCloseTakes(t.fills, at, volume, |t.fills|);
  }

  /** Wherever among the own executions the unseen closes really executed, in whatever parts, a range
      that holds the net without them holds the real net: if and only if at no point a close of all
      that is unresolved could have left it. */
  lemma RangeHoldsIff(t: Truth, e: Evidence, low: int, high: int)
    requires Consistent(t, e) && low <= NetAt(t.fills, |t.fills|) <= high
    ensures AlwaysStaysWithin(t.fills, e.unresolved, low, high) <==>
            forall closes :: Consistent(t.(closes := closes), e) ==> low <= RealNet(t.(closes := closes)) <= high
  {
    var n := |t.fills|;
    var now := NetAt(t.fills, n);
    if AlwaysStaysWithin(t.fills, e.unresolved, low, high) {
      forall closes | Consistent(t.(closes := closes), e)
        ensures low <= RealNet(t.(closes := closes)) <= high
      {
        forall m | 0 <= m <= n
          ensures NetAt(t.fills, m) > 0 ==> Min(e.unresolved, NetAt(t.fills, m)) <= now - low
          ensures NetAt(t.fills, m) < 0 ==> Min(e.unresolved, -NetAt(t.fills, m)) <= high - now
        {
          assert StaysWithin(NetAt(t.fills, m), now, e.unresolved, low, high);
        }
        DriftBounded(t.fills, closes, e.unresolved, now - low, high - now, n);
      }
    } else {
      var at :| 0 <= at <= n && !StaysWithin(NetAt(t.fills, at), now, e.unresolved, low, high);
      var closes := OvershootLeaves(t, e, low, high, at);
    }
  }

  /** For the code's interval: if and only if none of them can overshoot. */
  lemma IntervalHoldsIff(t: Truth, e: Evidence)
    requires Consistent(t, e)
    ensures e.Low() <= NetAt(t.fills, |t.fills|) <= e.High()
    ensures NeverOvershoots(t.fills, e) <==>
            forall closes :: Consistent(t.(closes := closes), e) ==>
              e.Low() <= RealNet(t.(closes := closes)) <= e.High()
  {
    IntervalOrdered(e);
    NetInReach(t, e);
    RangeHoldsIff(t, e, e.Low(), e.High());
    forall n | 0 <= n <= |t.fills|
      ensures NoOvershoot(NetAt(t.fills, n), NetAt(t.fills, |t.fills|), e) <==>
              StaysWithin(NetAt(t.fills, n), NetAt(t.fills, |t.fills|), e.unresolved, e.Low(), e.High())
    {
      OvershootLeavesInterval(NetAt(t.fills, n), NetAt(t.fills, |t.fills|), e);
    }
  }

  lemma OvershootLeavesInterval(was: int, now: int, e: Evidence)
    requires e.Least() + Reach(e.inFlight, false) <= now <= e.Most() + Reach(e.inFlight, true)
    ensures NoOvershoot(was, now, e) <==> StaysWithin(was, now, e.unresolved, e.Low(), e.High())
  {
    IntervalOrdered(e);
    ReachOrdered(e.inFlight);
  }

  /** With no uncertain fill or entry: what the close could have taken then must still be there, on the
      same side. */
  lemma NoOvershootPlainly(was: int, now: int, unresolved: nat)
    ensures NoOvershoot(was, now, Evidence(now, [], None, unresolved, [])) <==>
            var most := Min(unresolved, Abs(was)); most == 0 || (most <= Abs(now) && SideOf(was) == SideOf(now))
  {
  }

  /** On a position the bot only ever traded on one side no close can overshoot. */
  lemma OneSidedNeverOvershoots(t: Truth, e: Evidence)
    requires Consistent(t, e)
    requires || (forall i :: 0 <= i < |t.fills| ==> t.fills[i] >= 0)
             || (forall i :: 0 <= i < |t.fills| ==> t.fills[i] <= 0)
    ensures NeverOvershoots(t.fills, e)
  {
    ReachOrdered(e.inFlight);
    forall n | 0 <= n <= |t.fills|
      ensures NoOvershoot(NetAt(t.fills, n), NetAt(t.fills, |t.fills|), e)
    {
      OneSidedNetGrows(t.fills, 0, n);
      OneSidedNetGrows(t.fills, n, |t.fills|);
    }
  }

  lemma {:induction false} OneSidedNetGrows(fills: seq<int>, m: nat, n: nat)
    requires m <= n <= |fills|
    ensures (forall i :: 0 <= i < |fills| ==> fills[i] >= 0) ==> NetAt(fills, m) <= NetAt(fills, n)
    ensures (forall i :: 0 <= i < |fills| ==> fills[i] <= 0) ==> NetAt(fills, n) <= NetAt(fills, m)
  {
    if m < n {
      OneSidedNetGrows(fills, m, n - 1);
    }
  }

  // --- the share --------------------------------------------------------------------

  /** The bounds bracket a share of signed size `net` and do not contradict its side. */
  predicate BoundsHold(b: Bounds, net: int) {
    b.low <= Abs(net) <= b.high && (b.side.Some? && net != 0 ==> SideOf(net) == b.side)
  }

  /** The signed shares the bounds allow. */
  function AllowedLow(b: Bounds): int {
    if b.side == Some(Buy) then b.low else -b.high
  }

  function AllowedHigh(b: Bounds): int {
    if b.side == Some(Sell) then -b.low else b.high
  }

  lemma BoundsHoldInRange(lo: int, hi: int, net: int)
    requires lo <= hi
    ensures var b := BoundsFor(lo, hi);
            && AllowedLow(b) <= lo <= hi <= AllowedHigh(b)
            && (BoundsHold(b, net) <==> AllowedLow(b) <= net <= AllowedHigh(b))
  {
  }

  lemma IntervalOrdered(e: Evidence)
    ensures e.Least() <= e.Most() && e.Low() <= e.High()
  {
    var after := ExtremesAreAttained(e.effects, e.dealMs, false);
    CorrectionsWithinExtremes(e.effects, e.dealMs, after);
    ReachOrdered(e.inFlight);
  }

  /** The share bounds bracket the real share, and a decided side is never contradicted, where no
      unseen close can overshoot; exactly, where no close of all that is unresolved could have left
      the shares the bounds allow. */
  lemma ShareBoundsBracketTruth(t: Truth, e: Evidence)
    requires Consistent(t, e)
    ensures NeverOvershoots(t.fills, e) ==> BoundsHold(e.Share(), RealNet(t))
    ensures AlwaysStaysWithin(t.fills, e.unresolved, AllowedLow(e.Share()), AllowedHigh(e.Share())) <==>
            forall closes :: Consistent(t.(closes := closes), e) ==>
              BoundsHold(e.Share(), RealNet(t.(closes := closes)))
  {
    IntervalOrdered(e);
    IntervalHoldsIff(t, e);
    assert t.(closes := t.closes) == t;
    BoundsHoldInRange(e.Low(), e.High(), RealNet(t));
    RangeHoldsIff(t, e, AllowedLow(e.Share()), AllowedHigh(e.Share()));
    forall closes | Consistent(t.(closes := closes), e)
      ensures BoundsHold(e.Share(), RealNet(t.(closes := closes))) <==>
              AllowedLow(e.Share()) <= RealNet(t.(closes := closes)) <= AllowedHigh(e.Share())
    {
      BoundsHoldInRange(e.Low(), e.High(), RealNet(t.(closes := closes)));
    }
  }

  /** Both ends of the net interval are reached, by closes that do not overshoot. */
  lemma IntervalIsAttained(e: Evidence, high: bool) returns (t: Truth)
    ensures Consistent(t, e) && NeverOvershoots(t.fills, e) && RealNet(t) == if high then e.High() else e.Low()
  {
    IntervalOrdered(e);
    ReachOrdered(e.inFlight);
    var after := ExtremesAreAttained(e.effects, e.dealMs, high);
    var parts := PartsReach(e.inFlight, Reach(e.inFlight, high));
    var net := if high then e.Most() else e.Least();
    var volume := if high == (net < 0) then Min(e.unresolved, Abs(net)) else 0;
    var fills, closes: seq<nat> := [net, Reach(e.inFlight, high)], [volume, 0];
    TwoFills(fills, closes);
    NearEndNeverOvershoots(fills, e, high);
    t := Truth(after, parts, fills, closes);
  }

  lemma NearEndNeverOvershoots(fills: seq<int>, e: Evidence, high: bool)
    requires |fills| == 2 && fills[0] == (if high then e.Most() else e.Least()) && fills[1] == Reach(e.inFlight, high)
    ensures NeverOvershoots(fills, e)
  {
    TwoFills(fills, [0, 0]);
    ReachOrdered(e.inFlight);
    IntervalOrdered(e);
    assert NetAt(fills, 0) == 0;
    assert NoOvershoot(fills[0], fills[0] + fills[1], e) && NoOvershoot(fills[0] + fills[1], fills[0] + fills[1], e);
  }

  /** The bot bought, a close of all of it executed unseen, and a smaller sell entry filled on the same
      position (5 bought and closed, 3 sold, say): the bounds say a long share, and the bot is short. */
  lemma UnseenCloseThenOppositeFill(bought: int, sold: int)
    requires 0 < sold < bought
    ensures var e := Evidence(bought - sold, [], None, bought, []);
            var t := Truth([], [], [bought, -sold], [bought, 0]);
            && Consistent(t, e) && !NeverOvershoots(t.fills, e)
            && e.Share() == Bounds(0, bought - sold, Some(Buy))
            && RealNet(t) == -sold && !BoundsHold(e.Share(), RealNet(t))
  {
    var e := Evidence(bought - sold, [], None, bought, []);
    var fills, closes: seq<nat> := [bought, -sold], [bought, 0];
    TwoFills(fills, closes);
    assert !NoOvershoot(NetAt(fills, 1), NetAt(fills, 2), e);
  }

  lemma TwoFills(fills: seq<int>, closes: seq<nat>)
    requires |fills| == |closes| == 2
    ensures NetAt(fills, 1) == fills[0] && NetAt(fills, 2) == fills[0] + fills[1]
    ensures Unseen(closes, 2) == closes[0] + closes[1]
    ensures RealNetAt(fills, closes, 2) == TowardZero(TowardZero(fills[0], closes[0]) + fills[1], closes[1])
  {
    assert NetAt(fills, 0) == Unseen(closes, 0) == RealNetAt(fills, closes, 0) == 0;
    assert RealNetAt(fills, closes, 1) == TowardZero(fills[0], closes[0]) && Unseen(closes, 1) == closes[0];
  }

  method ShareBoundsAt(net: int, effects: seq<Effect>, dealMs: Option<int>, unresolved: nat, inFlight: seq<int>)
    returns (bounds: Bounds)
    ensures var e := Evidence(net, effects, dealMs, unresolved, inFlight);
            && bounds == e.Share()
            && forall t :: Consistent(t, e) && NeverOvershoots(t.fills, e) ==> BoundsHold(bounds, RealNet(t))
  {
    var lo, hi := NetBounds(net, effects, dealMs, unresolved);
    bounds := BoundsOfNet(lo, hi, inFlight);
    ghost var e := Evidence(net, effects, dealMs, unresolved, inFlight);
    forall t | Consistent(t, e) && NeverOvershoots(t.fills, e)
      ensures BoundsHold(bounds, RealNet(t))
    {
      ShareBoundsBracketTruth(t, e);
    }
  }
}

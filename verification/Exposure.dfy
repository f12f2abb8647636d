/** The bot's share of a position as the journal records it, and the two writes that move it.

`_retire_partial_close_exposure` books a close by retiring exposure from the oldest rows of the
net's side on; `_restore_retired_exposure` gives volume back from the newest row on.
*/
module Exposure {
  import opened Common

  /** One live journal row.  `linked` says that both writes find the row for the position;
      `entry` that the row also counts in the bot's share: an own entry row which no startup
      adoption put there. */
  datatype Row = Row(side: Side, filled: nat, retired: nat, linked: bool, entry: bool)

  predicate WellFormed(rows: seq<Row>) {
    forall i :: 0 <= i < |rows| && rows[i].entry ==> rows[i].linked
  }

  /** A row's unretired filled exposure. */
  function Open(row: Row): (open: int)
    ensures 0 <= open <= row.filled
  {
    if row.retired <= row.filled then row.filled - row.retired else 0
  }

  function Signed(row: Row): int {
    if !row.entry then 0 else if row.side == Buy then Open(row) else -Open(row)
  }

  predicate HasEntry(rows: seq<Row>) {
    exists i :: 0 <= i < |rows| && rows[i].entry
  }

  /** Signed net of the rows, buy positive. */
  function Net(rows: seq<Row>): int {
    if rows == [] then 0 else Net(rows[..|rows| - 1]) + Signed(rows[|rows| - 1])
  }

  /** The side whose rows absorb a retirement; `None` (no share known) means every row. */
  function NetSide(rows: seq<Row>): Option<Side> {
    if !HasEntry(rows) then None else if Net(rows) > 0 then Some(Buy) else Some(Sell)
  }

  predicate Absorbs(row: Row, side: Option<Side>) {
    row.linked && (side == None || side == Some(row.side))
  }

  /** What a retirement of `q` really asks the rows for: at most the known share. */
  function Amount(rows: seq<Row>, q: int): (amount: int)
    ensures 0 <= amount <= Max(0, q)
  {
    if q <= 0 then 0 else if HasEntry(rows) then Min(q, Abs(Net(rows))) else q
  }

  /** Exposure the absorbing rows older than row `j` still hold. */
  function OpenBefore(rows: seq<Row>, side: Option<Side>, j: nat): (open: int)
    requires j <= |rows|
    ensures open >= 0
  {
    if j == 0 then 0
    else OpenBefore(rows, side, j - 1) + if Absorbs(rows[j - 1], side) then Open(rows[j - 1]) else 0
  }

  /** Volume the linked rows from row `j` on have retired. */
  function RetiredFrom(rows: seq<Row>, j: nat): (retired: int)
    requires j <= |rows|
    ensures retired >= 0
    decreases |rows| - j
  {
    if j == |rows| then 0
    else RetiredFrom(rows, j + 1) + if rows[j].linked then rows[j].retired else 0
  }

  /** The part of `amount` row `j` absorbs when older rows are emptied first. */
  function Take(rows: seq<Row>, side: Option<Side>, amount: int, j: nat): (take: int)
    requires j < |rows| && amount >= 0
    ensures 0 <= take <= Open(rows[j])
  {
    if Absorbs(rows[j], side) then Clamp(amount - OpenBefore(rows, side, j), Open(rows[j])) else 0
  }

  /** The part of `q` row `j` gets back when newer rows are refilled first. */
  function Give(rows: seq<Row>, q: int, j: nat): (give: int)
    requires j < |rows|
    ensures 0 <= give <= rows[j].retired
  {
    if rows[j].linked then Clamp(q - RetiredFrom(rows, j + 1), rows[j].retired) else 0
  }

  /** The rows after a retirement of `q`. */
  function AfterRetire(rows: seq<Row>, q: int): seq<Row> {
    seq(|rows|, j requires 0 <= j < |rows| =>
      rows[j].(retired := rows[j].retired + Take(rows, NetSide(rows), Amount(rows, q), j)))
  }

  /** The rows after `q` was given back. */
  function AfterRestore(rows: seq<Row>, q: int): seq<Row> {
    seq(|rows|, j requires 0 <= j < |rows| => rows[j].(retired := rows[j].retired - Give(rows, q, j)))
  }

  /** Volume the rows before `j` absorb in total. */
  function TakenBefore(rows: seq<Row>, side: Option<Side>, amount: int, j: nat): (taken: int)
    requires j <= |rows| && amount >= 0
    ensures taken >= 0
  {
    if j == 0 then 0 else TakenBefore(rows, side, amount, j - 1) + Take(rows, side, amount, j - 1)
  }

  /** The journal's live rows of one position, oldest first. */
  class Journal {
    var rows: seq<Row>

    constructor (rows: seq<Row>)
      ensures this.rows == rows
    {
      this.rows := rows;
    }

    method SignedShare() returns (share: Option<int>)
      ensures share == if HasEntry(rows) then Some(Net(rows)) else None
    {
      var net, known := 0, false;
      for i := 0 to |rows|
        invariant net == Net(rows[..i])
        invariant known <==> HasEntry(rows[..i])
      {
        assert rows[..i + 1][..i] == rows[..i];
        assert rows[i] == rows[..i + 1][i];
        assert HasEntry(rows[..i]) ==> HasEntry(rows[..i + 1]) by {
          if HasEntry(rows[..i]) {
            var k :| 0 <= k < i && rows[..i][k].entry;
            assert rows[..i + 1][k].entry;
          }
        }
        assert HasEntry(rows[..i + 1]) ==> HasEntry(rows[..i]) || rows[i].entry by {
          if HasEntry(rows[..i + 1]) {
            var k :| 0 <= k < i + 1 && rows[..i + 1][k].entry;
            assert k < i ==> rows[..i][k].entry;
          }
        }
        net := net + Signed(rows[i]);
        known := known || rows[i].entry;
      }
      assert rows[..|rows|] == rows;
      share := if known then Some(net) else None;
    }

    method Retire(q: int)
      modifies this
      ensures rows == AfterRetire(old(rows), q)
    {
      var net := SignedShare();
      if q <= 0 || net == Some(0) {
        RetireRest(rows, rows, q, 0);
        return;
      }
      var remaining := if net.Some? then Min(q, Abs(net.value)) else q;
      var side := if net.None? then None else if net.value > 0 then Some(Buy) else Some(Sell);
      RetireRows(q, remaining, side);
    }

    /** The rows of the net's side, oldest first, until nothing remains. */
    method RetireRows(ghost q: int, amount: int, side: Option<Side>)
      requires amount == Amount(rows, q) && side == NetSide(rows)
      modifies this
      ensures rows == AfterRetire(old(rows), q)
    {
      ghost var was := rows;
      var remaining, i := amount, 0;
      while i < |rows| && remaining > 0
        invariant RetiredTo(was, rows, q, i)
        invariant remaining == Max(0, amount - OpenBefore(was, side, i))
      {
        RetireStep(was, rows, q, i);
        if Absorbs(rows[i], side) {
          var take := Min(Open(rows[i]), remaining);
          rows := rows[i := rows[i].(retired := rows[i].retired + take)];
          remaining := remaining - take;
        }
        i := i + 1;
      }
      RetireRest(was, rows, q, i);
    }

    /** `_mark_position_closed`: nothing of the position is left, its rows are closed. */
    method Close()
      modifies this
      ensures rows == []
    {
      rows := [];
    }

    method Restore(q: int) returns (given: int)
      modifies this
      ensures rows == AfterRestore(old(rows), q)
      ensures given == Min(Max(0, q), RetiredFrom(old(rows), 0))
    {
      ghost var was := rows;
      given := 0;
      if q <= 0 {
        assert rows == AfterRestore(was, q);
        return;
      }
      var remaining := q;
      var i := |rows|;
      while i > 0 && remaining > 0
        invariant 0 <= i <= |rows| == |was|
        invariant remaining == Max(0, q - RetiredFrom(was, i))
        invariant forall j :: 0 <= j < i ==> rows[j] == was[j]
        invariant forall j :: i <= j < |rows| ==>
          rows[j] == was[j].(retired := was[j].retired - Give(was, q, j))
      {
        i := i - 1;
        if rows[i].linked {
          var give := Min(rows[i].retired, remaining);
          rows := rows[i := rows[i].(retired := rows[i].retired - give)];
          remaining := remaining - give;
        }
      }
      forall j | 0 <= j < i
        ensures Give(was, q, j) == 0
      {
        RetiredFromGrows(was, j + 1, i);
      }
      RetiredFromGrows(was, 0, i);
      given := q - remaining;
    }
  }

  lemma {:induction false} OpenBeforeGrows(rows: seq<Row>, side: Option<Side>, i: nat, j: nat)
    requires i <= j <= |rows|
    ensures OpenBefore(rows, side, i) <= OpenBefore(rows, side, j)
  {
    if i < j {
      OpenBeforeGrows(rows, side, i, j - 1);
    }
  }

  /** The first `i` rows are retired, the others as they were. */
  predicate RetiredTo(was: seq<Row>, now: seq<Row>, q: int, i: int) {
    && 0 <= i <= |was| == |now|
    && (forall j :: i <= j < |was| ==> now[j] == was[j])
    && forall j :: 0 <= j < i ==> now[j] == AfterRetire(was, q)[j]
  }

  /** Row `i` is the next to absorb what the older ones left of the amount. */
  lemma RetireStep(was: seq<Row>, now: seq<Row>, q: int, i: int)
    requires RetiredTo(was, now, q, i) && i < |was|
    ensures var side := NetSide(was);
            var left := Max(0, Amount(was, q) - OpenBefore(was, side, i));
            var take := if Absorbs(now[i], side) then Min(Open(now[i]), left) else 0;
            && RetiredTo(was, now[i := now[i].(retired := now[i].retired + take)], q, i + 1)
            && now[i] == now[i].(retired := now[i].retired + 0)
            && left - take == Max(0, Amount(was, q) - OpenBefore(was, side, i + 1))
  {
  }

  /** Once the amount is used up, the rows from `i` on stay as they were. */
  lemma RetireRest(was: seq<Row>, now: seq<Row>, q: int, i: int)
    requires RetiredTo(was, now, q, i)
    requires i < |was| ==> OpenBefore(was, NetSide(was), i) >= Amount(was, q)
    ensures now == AfterRetire(was, q)
  {
    forall j | i <= j < |was|
      ensures now[j] == AfterRetire(was, q)[j]
    {
      OpenBeforeGrows(was, NetSide(was), i, j);
    }
  }

  lemma {:induction false} RetiredFromGrows(rows: seq<Row>, i: nat, j: nat)
    requires i <= j <= |rows|
    ensures RetiredFrom(rows, i) >= RetiredFrom(rows, j)
    decreases j - i
  {
    if i < j {
      RetiredFromGrows(rows, i + 1, j);
    }
  }

  /** The rows before `j` absorb everything asked for, up to what they hold. */
  lemma {:induction false} TakenBeforeIsCapped(rows: seq<Row>, side: Option<Side>, amount: int, j: nat)
    requires j <= |rows| && amount >= 0
    ensures TakenBefore(rows, side, amount, j) == Min(amount, OpenBefore(rows, side, j))
  {
    if j > 0 {
      TakenBeforeIsCapped(rows, side, amount, j - 1);
    }
  }

  /** Older rows are emptied before a newer one is touched. */
  lemma RetireIsFifo(rows: seq<Row>, q: int, i: nat, j: nat)
    requires i < j < |rows|
    requires Absorbs(rows[i], NetSide(rows))
    requires AfterRetire(rows, q)[j] != rows[j]
    ensures Open(AfterRetire(rows, q)[i]) == 0
  {
    OpenBeforeGrows(rows, NetSide(rows), i + 1, j);
  }

  lemma NetStep(rows: seq<Row>, j: nat)
    requires 0 < j <= |rows|
    ensures Net(rows[..j]) == Net(rows[..j - 1]) + Signed(rows[j - 1])
  {
    assert rows[..j][..j - 1] == rows[..j - 1];
  }

  lemma ScaleSum(sign: int, a: int, b: int)
    ensures sign * (a + b) == sign * a + sign * b
  {
  }

  lemma SignedAfterRetire(rows: seq<Row>, q: int, k: nat)
    requires k < |rows| && HasEntry(rows)
    ensures Signed(AfterRetire(rows, q)[k]) == Signed(rows[k])
            - if rows[k].entry then SideSign(rows) * Take(rows, NetSide(rows), Amount(rows, q), k) else 0
  {
  }

  /** A retirement moves the net of the rows before `j` by what it takes from entry rows there. */
  lemma {:induction false} NetAfterRetire(rows: seq<Row>, q: int, j: nat)
    requires j <= |rows| && HasEntry(rows) && WellFormed(rows)
    ensures Net(AfterRetire(rows, q)[..j]) == Net(rows[..j]) - SideSign(rows) * EntryTaken(rows, q, j)
  {
    if j > 0 {
      NetAfterRetire(rows, q, j - 1);
      NetStep(rows, j);
      NetStep(AfterRetire(rows, q), j);
      SignedAfterRetire(rows, q, j - 1);
      assert EntryTaken(rows, q, j) - EntryTaken(rows, q, j - 1) ==
             if rows[j - 1].entry then Take(rows, NetSide(rows), Amount(rows, q), j - 1) else 0;
      ScaleSum(SideSign(rows), EntryTaken(rows, q, j - 1), EntryTaken(rows, q, j) - EntryTaken(rows, q, j - 1));
    }
  }

  /** All of it comes from entry rows exactly when no other row is taken from. */
  lemma {:induction false} EntriesTakeAllIff(rows: seq<Row>, q: int, j: nat)
    requires j <= |rows|
    ensures 0 <= EntryTaken(rows, q, j) <= TakenBefore(rows, NetSide(rows), Amount(rows, q), j)
    ensures EntryTaken(rows, q, j) == TakenBefore(rows, NetSide(rows), Amount(rows, q), j) <==>
            forall k :: 0 <= k < j && !rows[k].entry ==> Take(rows, NetSide(rows), Amount(rows, q), k) == 0
  {
    if j > 0 {
      EntriesTakeAllIff(rows, q, j - 1);
    }
  }

  function SideSign(rows: seq<Row>): int {
    if NetSide(rows) == Some(Buy) then 1 else -1
  }

  /** What the retirement takes from the entry rows before `j`. */
  function EntryTaken(rows: seq<Row>, q: int, j: nat): int
    requires j <= |rows|
  {
    if j == 0 then 0
    else EntryTaken(rows, q, j - 1)
         + if rows[j - 1].entry then Take(rows, NetSide(rows), Amount(rows, q), j - 1) else 0
  }

  /** The share is never larger than what the net's side holds. */
  lemma {:induction false} NetBoundedByOpen(rows: seq<Row>, j: nat)
    requires j <= |rows| && WellFormed(rows)
    ensures -OpenBefore(rows, Some(Sell), j) <= Net(rows[..j]) <= OpenBefore(rows, Some(Buy), j)
  {
    if j > 0 {
      NetBoundedByOpen(rows, j - 1);
      assert rows[..j][..j - 1] == rows[..j - 1];
    }
  }

  /** A retirement never moves the net past zero, and it lowers the share by exactly
      `min(q, |net|)` if and only if no linked row outside the share stands, still open, among
      the oldest rows that hold that amount. */
  lemma RetireLowersShareIff(rows: seq<Row>, q: int)
    requires WellFormed(rows) && HasEntry(rows) && q > 0
    ensures 0 <= SideSign(rows) * Net(AfterRetire(rows, q)) <= Abs(Net(rows))
    ensures Abs(Net(AfterRetire(rows, q))) == Abs(Net(rows)) - Min(q, Abs(Net(rows))) <==>
            forall k :: 0 <= k < |rows| && Absorbs(rows[k], NetSide(rows)) && !rows[k].entry && Open(rows[k]) > 0
              ==> OpenBefore(rows, NetSide(rows), k) >= Min(q, Abs(Net(rows)))
  {
    var n := |rows|;
    var side, amount := NetSide(rows), Amount(rows, q);
    NetAfterRetire(rows, q, n);
    EntriesTakeAllIff(rows, q, n);
    NetBoundedByOpen(rows, n);
    TakenBeforeIsCapped(rows, side, amount, n);
    assert rows[..n] == rows && AfterRetire(rows, q)[..n] == AfterRetire(rows, q);
    assert TakenBefore(rows, side, amount, n) == amount;
    forall k | 0 <= k < n
      ensures Take(rows, side, amount, k) == 0 <==>
              !(Absorbs(rows[k], side) && Open(rows[k]) > 0 && OpenBefore(rows, side, k) < amount)
    {
      TakesNothingIff(rows, side, amount, k);
    }
  }

  lemma TakesNothingIff(rows: seq<Row>, side: Option<Side>, amount: int, k: nat)
    requires k < |rows| && amount >= 0
    ensures Take(rows, side, amount, k) == 0 <==>
            !(Absorbs(rows[k], side) && Open(rows[k]) > 0 && OpenBefore(rows, side, k) < amount)
  {
  }

  /** Where every linked row counts in the share, the share falls by exactly `min(q, |net|)`. */
  lemma RetireLowersShare(rows: seq<Row>, q: int)
    requires WellFormed(rows) && HasEntry(rows) && q > 0
    requires forall k :: 0 <= k < |rows| && rows[k].linked ==> rows[k].entry
    ensures Net(AfterRetire(rows, q)) == SideSign(rows) * (Abs(Net(rows)) - Min(q, Abs(Net(rows))))
  {
    RetireLowersShareIff(rows, q);
    var share, after := Net(rows), Net(AfterRetire(rows, q));
    assert Abs(after) == Abs(share) - Min(q, Abs(share)) && SideSign(rows) * after >= 0;
  }

  /** A linked row of another run's slice swallows the retirement and the share stays put. */
  lemma AdoptedRowSwallowsRetirement()
    ensures var rows := [Row(Buy, 5, 0, true, false), Row(Buy, 5, 0, true, true)];
            WellFormed(rows) && Net(rows) == 5 && Net(AfterRetire(rows, 3)) == 5
  {
  }

  // --- restoring undoes retiring -------------------------------------------

  /** What a retirement took in all. */
  function RetiredTotal(rows: seq<Row>, q: int): int {
    TakenBefore(rows, NetSide(rows), Amount(rows, q), |rows|)
  }

  /** Restoring finds, from row `j` on, what was retired there before plus what was just taken. */
  lemma {:induction false} RetiredFromAfterRetire(rows: seq<Row>, q: int, j: nat)
    requires j <= |rows|
    ensures RetiredFrom(AfterRetire(rows, q), j) ==
            RetiredFrom(rows, j) + RetiredTotal(rows, q) - TakenBefore(rows, NetSide(rows), Amount(rows, q), j)
    decreases |rows| - j
  {
    if j < |rows| {
      RetiredFromAfterRetire(rows, q, j + 1);
    }
  }

  lemma {:induction false} NothingRetiredFrom(rows: seq<Row>, j: nat)
    requires j <= |rows|
    requires forall k :: j <= k < |rows| && rows[k].linked ==> rows[k].retired == 0
    ensures RetiredFrom(rows, j) == 0
    decreases |rows| - j
  {
    if j < |rows| {
      NothingRetiredFrom(rows, j + 1);
    }
  }

  /** What the linked rows before `j` still hold, of either side. */
  function LinkedOpen(rows: seq<Row>, j: nat): int
    requires j <= |rows|
  {
    if j == 0 then 0 else LinkedOpen(rows, j - 1) + if rows[j - 1].linked then Open(rows[j - 1]) else 0
  }

  lemma {:induction false} LinkedOpenIs(rows: seq<Row>, j: nat)
    requires j <= |rows|
    ensures OpenBefore(rows, None, j) == LinkedOpen(rows, j)
  {
    if j > 0 {
      LinkedOpenIs(rows, j - 1);
    }
  }

  /** Where the share is unknown, no row being an own entry, the linked rows of either side take the whole
      volume, as far as they hold it and the oldest first; no other row is touched. */
  lemma UnknownShareRetires(rows: seq<Row>, q: nat)
    requires forall i :: 0 <= i < |rows| ==> !rows[i].entry
    ensures RetiredFrom(AfterRetire(rows, q), 0) == RetiredFrom(rows, 0) + Min(q, LinkedOpen(rows, |rows|))
    ensures forall i :: 0 <= i < |rows| && !rows[i].linked ==> AfterRetire(rows, q)[i] == rows[i]
    ensures forall i, j :: 0 <= i < j < |rows| && rows[i].linked && AfterRetire(rows, q)[j] != rows[j] ==>
              Open(AfterRetire(rows, q)[i]) == 0
  {
    RetiredFromAfterRetire(rows, q, 0);
    TakenBeforeIsCapped(rows, None, q, |rows|);
    LinkedOpenIs(rows, |rows|);
    forall i, j | 0 <= i < j < |rows| && rows[i].linked && AfterRetire(rows, q)[j] != rows[j]
      ensures Open(AfterRetire(rows, q)[i]) == 0
    {
      RetireIsFifo(rows, q, i, j);
    }
  }

  /** Nothing newer than an open row of the net's side has been retired. */
  predicate FreshAfterOldestOpen(rows: seq<Row>) {
    forall i, j :: 0 <= i < j < |rows| && Absorbs(rows[i], NetSide(rows)) && Open(rows[i]) > 0 && rows[j].linked
      ==> rows[j].retired == 0
  }

  lemma RestoreUndoesRetire(rows: seq<Row>, q: int)
    requires FreshAfterOldestOpen(rows)
    ensures AfterRestore(AfterRetire(rows, q), RetiredTotal(rows, q)) == rows
  {
    var side, amount, after := NetSide(rows), Amount(rows, q), AfterRetire(rows, q);
    forall j | 0 <= j < |rows|
      ensures Give(after, RetiredTotal(rows, q), j) == Take(rows, side, amount, j)
    {
      GivesBackWhatWasTaken(rows, q, j);
    }
  }

  lemma GivesBackWhatWasTaken(rows: seq<Row>, q: int, j: nat)
    requires FreshAfterOldestOpen(rows) && j < |rows|
    ensures Give(AfterRetire(rows, q), RetiredTotal(rows, q), j) == Take(rows, NetSide(rows), Amount(rows, q), j)
  {
    var side, amount := NetSide(rows), Amount(rows, q);
    RetiredFromAfterRetire(rows, q, j + 1);
    if TakenBefore(rows, side, amount, j + 1) > 0 {
      var i := FirstTaken(rows, side, amount, j + 1);
      NothingRetiredFrom(rows, j + 1);
    }
  }

  /** The oldest row a retirement takes from. */
  lemma {:induction false} FirstTaken(rows: seq<Row>, side: Option<Side>, amount: int, j: nat) returns (i: nat)
    requires j <= |rows| && amount >= 0 && TakenBefore(rows, side, amount, j) > 0
    ensures i < j && Take(rows, side, amount, i) > 0 && TakenBefore(rows, side, amount, i) == 0
  {
    if TakenBefore(rows, side, amount, j - 1) > 0 {
      i := FirstTaken(rows, side, amount, j - 1);
    } else {
      i := j - 1;
    }
  }

  lemma {:induction false} TakenBeforeGrows(rows: seq<Row>, side: Option<Side>, amount: int, i: nat, j: nat)
    requires i <= j <= |rows| && amount >= 0
    ensures TakenBefore(rows, side, amount, i) <= TakenBefore(rows, side, amount, j)
  {
    if i < j {
      TakenBeforeGrows(rows, side, amount, i, j - 1);
    }
  }

  /** The newest of the linked rows from `j` on that have something retired. */
  lemma {:induction false} NewestRetired(rows: seq<Row>, j: nat) returns (k: nat)
    requires j < |rows| && rows[j].linked && rows[j].retired > 0
    ensures j <= k < |rows| && rows[k].linked && rows[k].retired > 0 && RetiredFrom(rows, k + 1) == 0
    decreases |rows| - j
  {
    if m :| j < m < |rows| && rows[m].linked && rows[m].retired > 0 {
      k := NewestRetired(rows, m);
    } else {
      k := j;
      NothingRetiredFrom(rows, j + 1);
    }
  }

  lemma RestoreMissesOlderRetirement(rows: seq<Row>, q: int)
    requires Amount(rows, q) > 0 && !FreshAfterOldestOpen(rows)
    ensures AfterRestore(AfterRetire(rows, q), RetiredTotal(rows, q)) != rows
  {
    var side, amount, after := NetSide(rows), Amount(rows, q), AfterRetire(rows, q);
    var i, j :| 0 <= i < j < |rows| && Absorbs(rows[i], side) && Open(rows[i]) > 0
                && rows[j].linked && rows[j].retired > 0;
    var k := NewestRetired(rows, j);
    TakenBeforeIsCapped(rows, side, amount, i + 1);
    TakenBeforeGrows(rows, side, amount, i + 1, k);
    RetiredFromAfterRetire(rows, q, k + 1);
    assert Give(after, RetiredTotal(rows, q), k) > Take(rows, side, amount, k);
    assert AfterRestore(after, RetiredTotal(rows, q))[k].retired < rows[k].retired;
  }

  /** Giving back what was really retired restores the identical rows if and only if nothing
      newer than the oldest open row of the net's side had been retired before. */
  lemma RestoreUndoesRetireIff(rows: seq<Row>, q: int)
    requires Amount(rows, q) > 0
    ensures AfterRestore(AfterRetire(rows, q), RetiredTotal(rows, q)) == rows <==> FreshAfterOldestOpen(rows)
  {
    if FreshAfterOldestOpen(rows) {
      RestoreUndoesRetire(rows, q);
    } else {
      RestoreMissesOlderRetirement(rows, q);
    }
  }

  /** Every linked row is an own entry row, and there is one: the journal knows the share. */
  predicate Owned(rows: seq<Row>) {
    WellFormed(rows) && HasEntry(rows) && forall i :: 0 <= i < |rows| && rows[i].linked ==> rows[i].entry
  }

  /** Retiring from such a journal lowers its share by the amount asked, up to the whole. */
  lemma RetireKeepsOwned(rows: seq<Row>, q: int)
    requires Owned(rows) && q >= 0
    ensures Owned(AfterRetire(rows, q))
    ensures Abs(Net(AfterRetire(rows, q))) == Abs(Net(rows)) - Min(q, Abs(Net(rows)))
  {
    var i :| 0 <= i < |rows| && rows[i].entry;
    assert AfterRetire(rows, q)[i].entry;
    if q > 0 {
      RetireLowersShareIff(rows, q);
    } else {
      assert AfterRetire(rows, q) == rows;
    }
  }

  // --- a one-sided journal, as an open position of one entry side has ---------

  /** Every row is the bot's own entry on `side`, retired no further than it filled. */
  predicate OneSided(rows: seq<Row>, side: Side) {
    forall i :: 0 <= i < |rows| ==>
      rows[i].linked && rows[i].entry && rows[i].side == side && rows[i].retired <= rows[i].filled
  }

  /** The side all rows are own entries of, if there is one. */
  function SideOfAll(rows: seq<Row>): Option<Side> {
    if rows != [] && OneSided(rows, Buy) then Some(Buy)
    else if rows != [] && OneSided(rows, Sell) then Some(Sell)
    else None
  }

  lemma {:induction false} OneSidedNet(rows: seq<Row>, side: Side)
    requires OneSided(rows, side)
    ensures Net(rows) == if side == Buy then Abs(Net(rows)) else -Abs(Net(rows))
  {
    if rows != [] {
      OneSidedNet(rows[..|rows| - 1], side);
    }
  }

  lemma {:induction false} OneSidedTotals(rows: seq<Row>, side: Side)
    requires OneSided(rows, side)
    ensures Abs(Net(rows)) == FilledTotal(rows) - RetiredFrom(rows, 0)
  {
    if rows != [] {
      var older := rows[..|rows| - 1];
      OneSidedTotals(older, side);
      OneSidedNet(rows, side);
      OneSidedNet(older, side);
      RetiredFromOlder(rows, 0);
    }
  }

  function FilledTotal(rows: seq<Row>): int {
    if rows == [] then 0 else FilledTotal(rows[..|rows| - 1]) + rows[|rows| - 1].filled
  }

  lemma {:induction false} RetiredFromOlder(rows: seq<Row>, j: nat)
    requires j < |rows|
    ensures var newest := rows[|rows| - 1];
            RetiredFrom(rows, j) ==
            RetiredFrom(rows[..|rows| - 1], j) + if newest.linked then newest.retired else 0
    decreases |rows| - j
  {
    if j < |rows| - 1 {
      RetiredFromOlder(rows, j + 1);
    }
  }

  lemma {:induction false} FilledTotalSame(rows: seq<Row>, other: seq<Row>)
    requires |rows| == |other| && forall i :: 0 <= i < |rows| ==> rows[i].filled == other[i].filled
    ensures FilledTotal(rows) == FilledTotal(other)
  {
    if rows != [] {
      FilledTotalSame(rows[..|rows| - 1], other[..|other| - 1]);
    }
  }

  lemma {:induction false} RetiredFromAfterRestore(rows: seq<Row>, q: int, j: nat)
    requires j <= |rows| && q >= 0
    ensures RetiredFrom(AfterRestore(rows, q), j) == Max(0, RetiredFrom(rows, j) - q)
    decreases |rows| - j
  {
    if j < |rows| {
      RetiredFromAfterRestore(rows, q, j + 1);
    }
  }

  /** Restoring raises a one-sided share by what it gave back: `q`, up to all that was retired. */
  lemma RestoreRaisesShare(rows: seq<Row>, side: Side, q: int)
    requires OneSided(rows, side) && q >= 0
    ensures OneSided(AfterRestore(rows, q), side)
    ensures Abs(Net(AfterRestore(rows, q))) == Abs(Net(rows)) + Min(q, RetiredFrom(rows, 0))
    ensures RetiredFrom(AfterRestore(rows, q), 0) == RetiredFrom(rows, 0) - Min(q, RetiredFrom(rows, 0))
  {
    OneSidedTotals(rows, side);
    OneSidedTotals(AfterRestore(rows, q), side);
    FilledTotalSame(rows, AfterRestore(rows, q));
    RetiredFromAfterRestore(rows, q, 0);
  }

  /** Retiring from a one-sided journal keeps it one-sided and moves the amount into the
      retired column. */
  lemma RetireKeepsOneSided(rows: seq<Row>, side: Side, q: int)
    requires OneSided(rows, side) && rows != [] && q >= 0
    ensures OneSided(AfterRetire(rows, q), side)
    ensures Abs(Net(AfterRetire(rows, q))) == Abs(Net(rows)) - Min(q, Abs(Net(rows)))
    ensures RetiredFrom(AfterRetire(rows, q), 0) == RetiredFrom(rows, 0) + Min(q, Abs(Net(rows)))
  {
    assert rows[0].entry;
    OneSidedNet(rows, side);
    OneSidedTotals(rows, side);
    OneSidedTotals(AfterRetire(rows, q), side);
    FilledTotalSame(rows, AfterRetire(rows, q));
    RetiredFromAfterRetire(rows, q, 0);
    TakenBeforeIsCapped(rows, NetSide(rows), Amount(rows, q), |rows|);
    NetBoundedByOpen(rows, |rows|);
    assert rows[..|rows|] == rows;
  }
}

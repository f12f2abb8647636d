/** Another party's close judged while own entries are in flight (`_judge_close_fill`,
`_settle_entry_answer`, `_judge_held_close`).

Whether such a close took the bot's share can depend on entries the venue has not answered.  Its
verdict waits for their answers; it is proved independent of the order they come in, given exactly
once, and a report exactly where the close took the share however the unknown entries went.
*/
module HeldCloses {
  import opened Common
  import opened ShareBounds

  /** What the venue answered to an own entry: provably refused, lost, or an acknowledgement with
      the entry's cumulative fill, the position it executed on and its deal's time. */
  datatype Answer = Refused | Lost | Acknowledged(executed: nat, position: int, dealMs: Option<int>)

  /** What an answered entry added to the net before the close: a known part, or one that may or
      may not have come before it. */
  datatype Contribution = Known(volume: int) | Perhaps(volume: int)

  datatype Verdict = Report | Undecided | OthersOnly

  /** A held close.  `waiting` maps each unanswered entry to its signed volume, `counted` to what
      the journal already counted of it. */
  datatype HeldClose = HeldClose(
    id: int,
    position: int,
    executedMs: Option<int>,
    netLow: int,
    netHigh: int,
    venueAfter: nat,
    fillQty: nat,
    waiting: map<int, int>,
    counted: map<int, nat>,
    applied: int,
    unknown: seq<int>)

  function ContributionOf(h: HeldClose, coid: int, volume: int, answer: Answer): Contribution {
    match answer
    case Refused => Known(0)
    case Lost => Perhaps(volume)
    case Acknowledged(executed, position, dealMs) =>
      var filled := executed - if coid in h.counted then h.counted[coid] else 0;
      if filled <= 0 || position != h.position then Known(0)
      else
        var signed := if volume < 0 then -Min(filled, -volume) else Min(filled, volume);
        if dealMs.None? || h.executedMs.None? || dealMs.value == h.executedMs.value then Perhaps(signed)
        else if dealMs.value < h.executedMs.value then Known(signed)
        else Known(0)
  }

  function Absorb(h: HeldClose, coid: int, answer: Answer): HeldClose {
    if coid !in h.waiting then h
    else
      var rest := h.(waiting := h.waiting - {coid});
      match ContributionOf(h, coid, h.waiting[coid], answer)
      case Known(volume) => rest.(applied := h.applied + volume)
      case Perhaps(volume) => rest.(unknown := h.unknown + [volume])
  }

  function FinalBounds(h: HeldClose): Bounds {
    BoundsFor(h.netLow + h.applied + Reach(h.unknown, false), h.netHigh + h.applied + Reach(h.unknown, true))
  }

  function Short(h: HeldClose, share: int): int {
    Min(h.fillQty, Max(0, share - h.venueAfter))
  }

  function Judge(h: HeldClose): Verdict {
    var b := FinalBounds(h);
    if Short(h, b.low) > 0 then Report else if Short(h, b.high) > 0 then Undecided else OthersOnly
  }

  // --- the code ----------------------------------------------------------------

  /** How often the close `id` is held, and judged. */
  function TimesHeld(held: seq<HeldClose>, id: int): nat {
    if held == [] then 0
    else TimesHeld(held[..|held| - 1], id) + if held[|held| - 1].id == id then 1 else 0
  }

  function TimesJudged(judged: seq<(int, Verdict)>, id: int): nat {
    if judged == [] then 0
    else TimesJudged(judged[..|judged| - 1], id) + if judged[|judged| - 1].0 == id then 1 else 0
  }

  lemma {:induction false} TimesHeldAppend(held: seq<HeldClose>, more: seq<HeldClose>, id: int)
    ensures TimesHeld(held + more, id) == TimesHeld(held, id) + TimesHeld(more, id)
  {
    if more == [] {
      assert held + more == held;
    } else {
      var n := |more| - 1;
      TimesHeldAppend(held, more[..n], id);
      assert (held + more)[..|held| + n] == held + more[..n];
    }
  }

  lemma {:induction false} TimesJudgedAppend(judged: seq<(int, Verdict)>, more: seq<(int, Verdict)>, id: int)
    ensures TimesJudged(judged + more, id) == TimesJudged(judged, id) + TimesJudged(more, id)
  {
    if more == [] {
      assert judged + more == judged;
    } else {
      var n := |more| - 1;
      TimesJudgedAppend(judged, more[..n], id);
      assert (judged + more)[..|judged| + n] == judged + more[..n];
    }
  }

  lemma SplitStep(waiting: seq<HeldClose>, judged: seq<(int, Verdict)>, h: HeldClose, verdict: Verdict, id: int)
    ensures TimesHeld(waiting + if Waits(h) then [h] else [], id)
            + TimesJudged(judged + if Waits(h) then [] else [(h.id, verdict)], id)
            == TimesHeld(waiting, id) + TimesJudged(judged, id) + if h.id == id then 1 else 0
  {
    TimesHeldAppend(waiting, if Waits(h) then [h] else [], id);
    TimesJudgedAppend(judged, if Waits(h) then [] else [(h.id, verdict)], id);
  }

  lemma AbsorbKeepsId(h: HeldClose, coid: int, answer: Answer)
    ensures Absorb(h, coid, answer).id == h.id
  {
  }

  /** An answer splits the held closes: each goes on waiting or is judged, never both. */
  lemma {:induction false} JudgedOnce(held: seq<HeldClose>, coid: int, answer: Answer, id: int)
    ensures TimesHeld(StillHeld(held, coid, answer), id) + TimesJudged(NewVerdicts(held, coid, answer), id)
            == TimesHeld(held, id)
  {
    if held != [] {
      var n := |held| - 1;
      JudgedOnce(held[..n], coid, answer, id);
      var h := Absorb(held[n], coid, answer);
      AbsorbKeepsId(held[n], coid, answer);
      SplitStep(StillHeld(held[..n], coid, answer), NewVerdicts(held[..n], coid, answer), h, Judge(h), id);
    }
  }

  lemma {:induction false} StillHeldWaits(held: seq<HeldClose>, coid: int, answer: Answer)
    ensures forall i :: 0 <= i < |StillHeld(held, coid, answer)| ==> Waits(StillHeld(held, coid, answer)[i])
  {
    if held != [] {
      StillHeldWaits(held[..|held| - 1], coid, answer);
    }
  }

  lemma SplitOne(held: seq<HeldClose>, i: nat, coid: int, answer: Answer)
    requires i < |held|
    ensures var h := Absorb(held[i], coid, answer);
            && StillHeld(held[..i + 1], coid, answer) ==
               StillHeld(held[..i], coid, answer) + (if Waits(h) then [h] else [])
            && NewVerdicts(held[..i + 1], coid, answer) ==
               NewVerdicts(held[..i], coid, answer) + if Waits(h) then [] else [(h.id, Judge(h))]
  {
    assert held[..i + 1][..i] == held[..i];
  }

  lemma AllAccountedFor(held: seq<HeldClose>, judged: seq<(int, Verdict)>, coid: int, answer: Answer)
    ensures forall id ::
              TimesHeld(StillHeld(held, coid, answer), id) + TimesJudged(judged + NewVerdicts(held, coid, answer), id)
              == TimesHeld(held, id) + TimesJudged(judged, id)
  {
    forall id
      ensures TimesHeld(StillHeld(held, coid, answer), id) + TimesJudged(judged + NewVerdicts(held, coid, answer), id)
              == TimesHeld(held, id) + TimesJudged(judged, id)
    {
      JudgedOnce(held, coid, answer, id);
      TimesJudgedAppend(judged, NewVerdicts(held, coid, answer), id);
    }
  }

  predicate AllWait(held: seq<HeldClose>) {
    forall i :: 0 <= i < |held| ==> Waits(held[i])
  }

  ghost predicate EachOnce(held: seq<HeldClose>, judged: seq<(int, Verdict)>, ids: set<int>) {
    forall id :: TimesHeld(held, id) + TimesJudged(judged, id) == if id in ids then 1 else 0
  }

  lemma HeldOnce(held: seq<HeldClose>, judged: seq<(int, Verdict)>, ids: set<int>, h: HeldClose)
    requires AllWait(held) && EachOnce(held, judged, ids) && Waits(h) && h.id !in ids
    ensures AllWait(held + [h]) && EachOnce(held + [h], judged, ids + {h.id})
  {
    forall id
      ensures TimesHeld(held + [h], id) == TimesHeld(held, id) + if h.id == id then 1 else 0
    {
      assert (held + [h])[..|held|] == held;
    }
  }

  lemma AnswerKeepsOnce(
    held: seq<HeldClose>, judged: seq<(int, Verdict)>, ids: set<int>, coid: int, answer: Answer)
    requires EachOnce(held, judged, ids)
    ensures AllWait(StillHeld(held, coid, answer))
    ensures EachOnce(StillHeld(held, coid, answer), judged + NewVerdicts(held, coid, answer), ids)
  {
    StillHeldWaits(held, coid, answer);
    AllAccountedFor(held, judged, coid, answer);
  }

  /** The loop over the waiting closes. */
  method Split(held: seq<HeldClose>, coid: int, answer: Answer)
    returns (waiting: seq<HeldClose>, verdicts: seq<(int, Verdict)>)
    ensures waiting == StillHeld(held, coid, answer) && verdicts == NewVerdicts(held, coid, answer)
  {
    waiting, verdicts := [], [];
    for i := 0 to |held|
      invariant waiting == StillHeld(held[..i], coid, answer)
      invariant verdicts == NewVerdicts(held[..i], coid, answer)
    {
      var h := Absorb(held[i], coid, answer);
      SplitOne(held, i, coid, answer);
      if Waits(h) {
        waiting := waiting + [h];
      } else {
        verdicts := verdicts + [(h.id, Judge(h))];
      }
    }
    assert held[..|held|] == held;
  }

  class Judgements {
    var held: seq<HeldClose>
    var judged: seq<(int, Verdict)>
    /** The ids of all closes ever held. */
    ghost var everHeld: set<int>

    constructor ()
      ensures held == [] && judged == [] && everHeld == {} && Valid()
    {
      held, judged, everHeld := [], [], {};
    }

    /** Every held close still waits for someone, and every close ever held is either waiting or
        judged, exactly once. */
    ghost predicate Valid()
      reads this
    {
      AllWait(held) && EachOnce(held, judged, everHeld)
    }

    method Hold(h: HeldClose)
      requires Valid() && h.id !in everHeld && Waits(h)
      modifies this
      ensures Valid() && held == old(held) + [h] && judged == old(judged)
      ensures everHeld == old(everHeld) + {h.id}
    {
      HeldOnce(held, judged, everHeld, h);
      held := held + [h];
      everHeld := everHeld + {h.id};
    }

    /** `_settle_entry_answer`: each waiting close absorbs the answer; one that waits for nobody
        any more is taken off the list and judged. */
    method SettleEntryAnswer(coid: int, answer: Answer)
      requires Valid()
      modifies this
      ensures Valid() && everHeld == old(everHeld)
      ensures held == StillHeld(old(held), coid, answer)
      ensures judged == old(judged) + NewVerdicts(old(held), coid, answer)
    {
      AnswerKeepsOnce(held, judged, everHeld, coid, answer);
      var waiting, verdicts := Split(held, coid, answer);
      held, judged := waiting, judged + verdicts;
    }

    /** The answers as they come in; `RunsJudgeAlike` says what that gives. */
    method SettleEntryAnswers(order: seq<int>, answers: int -> Answer)
      requires Valid()
      modifies this
      ensures Valid() && everHeld == old(everHeld)
      ensures held == HeldAfter(old(held), order, answers)
      ensures judged == old(judged) + JudgedAfter(old(held), order, answers)
    {
      if order != [] {
        var n := |order| - 1;
        SettleEntryAnswers(order[..n], answers);
        SettleEntryAnswer(order[n], answers(order[n]));
      }
    }
  }

  predicate Waits(h: HeldClose) {
    |h.waiting| > 0
  }

  function StillHeld(held: seq<HeldClose>, coid: int, answer: Answer): seq<HeldClose> {
    if held == [] then []
    else
      var h := Absorb(held[|held| - 1], coid, answer);
      StillHeld(held[..|held| - 1], coid, answer) + if Waits(h) then [h] else []
  }

  function NewVerdicts(held: seq<HeldClose>, coid: int, answer: Answer): seq<(int, Verdict)> {
    if held == [] then []
    else
      var h := Absorb(held[|held| - 1], coid, answer);
      NewVerdicts(held[..|held| - 1], coid, answer) + if Waits(h) then [] else [(h.id, Judge(h))]
  }

  // --- the verdict does not depend on the order of the answers -------------------

  /** The answers absorbed in the given order; `answers` tells what each entry was answered. */
  function AbsorbAll(h: HeldClose, order: seq<int>, answers: int -> Answer): HeldClose {
    if order == [] then h
    else Absorb(AbsorbAll(h, order[..|order| - 1], answers), order[|order| - 1], answers(order[|order| - 1]))
  }

  /** What one answered entry adds to the low (or high) end of the net. */
  function EndShift(h: HeldClose, coid: int, answers: int -> Answer, up: bool): int {
    if coid !in h.waiting then 0
    else
      match ContributionOf(h, coid, h.waiting[coid], answers(coid))
      case Known(volume) => volume
      case Perhaps(volume) => if up then Max(0, volume) else Min(0, volume)
  }

  function EndShifts(h: HeldClose, order: seq<int>, answers: int -> Answer, up: bool): int {
    if order == [] then 0
    else EndShifts(h, order[..|order| - 1], answers, up) + EndShift(h, order[|order| - 1], answers, up)
  }

  lemma ElementsPush(order: seq<int>)
    requires order != []
    ensures Elements(order) == Elements(order[..|order| - 1]) + {order[|order| - 1]}
  {
  }

  /** One answer moves an end of the net by the entry's shift, judged as if it came first. */
  lemma AbsorbShifts(h: HeldClose, now: HeldClose, coid: int, answers: int -> Answer, up: bool)
    requires now == h.(waiting := now.waiting, applied := now.applied, unknown := now.unknown)
    requires coid in now.waiting <==> coid in h.waiting
    requires coid in now.waiting ==> now.waiting[coid] == h.waiting[coid]
    ensures var after := Absorb(now, coid, answers(coid));
            && after.applied + Reach(after.unknown, up)
               == now.applied + Reach(now.unknown, up) + EndShift(h, coid, answers, up)
            && after.waiting == now.waiting - {coid}
            && after == h.(waiting := after.waiting, applied := after.applied, unknown := after.unknown)
  {
    if coid in now.waiting {
      var c := ContributionOf(now, coid, now.waiting[coid], answers(coid));
      if c.Perhaps? {
        ReachPush(now.unknown, c.volume, up);
      }
    } else {
      assert now.waiting - {coid} == now.waiting;
    }
  }

  /** Absorbing answers moves both ends of the net by the sum of the entries' shifts. */
  lemma {:induction false} AbsorbAllSums(h: HeldClose, order: seq<int>, answers: int -> Answer, up: bool)
    requires Distinct(order)
    ensures var after := AbsorbAll(h, order, answers);
            && after.applied + Reach(after.unknown, up)
               == h.applied + Reach(h.unknown, up) + EndShifts(h, order, answers, up)
            && after.waiting == h.waiting - Elements(order)
            && after == h.(waiting := after.waiting, applied := after.applied, unknown := after.unknown)
  {
    if order == [] {
      assert h.waiting - Elements(order) == h.waiting;
    } else {
      var n := |order| - 1;
      AbsorbAllSums(h, order[..n], answers, up);
      assert order[n] !in Elements(order[..n]);
      AbsorbShifts(h, AbsorbAll(h, order[..n], answers), order[n], answers, up);
      ElementsPush(order);
    }
  }

  lemma {:induction false} EndShiftsWithout(h: HeldClose, q: seq<int>, k: nat, answers: int -> Answer, up: bool)
    requires k < |q|
    ensures EndShifts(h, q, answers, up) ==
            EndShifts(h, q[..k] + q[k + 1..], answers, up) + EndShift(h, q[k], answers, up)
    decreases |q|
  {
    var n := |q| - 1;
    if k < n {
      EndShiftsWithout(h, q[..n], k, answers, up);
      var rest := q[..k] + q[k + 1..];
      assert rest[..|rest| - 1] == q[..n][..k] + q[..n][k + 1..];
    } else {
      assert q[..k] + q[k + 1..] == q[..n];
    }
  }

  lemma ElementsWithout(q: seq<int>, k: nat)
    requires Distinct(q) && k < |q|
    ensures Elements(q[..k] + q[k + 1..]) == Elements(q) - {q[k]}
    ensures Distinct(q[..k] + q[k + 1..])
  {
  }

  /** A sum over distinct entries does not depend on their order. */
  lemma {:induction false} EndShiftsPermute(h: HeldClose, p: seq<int>, q: seq<int>, answers: int -> Answer, up: bool)
    requires Distinct(p) && Distinct(q) && Elements(p) == Elements(q)
    ensures EndShifts(h, p, answers, up) == EndShifts(h, q, answers, up)
  {
    if p == [] {
      if q != [] {
        ElementsPush(q);
      }
    } else {
      var n := |p| - 1;
      ElementsPush(p);
      assert p[n] in Elements(q) && p[n] !in Elements(p[..n]);
      var k :| 0 <= k < |q| && q[k] == p[n];
      ElementsWithout(q, k);
      EndShiftsPermute(h, p[..n], q[..k] + q[k + 1..], answers, up);
      EndShiftsWithout(h, q, k, answers, up);
    }
  }

  /** Any two orders of answers that answer every waited-for entry give the same verdict. */
  lemma VerdictIsOrderIndependent(h: HeldClose, p: seq<int>, q: seq<int>, answers: int -> Answer)
    requires Distinct(p) && Distinct(q) && h.waiting.Keys <= Elements(p) == Elements(q)
    ensures AbsorbAll(h, p, answers).waiting == map[] == AbsorbAll(h, q, answers).waiting
    ensures FinalBounds(AbsorbAll(h, p, answers)) == FinalBounds(AbsorbAll(h, q, answers))
    ensures Judge(AbsorbAll(h, p, answers)) == Judge(AbsorbAll(h, q, answers))
  {
    EndShiftsPermute(h, p, q, answers, false);
    EndShiftsPermute(h, p, q, answers, true);
    AbsorbAllSums(h, p, answers, false);
    AbsorbAllSums(h, q, answers, false);
    AbsorbAllSums(h, p, answers, true);
    AbsorbAllSums(h, q, answers, true);
  }

  /** The closes still held after the answers in the given order. */
  function HeldAfter(held: seq<HeldClose>, order: seq<int>, answers: int -> Answer): seq<HeldClose> {
    if order == [] then held
    else StillHeld(HeldAfter(held, order[..|order| - 1], answers), order[|order| - 1], answers(order[|order| - 1]))
  }

  /** The verdicts the answers in the given order gave. */
  function JudgedAfter(held: seq<HeldClose>, order: seq<int>, answers: int -> Answer): seq<(int, Verdict)> {
    if order == [] then []
    else
      JudgedAfter(held, order[..|order| - 1], answers)
      + NewVerdicts(HeldAfter(held, order[..|order| - 1], answers), order[|order| - 1],
                    answers(order[|order| - 1]))
  }

  /** `verdict` is that of a close among `held` that the answer leaves waiting for nobody. */
  predicate JudgedBy(held: seq<HeldClose>, coid: int, answer: Answer, verdict: (int, Verdict)) {
    exists h :: h in held && !Waits(Absorb(h, coid, answer))
                && verdict == (h.id, Judge(Absorb(h, coid, answer)))
  }

  predicate HeldBy(held: seq<HeldClose>, coid: int, answer: Answer, after: HeldClose) {
    exists h :: h in held && Waits(after) && after == Absorb(h, coid, answer)
  }

  lemma {:induction false} NewVerdictsAre(held: seq<HeldClose>, coid: int, answer: Answer, verdict: (int, Verdict))
    ensures verdict in NewVerdicts(held, coid, answer) <==> JudgedBy(held, coid, answer, verdict)
  {
    if held != [] {
      var n := |held| - 1;
      var h := Absorb(held[n], coid, answer);
      NewVerdictsAre(held[..n], coid, answer, verdict);
      OneMoreJudged(held[..n], held[n], coid, answer, verdict);
      assert held == held[..n] + [held[n]];
      assert NewVerdicts(held, coid, answer)
          == NewVerdicts(held[..n], coid, answer) + if Waits(h) then [] else [(h.id, Judge(h))];
    }
  }

  lemma OneMoreJudged(held: seq<HeldClose>, h: HeldClose, coid: int, answer: Answer, verdict: (int, Verdict))
    ensures JudgedBy(held + [h], coid, answer, verdict) <==>
            || JudgedBy(held, coid, answer, verdict)
            || (!Waits(Absorb(h, coid, answer)) && verdict == (h.id, Judge(Absorb(h, coid, answer))))
  {
    assert forall x :: x in held + [h] <==> x in held || x == h;
  }

  lemma {:induction false} StillHeldAre(held: seq<HeldClose>, coid: int, answer: Answer, after: HeldClose)
    ensures after in StillHeld(held, coid, answer) <==> HeldBy(held, coid, answer, after)
  {
    if held != [] {
      var n := |held| - 1;
      StillHeldAre(held[..n], coid, answer, after);
      assert held == held[..n] + [held[n]];
      assert forall h :: h in held <==> h in held[..n] || h == held[n];
    }
  }

  predicate HeldThrough(held: seq<HeldClose>, order: seq<int>, answers: int -> Answer, after: HeldClose) {
    exists h :: h in held && Waits(after) && after == AbsorbAll(h, order, answers)
  }

  predicate JudgedThrough(
    held: seq<HeldClose>, order: seq<int>, answers: int -> Answer, verdict: (int, Verdict)) {
    exists h :: h in held && !Waits(AbsorbAll(h, order, answers))
                && verdict == (h.id, Judge(AbsorbAll(h, order, answers)))
  }

  /** A close is still held exactly while the answers it absorbed leave it waiting. */
  lemma {:induction false} HeldAfterAre(
    held: seq<HeldClose>, order: seq<int>, answers: int -> Answer, after: HeldClose)
    requires AllWait(held)
    ensures after in HeldAfter(held, order, answers) <==> HeldThrough(held, order, answers, after)
  {
    if order != [] {
      var n := |order| - 1;
      var before := HeldAfter(held, order[..n], answers);
      StillHeldAre(before, order[n], answers(order[n]), after);
      if after in HeldAfter(held, order, answers) {
        var now :| now in before && Waits(after) && after == Absorb(now, order[n], answers(order[n]));
        HeldAfterAre(held, order[..n], answers, now);
      }
      if HeldThrough(held, order, answers, after) {
        var h :| h in held && Waits(after) && after == AbsorbAll(h, order, answers);
        HeldAfterAre(held, order[..n], answers, AbsorbAll(h, order[..n], answers));
        assert HeldThrough(held, order[..n], answers, AbsorbAll(h, order[..n], answers));
      }
    }
  }

  /** The verdicts given are exactly those of the closes the answers leave waiting for nobody, each
      judged as all the answers leave it: the ones after its last change nothing. */
  lemma {:induction false} JudgedAfterAre(
    held: seq<HeldClose>, order: seq<int>, answers: int -> Answer, verdict: (int, Verdict))
    requires AllWait(held)
    ensures verdict in JudgedAfter(held, order, answers) <==> JudgedThrough(held, order, answers, verdict)
  {
    if order != [] {
      var n := |order| - 1;
      var before, coid, answer := HeldAfter(held, order[..n], answers), order[n], answers(order[n]);
      JudgedAfterAre(held, order[..n], answers, verdict);
      NewVerdictsAre(before, coid, answer, verdict);
      if JudgedBy(before, coid, answer, verdict) {
        var now :| now in before && !Waits(Absorb(now, coid, answer))
                   && verdict == (now.id, Judge(Absorb(now, coid, answer)));
        HeldAfterAre(held, order[..n], answers, now);
        var h :| h in held && now == AbsorbAll(h, order[..n], answers);
        AbsorbAllKeepsId(h, order[..n], answers);
        assert AbsorbAll(h, order, answers) == Absorb(now, coid, answer);
      }
      if JudgedThrough(held, order[..n], answers, verdict) {
        var h :| h in held && !Waits(AbsorbAll(h, order[..n], answers))
                 && verdict == (h.id, Judge(AbsorbAll(h, order[..n], answers)));
        assert AbsorbAll(h, order, answers) == AbsorbAll(h, order[..n], answers);
      }
      if JudgedThrough(held, order, answers, verdict) {
        var h :| h in held && !Waits(AbsorbAll(h, order, answers))
                 && verdict == (h.id, Judge(AbsorbAll(h, order, answers)));
        var now := AbsorbAll(h, order[..n], answers);
        AbsorbAllKeepsId(h, order[..n], answers);
        HeldAfterAre(held, order[..n], answers, now);
        assert Waits(now) ==> HeldThrough(held, order[..n], answers, now);
      }
    }
  }

  lemma {:induction false} AbsorbAllKeepsId(h: HeldClose, order: seq<int>, answers: int -> Answer)
    ensures AbsorbAll(h, order, answers).id == h.id
  {
    if order != [] {
      AbsorbAllKeepsId(h, order[..|order| - 1], answers);
    }
  }

  predicate AnswersAll(held: seq<HeldClose>, order: seq<int>) {
    Distinct(order) && forall i :: 0 <= i < |held| ==> held[i].waiting.Keys <= Elements(order)
  }

  /** Any two runs of answers that answer every entry waited for judge every held close, and give the
      same verdicts. */
  lemma RunsJudgeAlike(held: seq<HeldClose>, p: seq<int>, q: seq<int>, answers: int -> Answer)
    requires AllWait(held) && AnswersAll(held, p) && AnswersAll(held, q) && Elements(p) == Elements(q)
    ensures HeldAfter(held, p, answers) == [] == HeldAfter(held, q, answers)
    ensures forall v :: v in JudgedAfter(held, p, answers) <==> v in JudgedAfter(held, q, answers)
  {
    NothingHeld(held, p, answers);
    NothingHeld(held, q, answers);
    forall v
      ensures v in JudgedAfter(held, p, answers) <==> v in JudgedAfter(held, q, answers)
    {
      JudgedAfterAre(held, p, answers, v);
      JudgedAfterAre(held, q, answers, v);
      forall h | h in held
        ensures !Waits(AbsorbAll(h, p, answers)) && !Waits(AbsorbAll(h, q, answers))
        ensures Judge(AbsorbAll(h, p, answers)) == Judge(AbsorbAll(h, q, answers))
      {
        VerdictIsOrderIndependent(h, p, q, answers);
      }
    }
  }

  lemma NothingHeld(held: seq<HeldClose>, order: seq<int>, answers: int -> Answer)
    requires AllWait(held) && AnswersAll(held, order)
    ensures HeldAfter(held, order, answers) == []
  {
    var after := HeldAfter(held, order, answers);
    if after != [] {
      HeldAfterAre(held, order, answers, after[0]);
      var h :| h in held && Waits(after[0]) && after[0] == AbsorbAll(h, order, answers);
      AbsorbAllSums(h, order, answers, true);
      assert false;
    }
  }

  // --- the verdict is sound -------------------------------------------------------

  /** The open position a close left: its side and volume, `None` when it is gone. */
  datatype Venue = Gone | Open(side: Side, volume: nat)

  /** `_venue_after`: the volume left on the bot's side; all of it when the side is undecided. */
  function VenueAfter(venue: Venue, side: Option<Side>): nat {
    match venue
    case Gone => 0
    case Open(venueSide, volume) => if side.Some? && side.value != venueSide then 0 else volume
  }

  /** What the close really took of a share of signed size `net`: what it left of the position on that side
      is less than the share. */
  function ReallyTook(h: HeldClose, venue: Venue, net: int): int {
    var left := if venue.Open? && venue.side == (if net > 0 then Buy else Sell) then venue.volume else 0;
    Min(h.fillQty, Max(0, Abs(net) - left))
  }

  /** A net the answered close may have met: somewhere in its interval, with the known parts and
      any part of the unknown ones. */
  ghost predicate PossibleNet(h: HeldClose, net: int) {
    exists parts :: PartsOf(parts, h.unknown)
                    && h.netLow <= net - h.applied - Sum(parts) <= h.netHigh
  }

  function LowEnd(h: HeldClose): int {
    h.netLow + h.applied + Reach(h.unknown, false)
  }

  function HighEnd(h: HeldClose): int {
    h.netHigh + h.applied + Reach(h.unknown, true)
  }

  lemma PossibleNetsAreInterval(h: HeldClose, net: int)
    requires h.netLow <= h.netHigh
    ensures PossibleNet(h, net) <==> LowEnd(h) <= net <= HighEnd(h)
  {
    if PossibleNet(h, net) {
      var parts :| PartsOf(parts, h.unknown) && h.netLow <= net - h.applied - Sum(parts) <= h.netHigh;
      PartsStayInReach(parts, h.unknown);
    }
    ReachOrdered(h.unknown);
    if LowEnd(h) <= net <= HighEnd(h) {
      var base := Max(h.netLow, Min(h.netHigh, net - h.applied));
      var parts := PartsReach(h.unknown, net - h.applied - base);
      assert net - h.applied - Sum(parts) == base;
    }
  }

  /** `volumes` are the signed volumes waited for, in the given order. */
  ghost predicate WaitsFor(h: HeldClose, volumes: seq<int>, order: seq<int>) {
    && |volumes| == |order| && Distinct(order) && Elements(order) == h.waiting.Keys
    && forall i :: 0 <= i < |order| ==> order[i] in h.waiting && volumes[i] == h.waiting[order[i]]
  }

  /** An entry never adds more than its remaining volume, on its side. */
  lemma {:induction false} ShiftsWithinReach(h: HeldClose, order: seq<int>, volumes: seq<int>, answers: int -> Answer)
    requires |volumes| == |order|
    requires forall i :: 0 <= i < |order| ==> order[i] in h.waiting && volumes[i] == h.waiting[order[i]]
    ensures Reach(volumes, false) <= EndShifts(h, order, answers, false)
    ensures EndShifts(h, order, answers, false) <= EndShifts(h, order, answers, true) <= Reach(volumes, true)
  {
    if order != [] {
      var n := |order| - 1;
      ShiftsWithinReach(h, order[..n], volumes[..n], answers);
    }
  }

  /** The bounds the close was held with: its net interval, widened by every entry waited for. */
  function BoundsWhenHeld(h: HeldClose, volumes: seq<int>): Bounds {
    BoundsFor(h.netLow + Reach(volumes, false), h.netHigh + Reach(volumes, true))
  }

  /** A close as it is held: its net interval, no answer yet, and the venue volume taken for the
      side its bounds decide. */
  ghost predicate JustHeld(h: HeldClose, order: seq<int>, volumes: seq<int>, venue: Venue) {
    && h.netLow <= h.netHigh && h.applied == 0 && h.unknown == [] && h.fillQty > 0
    && WaitsFor(h, volumes, order)
    && h.venueAfter == VenueAfter(venue, BoundsWhenHeld(h, volumes).side)
  }

  /** Answers only narrow the interval, so a side decided when the close was held cannot flip, and
      the venue volume taken then is never less than what the real side would have left. */
  lemma SideCannotFlip(
    h: HeldClose, order: seq<int>, volumes: seq<int>, answers: int -> Answer, venue: Venue, net: int)
    requires JustHeld(h, order, volumes, venue) && PossibleNet(AbsorbAll(h, order, answers), net)
    ensures BoundsWhenHeld(h, volumes).side.Some? && net != 0 ==> SideOf(net) == BoundsWhenHeld(h, volumes).side
    ensures VenueAfter(venue, SideOf(net)) <= h.venueAfter || net == 0
  {
    AbsorbAllSums(h, order, answers, false);
    AbsorbAllSums(h, order, answers, true);
    ShiftsWithinReach(h, order, volumes, answers);
    PossibleNetsAreInterval(AbsorbAll(h, order, answers), net);
  }

  lemma AbsorbAllInterval(h: HeldClose, order: seq<int>, volumes: seq<int>, answers: int -> Answer, venue: Venue)
    requires JustHeld(h, order, volumes, venue)
    ensures var after := AbsorbAll(h, order, answers);
            && LowEnd(after) <= HighEnd(after)
            && FinalBounds(after) == BoundsFor(LowEnd(after), HighEnd(after))
            && after.venueAfter == h.venueAfter && after.fillQty == h.fillQty
            && after.netLow == h.netLow && after.netHigh == h.netHigh
  {
    AbsorbAllSums(h, order, answers, false);
    AbsorbAllSums(h, order, answers, true);
    ShiftsWithinReach(h, order, volumes, answers);
  }

  /** A report means the close took the bot's share however the unknown entries went. */
  lemma ReportIsSound(
    h: HeldClose, order: seq<int>, volumes: seq<int>, answers: int -> Answer, venue: Venue, net: int)
    requires JustHeld(h, order, volumes, venue) && Judge(AbsorbAll(h, order, answers)) == Report
    requires PossibleNet(AbsorbAll(h, order, answers), net)
    ensures ReallyTook(h, venue, net) >= Short(h, FinalBounds(AbsorbAll(h, order, answers)).low) > 0
  {
    var after := AbsorbAll(h, order, answers);
    AbsorbAllInterval(h, order, volumes, answers, venue);
    BoundsAreExact(LowEnd(after), HighEnd(after));
    PossibleNetsAreInterval(after, net);
    SideCannotFlip(h, order, volumes, answers, venue, net);
  }

  lemma DecidedSideTakes(
    h: HeldClose, order: seq<int>, volumes: seq<int>, answers: int -> Answer, venue: Venue, net: int)
    requires JustHeld(h, order, volumes, venue) && BoundsWhenHeld(h, volumes).side.Some?
    requires PossibleNet(AbsorbAll(h, order, answers), net)
    ensures ReallyTook(h, venue, net) == Short(h, Abs(net))
    ensures var b := FinalBounds(AbsorbAll(h, order, answers)); b.low <= Abs(net) <= b.high
  {
    var after := AbsorbAll(h, order, answers);
    AbsorbAllInterval(h, order, volumes, answers, venue);
    BoundsAreExact(LowEnd(after), HighEnd(after));
    PossibleNetsAreInterval(after, net);
    SideCannotFlip(h, order, volumes, answers, venue, net);
  }

  lemma ExtremeNets(h: HeldClose, order: seq<int>, volumes: seq<int>, answers: int -> Answer, venue: Venue)
    returns (least: int, most: int)
    requires JustHeld(h, order, volumes, venue)
    ensures var after := AbsorbAll(h, order, answers);
            && PossibleNet(after, least) && Abs(least) == FinalBounds(after).low
            && PossibleNet(after, most) && Abs(most) == FinalBounds(after).high
  {
    var after := AbsorbAll(h, order, answers);
    AbsorbAllInterval(h, order, volumes, answers, venue);
    BoundsAreExact(LowEnd(after), HighEnd(after));
    least :| LowEnd(after) <= least <= HighEnd(after) && Abs(least) == FinalBounds(after).low;
    most :| LowEnd(after) <= most <= HighEnd(after) && Abs(most) == FinalBounds(after).high;
    PossibleNetsAreInterval(after, least);
    PossibleNetsAreInterval(after, most);
  }

  lemma TakesBetween(
    h: HeldClose, order: seq<int>, volumes: seq<int>, answers: int -> Answer, venue: Venue, net: int)
    requires JustHeld(h, order, volumes, venue) && PossibleNet(AbsorbAll(h, order, answers), net)
    ensures var b := FinalBounds(AbsorbAll(h, order, answers));
            Short(h, b.low) <= Short(h, Abs(net)) <= Short(h, b.high)
  {
    var after := AbsorbAll(h, order, answers);
    AbsorbAllInterval(h, order, volumes, answers, venue);
    PossibleNetsAreInterval(after, net);
    BoundsAreExact(LowEnd(after), HighEnd(after));
  }

  /** Where the close took of every net still possible what its size leaves above the venue's volume,
      it is reported if and only if it took the share under every resolution, and passed over as
      others' exposure if and only if it took nothing under any. */
  lemma VerdictIff(h: HeldClose, order: seq<int>, volumes: seq<int>, answers: int -> Answer, venue: Venue)
    requires JustHeld(h, order, volumes, venue)
    requires forall net :: PossibleNet(AbsorbAll(h, order, answers), net) ==>
                             ReallyTook(h, venue, net) == Short(h, Abs(net))
    ensures var after := AbsorbAll(h, order, answers);
            && (Judge(after) == Report <==> forall net :: PossibleNet(after, net) ==> ReallyTook(h, venue, net) > 0)
            && (Judge(after) == OthersOnly <==>
                forall net :: PossibleNet(after, net) ==> ReallyTook(h, venue, net) == 0)
  {
    var after := AbsorbAll(h, order, answers);
    AbsorbAllInterval(h, order, volumes, answers, venue);
    var least, most := ExtremeNets(h, order, volumes, answers, venue);
    assert ReallyTook(h, venue, least) == Short(h, FinalBounds(after).low);
    assert ReallyTook(h, venue, most) == Short(h, FinalBounds(after).high);
    forall net | PossibleNet(after, net)
      ensures Short(h, FinalBounds(after).low) <= ReallyTook(h, venue, net) <= Short(h, FinalBounds(after).high)
    {
      TakesBetween(h, order, volumes, answers, venue, net);
    }
  }

  /** Which is so wherever the side was decided when the close was held. */
  lemma DecidedSideVerdictIff(h: HeldClose, order: seq<int>, volumes: seq<int>, answers: int -> Answer, venue: Venue)
    requires JustHeld(h, order, volumes, venue) && BoundsWhenHeld(h, volumes).side.Some?
    ensures var after := AbsorbAll(h, order, answers);
            && (Judge(after) == Report <==> forall net :: PossibleNet(after, net) ==> ReallyTook(h, venue, net) > 0)
            && (Judge(after) == OthersOnly <==>
                forall net :: PossibleNet(after, net) ==> ReallyTook(h, venue, net) == 0)
  {
    forall net | PossibleNet(AbsorbAll(h, order, answers), net)
      ensures ReallyTook(h, venue, net) == Short(h, Abs(net))
    {
      DecidedSideTakes(h, order, volumes, answers, venue, net);
    }
    VerdictIff(h, order, volumes, answers, venue);
  }

  /** Some net still possible lies opposite the side on which the venue's position was left open. */
  predicate OppositePossible(h: HeldClose, venue: Venue) {
    venue.Open? && if venue.side == Buy then LowEnd(h) < 0 else HighEnd(h) > 0
  }

  lemma UndecidedSideTakes(
    h: HeldClose, order: seq<int>, volumes: seq<int>, answers: int -> Answer, venue: Venue, net: int)
    requires JustHeld(h, order, volumes, venue) && BoundsWhenHeld(h, volumes).side.None?
    requires PossibleNet(AbsorbAll(h, order, answers), net)
    requires !OppositePossible(AbsorbAll(h, order, answers), venue)
    ensures ReallyTook(h, venue, net) == Short(h, Abs(net))
  {
    AbsorbAllInterval(h, order, volumes, answers, venue);
    PossibleNetsAreInterval(AbsorbAll(h, order, answers), net);
  }

  /** A net opposite the open side lost what the close closed of it. */
  lemma OppositeTakes(
    h: HeldClose, order: seq<int>, volumes: seq<int>, answers: int -> Answer, venue: Venue) returns (net: int)
    requires JustHeld(h, order, volumes, venue) && OppositePossible(AbsorbAll(h, order, answers), venue)
    ensures PossibleNet(AbsorbAll(h, order, answers), net) && ReallyTook(h, venue, net) > 0
  {
    var after := AbsorbAll(h, order, answers);
    AbsorbAllInterval(h, order, volumes, answers, venue);
    net := if venue.side == Buy then LowEnd(after) else HighEnd(after);
    PossibleNetsAreInterval(after, net);
  }

  /** Where the side was not decided when the close was held, a close passed over took nothing under any
      resolution if and only if no net still possible lies opposite the open side; with no such net both
      verdicts are exact as with a decided side. */
  lemma UndecidedSideVerdictIff(h: HeldClose, order: seq<int>, volumes: seq<int>, answers: int -> Answer, venue: Venue)
    requires JustHeld(h, order, volumes, venue) && BoundsWhenHeld(h, volumes).side.None?
    ensures var after := AbsorbAll(h, order, answers);
            && (Judge(after) == OthersOnly ==>
                  ((forall net :: PossibleNet(after, net) ==> ReallyTook(h, venue, net) == 0)
                   <==> !OppositePossible(after, venue)))
            && (!OppositePossible(after, venue) ==>
                  && (Judge(after) == Report <==>
                      forall net :: PossibleNet(after, net) ==> ReallyTook(h, venue, net) > 0)
                  && (Judge(after) == OthersOnly <==>
                      forall net :: PossibleNet(after, net) ==> ReallyTook(h, venue, net) == 0))
  {
    if OppositePossible(AbsorbAll(h, order, answers), venue) {
      var net := OppositeTakes(h, order, volumes, answers, venue);
    } else {
      forall net | PossibleNet(AbsorbAll(h, order, answers), net)
        ensures ReallyTook(h, venue, net) == Short(h, Abs(net))
      {
        UndecidedSideTakes(h, order, volumes, answers, venue, net);
      }
      VerdictIff(h, order, volumes, answers, venue);
    }
  }

  /** The failing case: of an undecided side the whole open position is taken for the bot's side, so a
      close is passed over that took the bot's one short unit. */
  lemma UndecidedSidePassesOver(answers: int -> Answer)
    requires answers(1) == Refused
    ensures var h, venue := HeldClose(1, 1, None, -1, -1, 2, 4, map[1 := 5], map[], 0, []), Open(Buy, 2);
            && JustHeld(h, [1], [5], venue) && Judge(AbsorbAll(h, [1], answers)) == OthersOnly
            && (forall net :: PossibleNet(AbsorbAll(h, [1], answers), net) <==> net == -1)
            && ReallyTook(h, venue, -1) == 1
  {
    var h, venue := HeldClose(1, 1, None, -1, -1, 2, 4, map[1 := 5], map[], 0, []), Open(Buy, 2);
    ReachOfOne(5);
    assert WaitsFor(h, [5], [1]);
    OneRefused(h, 1, answers);
    forall net
      ensures PossibleNet(AbsorbAll(h, [1], answers), net) <==> net == -1
    {
      PossibleNetsAreInterval(AbsorbAll(h, [1], answers), net);
    }
  }

  lemma ReachOfOne(volume: int)
    ensures Reach([volume], false) == Min(0, volume) && Reach([volume], true) == Max(0, volume)
  {
    ReachPush([], volume, false);
    ReachPush([], volume, true);
    assert [] + [volume] == [volume];
  }

  lemma OneRefused(h: HeldClose, coid: int, answers: int -> Answer)
    requires answers(coid) == Refused && h.waiting.Keys == {coid}
    ensures AbsorbAll(h, [coid], answers) == h.(waiting := map[])
  {
    assert AbsorbAll(h, [coid][..0], answers) == h;
    assert h.waiting - {coid} == map[];
  }

  // --- what the entries really executed is among the possible nets ------------------

  /** An execution of an entry; `place` is its place in the order of the venue's events. */
  datatype Execution = Execution(volume: nat, ms: int, position: int, place: int)

  /** What an entry really executed beyond what the journal counted when the close was held: what its
      answer tells of, and the rest. */
  datatype Story = Story(told: seq<Execution>, rest: seq<Execution>, closePlace: int, answerPlace: int)

  /** Volume executed on the position before the close. */
  function VolumeBefore(executions: seq<Execution>, position: int, closePlace: int): nat {
    if executions == [] then 0
    else
      var e := executions[|executions| - 1];
      VolumeBefore(executions[..|executions| - 1], position, closePlace)
      + if e.position == position && e.place < closePlace then e.volume else 0
  }

  function Volume(executions: seq<Execution>): nat {
    if executions == [] then 0 else Volume(executions[..|executions| - 1]) + executions[|executions| - 1].volume
  }

  /** What the entry of signed volume `volume` added to the net before the close. */
  function ReallyAdded(h: HeldClose, volume: int, story: Story): int {
    var before := VolumeBefore(story.told, h.position, story.closePlace)
                  + VolumeBefore(story.rest, h.position, story.closePlace);
    if volume < 0 then -before else before
  }

  /** The venue's events have one order, which the clock never contradicts. */
  predicate TimesFollowPlaces(h: HeldClose, story: Story) {
    forall e :: e in story.told + story.rest && h.executedMs.Some? ==>
      && (e.ms < h.executedMs.value ==> e.place < story.closePlace)
      && (e.ms > h.executedMs.value ==> e.place > story.closePlace)
  }

  /** What an answer tells of an entry of which `volume` may still execute.  A refused one executed
      nothing, and of a lost answer nothing is known.  An acknowledgement tells of everything that
      executed before it, one deal at most, which it dates unless it carries none; it came after the
      close's event, so the rest executed after the close. */
  predicate Tells(h: HeldClose, coid: int, volume: int, answer: Answer, story: Story) {
    && TimesFollowPlaces(h, story) && Volume(story.told) + Volume(story.rest) <= Abs(volume)
    && match answer
       case Refused => story.told == story.rest == []
       case Lost => true
       case Acknowledged(executed, position, dealMs) =>
         && story.closePlace < story.answerPlace
         && (forall e :: e in story.rest ==> e.place > story.answerPlace)
         && Max(0, executed - if coid in h.counted then h.counted[coid] else 0) == Volume(story.told)
         && (story.told == [] || (|story.told| == 1 && story.told[0].position == position
                                  && (dealMs.Some? ==> dealMs.value == story.told[0].ms)))
  }

  lemma {:induction false} VolumeBeforeWithin(executions: seq<Execution>, position: int, closePlace: int)
    ensures VolumeBefore(executions, position, closePlace) <= Volume(executions)
    ensures (forall e :: e in executions ==> e.place > closePlace) ==>
              VolumeBefore(executions, position, closePlace) == 0
  {
    if executions != [] {
      VolumeBeforeWithin(executions[..|executions| - 1], position, closePlace);
    }
  }

  /** The judged contribution allows that the entry added `added`. */
  predicate Allows(h: HeldClose, coid: int, answer: Answer, added: int)
    requires coid in h.waiting
  {
    match ContributionOf(h, coid, h.waiting[coid], answer)
    case Known(volume) => added == volume
    case Perhaps(volume) => PartOf(added, volume)
  }

  /** The judged contribution allows what the entry really added. */
  lemma ContributionAllowsTruth(h: HeldClose, coid: int, answer: Answer, story: Story)
    requires coid in h.waiting && Tells(h, coid, h.waiting[coid], answer, story)
    ensures Allows(h, coid, answer, ReallyAdded(h, h.waiting[coid], story))
  {
    VolumeBeforeWithin(story.told, h.position, story.closePlace);
    VolumeBeforeWithin(story.rest, h.position, story.closePlace);
    if answer.Acknowledged? && story.told != [] {
      var e := story.told[0];
      assert e in story.told && story.told[..0] == [];
      assert VolumeBefore(story.told, h.position, story.closePlace)
             == if e.position == h.position && e.place < story.closePlace then e.volume else 0;
      assert Volume(story.told) == e.volume;
    }
  }

  /** The answer decides what the entry added: a refusal, an acknowledgement that tells of no further fill on
      the position, or one whose deal is dated before or after the close. */
  predicate Decides(h: HeldClose, coid: int, answer: Answer) {
    match answer
    case Refused => true
    case Lost => false
    case Acknowledged(executed, position, dealMs) =>
      || executed <= (if coid in h.counted then h.counted[coid] else 0)
      || position != h.position
      || (dealMs.Some? && h.executedMs.Some? && dealMs.value != h.executedMs.value)
  }

  /** Then the judged contribution is exactly what the entry really added before the close. */
  lemma DecidedIsExact(h: HeldClose, coid: int, answer: Answer, story: Story)
    requires coid in h.waiting && Tells(h, coid, h.waiting[coid], answer, story) && Decides(h, coid, answer)
    ensures ContributionOf(h, coid, h.waiting[coid], answer) == Known(ReallyAdded(h, h.waiting[coid], story))
  {
    VolumeBeforeWithin(story.told, h.position, story.closePlace);
    VolumeBeforeWithin(story.rest, h.position, story.closePlace);
    if answer.Acknowledged? && story.told != [] {
      var e := story.told[0];
      assert e in story.told && e in story.told + story.rest && story.told[..0] == [];
      assert VolumeBefore(story.told, h.position, story.closePlace)
             == if e.position == h.position && e.place < story.closePlace then e.volume else 0;
      assert Volume(story.told) == e.volume;
    }
  }

  /** An answer that does not decide leaves both ends of the judged contribution possible: some story it
      tells of has the entry add nothing before the close, and some the whole. */
  lemma UndecidedIsAttained(h: HeldClose, coid: int, answer: Answer)
    returns (without: Story, whole: Story)
    requires coid in h.waiting && !Decides(h, coid, answer)
    requires answer.Acknowledged? ==>
               answer.executed - (if coid in h.counted then h.counted[coid] else 0) <= Abs(h.waiting[coid])
    ensures Tells(h, coid, h.waiting[coid], answer, without) && Tells(h, coid, h.waiting[coid], answer, whole)
    ensures ContributionOf(h, coid, h.waiting[coid], answer) == Perhaps(ReallyAdded(h, h.waiting[coid], whole))
    ensures ReallyAdded(h, h.waiting[coid], without) == 0
  {
    var volume: nat := if answer.Lost? then Abs(h.waiting[coid])
                       else answer.executed - if coid in h.counted then h.counted[coid] else 0;
    var ms := if h.executedMs.Some? then h.executedMs.value
              else if answer.Acknowledged? && answer.dealMs.Some? then answer.dealMs.value else 0;
    var early, late := Execution(volume, ms, h.position, 0), Execution(volume, ms, h.position, 2);
    OneExecution(early, h.position, 1);
    OneExecution(late, h.position, 1);
    whole, without := Story([early], [], 1, 3), Story([late], [], 1, 3);
    assert VolumeBefore([], h.position, 1) == 0 && Volume([]) == 0;
  }

  lemma OneExecution(e: Execution, position: int, closePlace: int)
    ensures Volume([e]) == e.volume
    ensures VolumeBefore([e], position, closePlace)
            == if e.position == position && e.place < closePlace then e.volume else 0
  {
    assert [e][..0] == [];
  }

  function AllAdded(order: seq<int>, added: int -> int): int {
    if order == [] then 0 else AllAdded(order[..|order| - 1], added) + added(order[|order| - 1])
  }

  /** The parts of the unknown entries that make up what all of them added. */
  lemma {:induction false} RealParts(h: HeldClose, order: seq<int>, answers: int -> Answer, added: int -> int)
    returns (parts: seq<int>)
    requires Distinct(order) && h.applied == 0 && h.unknown == []
    requires forall c :: c in order ==> c in h.waiting && Allows(h, c, answers(c), added(c))
    ensures var after := AbsorbAll(h, order, answers);
            PartsOf(parts, after.unknown) && after.applied + Sum(parts) == AllAdded(order, added)
  {
    if order == [] {
      parts := [];
    } else {
      var n := |order| - 1;
      var older := RealParts(h, order[..n], answers, added);
      var before := AbsorbAll(h, order[..n], answers);
      AbsorbAllSums(h, order[..n], answers, true);
      assert order[n] !in Elements(order[..n]) && order[n] in order;
      AllowsStill(h, before, order[n], answers(order[n]), added(order[n]));
      parts := OnePart(before, order[n], answers(order[n]), added(order[n]), older);
    }
  }

  lemma AllowsStill(h: HeldClose, now: HeldClose, coid: int, answer: Answer, added: int)
    requires coid in h.waiting && coid in now.waiting && now.waiting[coid] == h.waiting[coid]
    requires now == h.(waiting := now.waiting, applied := now.applied, unknown := now.unknown)
    ensures Allows(now, coid, answer, added) <==> Allows(h, coid, answer, added)
  {
  }

  /** One more answer, and what its entry really added. */
  lemma OnePart(h: HeldClose, coid: int, answer: Answer, added: int, older: seq<int>) returns (parts: seq<int>)
    requires coid in h.waiting && PartsOf(older, h.unknown) && Allows(h, coid, answer, added)
    ensures var after := Absorb(h, coid, answer);
            PartsOf(parts, after.unknown) && after.applied + Sum(parts) == h.applied + Sum(older) + added
  {
    var c := ContributionOf(h, coid, h.waiting[coid], answer);
    if c.Perhaps? {
      PartsExtend(older, h.unknown, added, c.volume);
      parts := older + [added];
    } else {
      parts := older;
    }
  }

  /** What each waited-for entry really added. */
  function Additions(h: HeldClose, stories: int -> Story): int -> int {
    c => if c in h.waiting then ReallyAdded(h, h.waiting[c], stories(c)) else 0
  }

  /** Every answer tells the truth about its entry. */
  predicate AllTell(h: HeldClose, order: seq<int>, answers: int -> Answer, stories: int -> Story) {
    forall c :: c in order ==> c in h.waiting && Tells(h, c, h.waiting[c], answers(c), stories(c))
  }

  /** The real net the close met, its base within the held interval, is a possible one. */
  lemma RealNetIsPossible(h: HeldClose, order: seq<int>, answers: int -> Answer, stories: int -> Story, base: int)
    requires Distinct(order) && h.applied == 0 && h.unknown == [] && h.netLow <= base <= h.netHigh
    requires AllTell(h, order, answers, stories)
    ensures PossibleNet(AbsorbAll(h, order, answers), base + AllAdded(order, Additions(h, stories)))
  {
    forall c | c in order
      ensures Allows(h, c, answers(c), Additions(h, stories)(c))
    {
      ContributionAllowsTruth(h, c, answers(c), stories(c));
    }
    var parts := RealParts(h, order, answers, Additions(h, stories));
    AbsorbAllSums(h, order, answers, true);
    assert PartsOf(parts, AbsorbAll(h, order, answers).unknown);
  }

  /** Where every answer decides, the absorbed contributions are exactly what the entries really added. */
  lemma {:induction false} AllDecided(h: HeldClose, order: seq<int>, answers: int -> Answer, stories: int -> Story)
    requires Distinct(order) && AllTell(h, order, answers, stories)
    requires forall c :: c in order ==> Decides(h, c, answers(c))
    ensures var after := AbsorbAll(h, order, answers);
            && after.applied == h.applied + AllAdded(order, Additions(h, stories))
            && after.unknown == h.unknown
  {
    if order != [] {
      var n := |order| - 1;
      AllDecided(h, order[..n], answers, stories);
      AbsorbAllSums(h, order[..n], answers, true);
      var before, coid := AbsorbAll(h, order[..n], answers), order[n];
      assert coid in order && coid !in Elements(order[..n]);
      DecidedIsExact(h, coid, answers(coid), stories(coid));
      SameContribution(h, before, coid, answers(coid));
    }
  }

  lemma SameContribution(h: HeldClose, now: HeldClose, coid: int, answer: Answer)
    requires coid in h.waiting && coid in now.waiting && now.waiting[coid] == h.waiting[coid]
    requires now == h.(waiting := now.waiting, applied := now.applied, unknown := now.unknown)
    ensures ContributionOf(now, coid, now.waiting[coid], answer) == ContributionOf(h, coid, h.waiting[coid], answer)
  {
  }

  /** A close held with an exact net, every answer deciding, is judged as it really was: reported if and only
      if it took part of the share, passed over otherwise.  That needs its side decided when it was held, or
      the real net not opposite the venue's open side. */
  lemma DecidedVerdictIsTruth(
    h: HeldClose, order: seq<int>, volumes: seq<int>, answers: int -> Answer, stories: int -> Story, venue: Venue)
    requires JustHeld(h, order, volumes, venue) && h.netLow == h.netHigh
    requires AllTell(h, order, answers, stories) && forall c :: c in order ==> Decides(h, c, answers(c))
    requires var net := h.netLow + AllAdded(order, Additions(h, stories));
             || BoundsWhenHeld(h, volumes).side.Some?
             || (venue.Open? ==> net == 0 || SideOf(net) == Some(venue.side))
    ensures var net := h.netLow + AllAdded(order, Additions(h, stories));
            Judge(AbsorbAll(h, order, answers)) == if ReallyTook(h, venue, net) > 0 then Report else OthersOnly
  {
    var net := h.netLow + AllAdded(order, Additions(h, stories));
    AllDecided(h, order, answers, stories);
    AbsorbAllInterval(h, order, volumes, answers, venue);
    var after := AbsorbAll(h, order, answers);
    assert LowEnd(after) == net == HighEnd(after);
    JudgedOnExactNet(after, net);
    if BoundsWhenHeld(h, volumes).side.Some? {
      RealNetIsPossible(h, order, answers, stories, h.netLow);
      DecidedSideTakes(h, order, volumes, answers, venue, net);
    } else {
      SameSideTakes(h, venue, net);
    }
  }

  lemma JudgedOnExactNet(after: HeldClose, net: int)
    requires LowEnd(after) == net == HighEnd(after) && FinalBounds(after) == BoundsFor(net, net)
    ensures Judge(after) == if Short(after, Abs(net)) > 0 then Report else OthersOnly
  {
  }

  lemma SameSideTakes(h: HeldClose, venue: Venue, net: int)
    requires h.venueAfter == VenueAfter(venue, None) && h.fillQty > 0
    requires venue.Open? ==> net == 0 || SideOf(net) == Some(venue.side)
    ensures ReallyTook(h, venue, net) > 0 <==> Short(h, Abs(net)) > 0
  {
  }

  /** So a report means the close really took the bot's share. */
  lemma ReportedCloseTookShare(
    h: HeldClose, order: seq<int>, volumes: seq<int>, answers: int -> Answer, stories: int -> Story, venue: Venue,
    base: int)
    requires JustHeld(h, order, volumes, venue) && Judge(AbsorbAll(h, order, answers)) == Report
    requires h.netLow <= base <= h.netHigh && AllTell(h, order, answers, stories)
    ensures ReallyTook(h, venue, base + AllAdded(order, Additions(h, stories))) > 0
  {
    RealNetIsPossible(h, order, answers, stories, base);
    ReportIsSound(h, order, volumes, answers, venue, base + AllAdded(order, Additions(h, stories)));
  }
}

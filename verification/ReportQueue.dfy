/** The journalled queue of manual-close reports, which blocks venue writes until each report was
handled, across crashes and restarts of the process.

A report's key is the place of its record in the journal; the source draws a unique one.
*/
module ReportQueue {

  datatype Record = Pending(position: int) | Done(key: nat)

  datatype Report = Report(key: nat, position: int)

  /** What running the intervention policy on a report leads to.  The process may also die before or
      after the policy took effect. */
  datatype Outcome = Settles | Halts | Fails | DiesBefore | DiesAfter

  datatype Step = Queue(position: int) | Flush(policy: nat -> Outcome) | Write(quarantined: bool) | Crash

  /** A write attempted when the journal had `after` records, and whether it left. */
  datatype Attempt = Attempt(after: nat, quarantined: bool, left: bool)

  /** Of the first `n` steps, the quarantine latch at each write attempted. */
  function Attempted(steps: seq<Step>, n: nat): seq<bool>
    requires n <= |steps|
  {
    if n == 0 then [] else Attempted(steps, n - 1) + if steps[n - 1].Write? then [steps[n - 1].quarantined] else []
  }

  /** The report was journalled and its done record was not. */
  predicate Undone(journal: seq<Record>, key: nat) {
    key < |journal| && journal[key].Pending? && Done(key) !in journal
  }

  predicate AllDone(journal: seq<Record>) {
    forall k :: 0 <= k < |journal| ==> !Undone(journal, k)
  }

  /** The report waits in the queue. */
  predicate Waits(queue: seq<Report>, key: nat) {
    exists i :: 0 <= i < |queue| && queue[i].key == key
  }

  /** A report of the position waits in the queue. */
  predicate PositionWaits(queue: seq<Report>, position: int) {
    exists i :: 0 <= i < |queue| && queue[i].position == position
  }

  /** What is undone after one more record. */
  lemma Journalled(journal: seq<Record>, position: int, key: nat)
    requires Done(|journal|) !in journal && key < |journal|
    ensures forall k :: Undone(journal + [Pending(position)], k) <==> Undone(journal, k) || k == |journal|
    ensures forall k :: Undone(journal + [Done(key)], k) <==> Undone(journal, k) && k != key
  {
  }

  /** What waits after one more report is queued, and after the first is taken. */
  lemma Enqueued(queue: seq<Report>, report: Report)
    ensures forall k :: Waits(queue + [report], k) <==> Waits(queue, k) || k == report.key
    ensures forall p :: PositionWaits(queue + [report], p) <==> PositionWaits(queue, p) || p == report.position
  {
    var longer := queue + [report];
    assert longer[|queue|] == report;
    assert forall i :: 0 <= i < |queue| ==> longer[i] == queue[i];
  }

  lemma Dequeued(queue: seq<Report>)
    requires queue != []
    ensures forall k :: Waits(queue, k) <==> Waits(queue[1..], k) || k == queue[0].key
    ensures forall p :: PositionWaits(queue, p) <==> PositionWaits(queue[1..], p) || p == queue[0].position
  {
  }

  class CloseReports {
    /** Survives the process. */
    var journal: seq<Record>
    var loaded: bool
    var deferred: seq<Report>
    var unhandled: set<nat>
    var reported: set<int>

    /** The reports whose policy ran, in any process. */
    ghost var ran: set<nat>
    /** The reports this process queued itself, and those whose policy failed in it. */
    ghost var own: set<nat>
    ghost var failed: set<nat>
    /** The positions whose last report halted or failed in this process. */
    ghost var stuck: set<int>

    constructor ()
      ensures Valid() && journal == [] && unhandled == {} && reported == {}
    {
      journal, loaded, deferred, unhandled, reported := [], false, [], {}, {};
      ran, own, failed, stuck := {}, {}, {}, {};
    }

    ghost predicate Valid()
      reads this
    {
      Books() && Accounted({}) && Closed({})
    }

    /** A done record implies that the policy ran, this process's own reports and, once loaded, all
        others without one are unhandled, and the queue is in order. */
    ghost predicate Books()
      reads this
    {
      BooksBut({})
    }

    /** The same, but for reports not queued yet. */
    ghost predicate BooksBut(queueing: set<nat>)
      reads this
    {
      && (forall k: nat :: Done(k) in journal ==> k in ran && k < |journal|)
      && (forall k :: k in own ==> k < |journal| && (Undone(journal, k) ==> k in unhandled))
      && (loaded ==> forall k :: 0 <= k < |journal| && Undone(journal, k) ==> k in unhandled || k in queueing)
      && (forall k :: k in failed ==> k in unhandled && !Waits(deferred, k))
      && Queued(deferred)
    }

    /** An unhandled report is undone and waits, is in hand, or had its policy fail. */
    ghost predicate Accounted(inHand: set<nat>)
      reads this
    {
      forall k :: k in unhandled ==> Undone(journal, k) && (Waits(deferred, k) || k in failed || k in inHand)
    }

    /** Which positions are closed to further reports. */
    ghost predicate Closed(inHand: set<int>)
      reads this
    {
      forall p :: p in reported <==> p in stuck || p in inHand || PositionWaits(deferred, p)
    }

    /** The report was taken from the queue and its outcome is not booked yet. */
    ghost predicate InHand(report: Report)
      reads this
    {
      && Books() && Accounted({report.key}) && Closed({report.position})
      && report.key < |journal| && report.key in unhandled && report.key !in failed && !Waits(deferred, report.key)
    }

    /** The queue holds each unhandled report once, under its position, and at most one report of a
        position that this process queued itself. */
    ghost predicate Queued(queue: seq<Report>)
      reads this`journal, this`unhandled, this`own
    {
      && (forall i :: 0 <= i < |queue| ==> queue[i].key in unhandled && queue[i].key < |journal|
                                           && journal[queue[i].key] == Pending(queue[i].position))
      && (forall i, j :: 0 <= i < j < |queue| ==> queue[i].key != queue[j].key)
      && (forall i, j :: 0 <= i < j < |queue| && queue[i].position == queue[j].position ==>
            !(queue[i].key in own && queue[j].key in own))
    }

    /** `_queue_external_close`: suppressed exactly while a report of the position waits, or after one
        halted or failed. */
    method QueueExternalClose(position: int)
      requires Valid()
      modifies this
      ensures Valid() && loaded == old(loaded) && ran == old(ran) && stuck == old(stuck)
      ensures old(position in stuck || PositionWaits(deferred, position)) ==>
                journal == old(journal) && deferred == old(deferred) && unhandled == old(unhandled)
      ensures !old(position in stuck || PositionWaits(deferred, position)) ==>
                && journal == old(journal) + [Pending(position)]
                && deferred == old(deferred) + [Report(old(|journal|), position)]
                && unhandled == old(unhandled) + {old(|journal|)}
    {
      if position in reported {
        return;
      }
      var key := |journal|;
      PositionIsOpen(position);
      journal := journal + [Pending(position)];
      Defer(key, true);
    }

    /** An unreported position has no report waiting. */
    lemma PositionIsOpen(position: int)
      requires Closed({}) && position !in reported
      ensures position !in stuck && !PositionWaits(deferred, position)
    {
    }

    /** A pending report joins the queue. */
    method Defer(key: nat, ghost mine: bool)
      requires BooksBut({key}) && Accounted({}) && Closed({})
      requires Undone(journal, key) && key !in unhandled && key !in own && !Waits(deferred, key)
      requires mine ==> !PositionWaits(deferred, journal[key].position)
      modifies this`reported, this`unhandled, this`deferred, this`own
      ensures Valid() && deferred == old(deferred) + [Report(key, journal[key].position)]
      ensures unhandled == old(unhandled) + {key} && own == old(own) + if mine then {key} else {}
    {
      var report := Report(key, journal[key].position);
      Enqueued(deferred, report);
      reported := reported + {report.position};
      unhandled := unhandled + {key};
      deferred := deferred + [report];
      own := own + if mine then {key} else {};
    }

    /** `_load_close_evidence`: every report without a done record is queued again, once. */
    method LoadCloseEvidence()
      requires Valid()
      modifies this`loaded, this`reported, this`unhandled, this`deferred, this`own
      ensures Valid() && loaded
      ensures forall k :: k in unhandled <==> Undone(journal, k)
      ensures forall k :: Undone(journal, k) && k !in failed ==> Waits(deferred, k)
      ensures old(deferred) <= deferred && (old(loaded) ==> deferred == old(deferred))
    {
      if loaded {
        return;
      }
      for key := 0 to |journal|
        invariant Valid() && !loaded && old(deferred) <= deferred
        invariant forall k :: 0 <= k < key && Undone(journal, k) ==> k in unhandled
      {
        if journal[key].Pending? && Done(key) !in journal && key !in unhandled {
          Defer(key, false);
        }
      }
      loaded := true;
    }

    /** `_flush_external_interventions`.  Unless a policy raises or the process dies, every report is
        done except those whose policy had failed before. */
    method FlushExternalInterventions(policy: nat -> Outcome) returns (raised: bool, died: bool)
      requires Valid()
      modifies this
      ensures Valid() && old(ran) <= ran && old(journal) <= journal
      ensures forall k :: k in ran ==> k in old(ran) || policy(k) in {Settles, Halts, DiesAfter}
      ensures forall k :: Undone(journal, k) ==> old(Undone(journal, k))
      ensures !raised && !died ==> loaded && deferred == [] && forall k :: Undone(journal, k) ==> k in old(failed)
      ensures (forall k :: policy(k) == Settles) ==> !raised && !died
      ensures died ==> !loaded && unhandled == {} && deferred == []
    {
      LoadCloseEvidence();
      raised, died := false, false;
      while deferred != []
        invariant Valid() && loaded && !raised && !died && old(ran) <= ran && old(journal) <= journal
        invariant failed == old(failed)
        invariant forall k :: k in ran ==> k in old(ran) || policy(k) in {Settles, Halts, DiesAfter}
        invariant forall k :: Undone(journal, k) ==> old(Undone(journal, k))
        decreases |deferred|
      {
        raised, died := HandleFirst(policy(deferred[0].key));
        if raised || died {
          return;
        }
      }
    }

    /** The first report of the queue meets the policy.  It is journalled as done once the policy ran,
        the halt included; its position is then open again only if the policy settled it and no other
        report of the position waits. */
    method HandleFirst(outcome: Outcome) returns (raised: bool, died: bool)
      requires Valid() && loaded && deferred != []
      modifies this
      ensures Valid() && raised == (outcome in {Halts, Fails}) && died == (outcome in {DiesBefore, DiesAfter})
      ensures ran == old(ran) + if outcome in {Settles, Halts, DiesAfter} then {old(deferred)[0].key} else {}
      ensures journal == old(journal) + if outcome in {Settles, Halts} then [Done(old(deferred)[0].key)] else []
      ensures forall k :: Undone(journal, k) ==> old(Undone(journal, k))
      ensures if died then Forgotten() else loaded && deferred == old(deferred)[1..]
      ensures !died ==> failed == old(failed) + if outcome == Fails then {old(deferred)[0].key} else {}
      ensures outcome == Settles ==>
                (old(deferred)[0].position in reported <==> PositionWaits(deferred, old(deferred)[0].position))
      ensures raised ==> old(deferred)[0].position in stuck
    {
      var report := TakeFirst();
      raised, died := outcome in {Halts, Fails}, outcome in {DiesBefore, DiesAfter};
      if outcome in {Settles, Halts, DiesAfter} {
        ran := ran + {report.key};
      }
      if died {
        Forget();
      } else if outcome == Fails {
        NoteFailure(report);
      } else {
        NoteDone(report, outcome == Halts);
      }
    }

    /** The policy ran on the report. */
    method NoteDone(report: Report, halted: bool)
      requires InHand(report) && report.key in ran
      modifies this`unhandled, this`journal, this`reported, this`stuck
      ensures Valid() && journal == old(journal) + [Done(report.key)]
      ensures forall k :: Undone(journal, k) ==> old(Undone(journal, k))
      ensures if halted then report.position in stuck
              else report.position in reported <==> PositionWaits(deferred, report.position)
    {
      JournalReportDone(report);
      ReopenPosition(report.position, halted);
    }

    /** A failed policy leaves its report unhandled, and out of the queue. */
    ghost method NoteFailure(report: Report)
      requires InHand(report)
      modifies this`failed, this`stuck
      ensures Valid() && failed == old(failed) + {report.key} && stuck == old(stuck) + {report.position}
    {
      failed, stuck := failed + {report.key}, stuck + {report.position};
    }

    method TakeFirst() returns (report: Report)
      requires Valid() && deferred != []
      modifies this`deferred
      ensures InHand(report) && report == old(deferred)[0] && deferred == old(deferred)[1..]
    {
      Dequeued(deferred);
      report := deferred[0];
      deferred := deferred[1..];
    }

    /** `_journal_close_report_done`. */
    method JournalReportDone(report: Report)
      requires InHand(report) && report.key in ran
      modifies this`unhandled, this`journal
      ensures journal == old(journal) + [Done(report.key)] && unhandled == old(unhandled) - {report.key}
      ensures forall k :: Undone(journal, k) <==> old(Undone(journal, k)) && k != report.key
      ensures Books() && Accounted({}) && Closed({report.position})
    {
      Journalled(journal, 0, report.key);
      unhandled := unhandled - {report.key};
      journal := journal + [Done(report.key)];
    }

    /** A position is open again once no report of it waits, but a halt leaves it closed. */
    method ReopenPosition(position: int, halted: bool)
      requires Books() && Accounted({}) && Closed({position})
      modifies this`reported, this`stuck
      ensures Valid()
      ensures halted ==> position in stuck
      ensures !halted ==> (position in reported <==> PositionWaits(deferred, position))
    {
      if halted {
        stuck := stuck + {position};
      } else if !PositionWaits(deferred, position) {
        reported, stuck := reported - {position}, stuck - {position};
      }
    }

    /** Nothing but the journal survives a crash. */
    ghost predicate Forgotten()
      reads this
    {
      !loaded && deferred == [] && unhandled == {} && reported == {} && own == {} && failed == {} && stuck == {}
    }

    method Forget()
      requires forall k: nat :: Done(k) in journal ==> k in ran && k < |journal|
      modifies this`loaded, this`deferred, this`unhandled, this`reported, this`own, this`failed, this`stuck
      ensures Valid() && Forgotten()
    {
      loaded, deferred, unhandled, reported := false, [], {}, {};
      own, failed, stuck := {}, {}, {};
    }

    /** `ensure_venue_writes_allowed`: a write leaves only when every journalled report of the run,
        whichever process queued it, has its done record, and so met the policy. */
    method EnsureVenueWritesAllowed(quarantined: bool) returns (allowed: bool)
      requires Valid()
      modifies this`loaded, this`reported, this`unhandled, this`deferred, this`own
      ensures Valid()
      ensures allowed <==> AllDone(journal) && !quarantined
      ensures allowed ==> forall k :: 0 <= k < |journal| && journal[k].Pending? ==> Done(k) in journal && k in ran
    {
      LoadCloseEvidence();
      allowed := unhandled == {} && !quarantined;
      assert unhandled == {} <==> AllDone(journal);
      assert forall k :: 0 <= k < |journal| && journal[k].Pending? && !Undone(journal, k) ==> Done(k) in journal;
    }

    /** The process dies and another one takes the run over: exactly the undone reports wait again,
        those whose policy had failed included. */
    method Restart()
      requires Valid()
      modifies this
      ensures Valid() && journal == old(journal) && ran == old(ran)
      ensures forall k :: Waits(deferred, k) <==> Undone(journal, k)
    {
      Forget();
      LoadCloseEvidence();
    }

    /** Any run of reports, flushes, write attempts and crashes.  An attempt leaves if and only if every
        report journalled before it had been handled and no quarantine is latched. */
    method Run(steps: seq<Step>) returns (attempts: seq<Attempt>)
      requires Valid() && journal == []
      modifies this
      ensures Valid()
      ensures |attempts| == |Attempted(steps, |steps|)|
      ensures forall a :: 0 <= a < |attempts| ==>
                attempts[a].quarantined == Attempted(steps, |steps|)[a] && Guarded(journal, attempts[a])
      ensures forall k: nat :: Done(k) in journal ==> k in ran
    {
      attempts := [];
      for i := 0 to |steps|
        invariant Valid() && |attempts| == |Attempted(steps, i)|
        invariant forall a :: 0 <= a < |attempts| ==>
                    attempts[a].quarantined == Attempted(steps, i)[a] && Guarded(journal, attempts[a])
      {
        ghost var before := journal;
        match steps[i] {
          case Queue(position) => QueueExternalClose(position);
          case Flush(policy) => var raised, died := FlushExternalInterventions(policy);
          case Crash => Forget();
          case Write(quarantined) =>
            var left := EnsureVenueWritesAllowed(quarantined);
            assert journal[..|journal|] == journal;
            attempts := attempts + [Attempt(|journal|, quarantined, left)];
        }
        assert before <= journal;
        forall a | 0 <= a < |attempts| && attempts[a].after <= |before|
          ensures journal[..attempts[a].after] == before[..attempts[a].after]
        {
        }
      }
    }

    ghost predicate Guarded(journal: seq<Record>, attempt: Attempt) {
      attempt.after <= |journal|
      && (attempt.left <==> AllDone(journal[..attempt.after]) && !attempt.quarantined)
    }
  }
}

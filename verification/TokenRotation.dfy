/** The OAuth token pair shared by every process of one grant: a session file, an advisory lock, and
the refresh sequence each process runs under it.

Access tokens are named by their issue number.  A refresh token is named by the issue that first
carried it, because the venue may hand the same one back.  Issue 0 stands for having no token.
*/
module TokenRotation {
  import opened Common

  datatype Pair = Pair(access: nat, refresh: nat)

  /** Where the lock's holder stands in `_refresh_and_persist`. */
  datatype Phase = Locked | MustRefresh | MustSave | Done

  datatype Lock = Free | Held(holder: nat, phase: Phase)

  /** `tokens` is the pair in use; `session` the one last loaded from or saved to the file. */
  datatype Process = Process(tokens: Pair, session: Pair)

  datatype Step = Start(p: nat) | Acquire(p: nat) | Check(p: nat)
                | Refresh(p: nat, rotates: bool, answered: bool) | Save(p: nat, succeeds: bool)
                | Unreached(p: nat) | Release(p: nat) | Crash(p: nat) | DamageFile

  /** What has happened to the grant.  `issued[k]` is the refresh token of issue `k`, `presented[k]`
      the issue that was refreshed to get it and `rotatedBy[k]` the process that did; `stored` holds
      the issues that reached the file.  `saved` says that every answered rotation was saved and no
      stored pair was lost, `answered` that every rotation's answer arrived, `rotating` that every
      rotation changed the refresh token. */
  datatype History = History(issued: seq<nat>, presented: seq<nat>, rotatedBy: seq<nat>, stored: set<nat>,
                             rejected: nat, saved: bool, answered: bool, rotating: bool)

  predicate Issued(h: History, pair: Pair) {
    pair.access < |h.issued| && h.issued[pair.access] == pair.refresh
  }

  /** Each rotation was made from the pair issued just before it. */
  predicate Linear(presented: seq<nat>) {
    forall k :: 2 <= k < |presented| ==> presented[k] == k - 1
  }

  /** The lock's holder has rotated the pair and not saved it yet. */
  predicate Saving(lock: Lock) {
    lock.Held? && lock.phase == MustSave
  }

  /** The venue's issues form one chain.  While every rotation is answered and saved, it is linear,
      nothing was rejected, and the file holds the current pair unless it is about to be saved. */
  predicate OneChain(venue: Pair, file: Option<Pair>, lock: Lock, h: History) {
    && |h.issued| == |h.presented| == |h.rotatedBy| == venue.access + 1 > 1 && Issued(h, venue)
    && (forall k :: 0 <= k < |h.issued| ==> h.issued[k] <= k && (h.rotating ==> h.issued[k] == k))
    && 0 in h.stored && (forall k :: k in h.stored ==> k <= venue.access)
    && (file.Some? ==> Issued(h, file.value) && file.value.access in h.stored)
    && (h.saved && h.answered ==>
          file.Some? && h.rejected == 0 && Linear(h.presented) && (Saving(lock) || file == Some(venue)))
  }

  /** What holds of process `p`.  A stored pair that differs from the one it last exchanged with the
      file is newer than the pair it uses, even after a save of its own failed.  A pair it could not
      save is its own alone, and as long as the venue changes the refresh token every time it stays
      the venue's current pair. */
  predicate Fits(p: nat, own: Process, venue: Pair, file: Option<Pair>, lock: Lock, h: History) {
    && Issued(h, own.tokens) && Issued(h, own.session) && own.session.access <= own.tokens.access
    && own.session.access in h.stored
    && (file.Some? && file.value != own.session ==> file.value.access > own.tokens.access)
    && (file.Some? && (lock == Held(p, MustRefresh) || lock == Held(p, MustSave)) ==> file.value == own.session)
    && (lock == Held(p, MustSave) ==> own.tokens == venue && own.session.access < venue.access)
    && (Saving(lock) && lock.holder != p ==> own.tokens.access < venue.access)
    && (h.saved && h.answered ==> lock == Held(p, MustSave) || own.tokens == own.session)
    && (own.tokens != own.session ==>
          && own.tokens.access < |h.rotatedBy| && h.rotatedBy[own.tokens.access] == p
          && own.tokens.access !in h.stored
          && (h.rotating && h.answered ==> own.tokens == venue))
  }

  predicate Sound(processes: map<nat, Process>, venue: Pair, file: Option<Pair>, lock: Lock, h: History) {
    && OneChain(venue, file, lock, h)
    && (lock.Held? ==> lock.holder in processes)
    && forall p :: p in processes ==> Fits(p, processes[p], venue, file, lock, h)
  }

  function Rotated(p: nat, tokens: Pair, next: Pair, rotates: bool, answer: bool, h: History): History {
    h.(issued := h.issued + [next.refresh], presented := h.presented + [tokens.access], rotatedBy := h.rotatedBy + [p],
       answered := h.answered && answer, rotating := h.rotating && rotates)
  }

  function NextPair(venue: Pair, rotates: bool): Pair {
    Pair(venue.access + 1, if rotates then venue.access + 1 else venue.refresh)
  }

  /** A rotation by `p` leaves the other processes as they should be. */
  lemma RotationFitsOthers(p: nat, own: Process, q: nat, other: Process, venue: Pair, file: Option<Pair>,
                           rotates: bool, answer: bool, h: History)
    requires p != q && OneChain(venue, file, Held(p, MustRefresh), h) && own.tokens.refresh == venue.refresh
    requires Fits(p, own, venue, file, Held(p, MustRefresh), h) && Fits(q, other, venue, file, Held(p, MustRefresh), h)
    ensures Fits(q, other, NextPair(venue, rotates), file, Held(p, if answer then MustSave else Done),
                 Rotated(p, own.tokens, NextPair(venue, rotates), rotates, answer, h))
  {
  }

  /** The process that rotated the pair is as it should be. */
  lemma RotationFitsHolder(
    p: nat, own: Process, venue: Pair, file: Option<Pair>, rotates: bool, answer: bool, h: History)
    requires OneChain(venue, file, Held(p, MustRefresh), h) && own.tokens.refresh == venue.refresh
    requires Fits(p, own, venue, file, Held(p, MustRefresh), h)
    ensures Fits(p, if answer then Process(NextPair(venue, rotates), own.session) else own,
                 NextPair(venue, rotates), file, Held(p, if answer then MustSave else Done),
                 Rotated(p, own.tokens, NextPair(venue, rotates), rotates, answer, h))
  {
  }

  /** A rotation extends the chain, linearly while every one is answered and saved. */
  lemma RotationExtendsChain(
    p: nat, own: Process, venue: Pair, file: Option<Pair>, rotates: bool, answer: bool, h: History)
    requires OneChain(venue, file, Held(p, MustRefresh), h) && own.tokens.refresh == venue.refresh
    requires Fits(p, own, venue, file, Held(p, MustRefresh), h)
    ensures OneChain(NextPair(venue, rotates), file, Held(p, if answer then MustSave else Done),
                     Rotated(p, own.tokens, NextPair(venue, rotates), rotates, answer, h))
  {
  }

  function Saved(pair: Pair, succeeds: bool, h: History): History {
    h.(stored := if succeeds then h.stored + {pair.access} else h.stored, saved := h.saved && succeeds)
  }

  /** A save, or a failed one, leaves every process as it should be. */
  lemma SaveFits(
    p: nat, own: Process, q: nat, other: Process, venue: Pair, file: Option<Pair>, succeeds: bool, h: History)
    requires OneChain(venue, file, Held(p, MustSave), h) && (q == p ==> own == other)
    requires Fits(p, own, venue, file, Held(p, MustSave), h) && Fits(q, other, venue, file, Held(p, MustSave), h)
    ensures Fits(q, if q == p && succeeds then own.(session := own.tokens) else other, venue,
                 if succeeds then Some(own.tokens) else file, Held(p, Done), Saved(own.tokens, succeeds, h))
  {
  }

  /** A process that leaves the pair alone, or moves to the stored one, is as it should be. */
  lemma AdoptionFits(p: nat, own: Process, venue: Pair, file: Option<Pair>, h: History)
    requires OneChain(venue, file, Held(p, Locked), h) && Fits(p, own, venue, file, Held(p, Locked), h)
    ensures file.Some? && file.value != own.session ==>
              file.value.access > own.tokens.access
              && Fits(p, Process(file.value, file.value), venue, file, Held(p, Done), h)
    ensures file == None || file.value == own.session ==> Fits(p, own, venue, file, Held(p, MustRefresh), h)
  {
  }

  /** What a process leaves behind when the holder lets the lock go, or dies. */
  lemma OthersKeepFitting(q: nat, other: Process, venue: Pair, file: Option<Pair>, was: Lock, lock: Lock, h: History)
    requires Fits(q, other, venue, file, was, h) && was.Held? && was.holder != q
    requires lock.Held? ==> lock.holder == was.holder && lock.phase != MustSave
    ensures Fits(q, other, venue, file, lock, h)
  {
  }

  lemma RotationKeepsSound(p: nat, processes: map<nat, Process>, venue: Pair, file: Option<Pair>, rotates: bool,
                           answer: bool, h: History)
    requires p in processes && Sound(processes, venue, file, Held(p, MustRefresh), h)
    requires processes[p].tokens.refresh == venue.refresh
    ensures Sound(if answer then processes[p := Process(NextPair(venue, rotates), processes[p].session)] else processes,
                  NextPair(venue, rotates), file, Held(p, if answer then MustSave else Done),
                  Rotated(p, processes[p].tokens, NextPair(venue, rotates), rotates, answer, h))
  {
    var own := processes[p];
    forall q | q in processes && q != p
      ensures Fits(q, processes[q], NextPair(venue, rotates), file, Held(p, if answer then MustSave else Done),
                   Rotated(p, own.tokens, NextPair(venue, rotates), rotates, answer, h))
    {
      RotationFitsOthers(p, own, q, processes[q], venue, file, rotates, answer, h);
    }
    RotationFitsHolder(p, own, venue, file, rotates, answer, h);
    RotationExtendsChain(p, own, venue, file, rotates, answer, h);
  }

  lemma SaveKeepsSound(
    p: nat, processes: map<nat, Process>, venue: Pair, file: Option<Pair>, succeeds: bool, h: History)
    requires p in processes && Sound(processes, venue, file, Held(p, MustSave), h)
    ensures processes[p].tokens == venue
    ensures Sound(if succeeds then processes[p := Process(venue, venue)] else processes, venue,
                  if succeeds then Some(venue) else file, Held(p, Done), Saved(venue, succeeds, h))
  {
    var own := processes[p];
    assert Fits(p, own, venue, file, Held(p, MustSave), h);
    forall q | q in processes
      ensures Fits(q, if q == p && succeeds then own.(session := own.tokens) else processes[q], venue,
                   if succeeds then Some(own.tokens) else file, Held(p, Done), Saved(own.tokens, succeeds, h))
    {
      SaveFits(p, own, q, processes[q], venue, file, succeeds, h);
    }
  }

  lemma AdoptionKeepsSound(p: nat, processes: map<nat, Process>, venue: Pair, file: Option<Pair>, h: History)
    requires p in processes && Sound(processes, venue, file, Held(p, Locked), h)
    ensures file.Some? && file.value != processes[p].session ==>
              file.value.access > processes[p].tokens.access
              && Sound(processes[p := Process(file.value, file.value)], venue, file, Held(p, Done), h)
    ensures file == None || file.value == processes[p].session ==>
              Sound(processes, venue, file, Held(p, MustRefresh), h)
  {
    AdoptionFits(p, processes[p], venue, file, h);
    forall q | q in processes && q != p
      ensures Fits(q, processes[q], venue, file, Held(p, Done), h)
      ensures Fits(q, processes[q], venue, file, Held(p, MustRefresh), h)
    {
      OthersKeepFitting(q, processes[q], venue, file, Held(p, Locked), Held(p, Done), h);
      OthersKeepFitting(q, processes[q], venue, file, Held(p, Locked), Held(p, MustRefresh), h);
    }
  }

  function LockAfterCrash(p: nat, lock: Lock): Lock {
    if lock.Held? && lock.holder == p then Free else lock
  }

  function Crashed(p: nat, lock: Lock, h: History): History {
    h.(saved := h.saved && lock != Held(p, MustSave))
  }

  lemma CrashFits(p: nat, q: nat, other: Process, venue: Pair, file: Option<Pair>, lock: Lock, h: History)
    requires p != q && Fits(q, other, venue, file, lock, h)
    ensures Fits(q, other, venue, file, LockAfterCrash(p, lock), Crashed(p, lock, h))
  {
  }

  lemma CrashKeepsSound(p: nat, processes: map<nat, Process>, venue: Pair, file: Option<Pair>, lock: Lock, h: History)
    requires p in processes && Sound(processes, venue, file, lock, h)
    ensures Sound(processes - {p}, venue, file, LockAfterCrash(p, lock), Crashed(p, lock, h))
  {
    forall q | q in processes && q != p
      ensures Fits(q, processes[q], venue, file, LockAfterCrash(p, lock), Crashed(p, lock, h))
    {
      CrashFits(p, q, processes[q], venue, file, lock, h);
    }
  }

  class Grant {
    /** The pair the venue issued last; it accepts that pair's refresh token only. */
    var venue: Pair
    var file: Option<Pair>
    var lock: Lock
    var processes: map<nat, Process>

    ghost var history: History

    constructor ()
      ensures Valid() && history.saved && history.answered && history.rotating
      ensures file == Some(venue) && processes == map[] && lock == Free
    {
      venue, lock, processes := Pair(1, 1), Free, map[];
      file := Some(Pair(1, 1));
      history := History([0, 1], [0, 0], [0, 0], {0, 1}, 0, true, true, true);
    }

    ghost predicate Valid()
      reads this
    {
      Sound(processes, venue, file, lock, history)
    }

    /** A process starts and reads the file without taking the lock. */
    method Start(p: nat)
      requires Valid() && p !in processes
      modifies this`processes
      ensures Valid()
      ensures var loaded := if file.None? then Pair(0, 0) else file.value;
              processes == old(processes)[p := Process(loaded, loaded)]
    {
      var tokens := if file.None? then Pair(0, 0) else file.value;
      processes := processes[p := Process(tokens, tokens)];
    }

    /** `acquire_session_lock`, for a process that has a refresh token to present. */
    method Acquire(p: nat)
      requires Valid() && p in processes && lock.Free? && processes[p].tokens.refresh != 0
      modifies this`lock
      ensures Valid() && lock == Held(p, Locked)
    {
      lock := Held(p, Locked);
    }

    /** `_adopt_rotated_session`: adopting always moves to a newer pair. */
    method AdoptRotatedSession(p: nat) returns (adopted: bool)
      requires Valid() && p in processes && lock == Held(p, Locked)
      modifies this`processes, this`lock
      ensures Valid() && adopted == (file.Some? && file.value != old(processes[p]).session)
      ensures adopted ==> lock == Held(p, Done) && processes == old(processes)[p := Process(file.value, file.value)]
      ensures adopted ==> file.value.access > old(processes[p]).tokens.access
      ensures !adopted ==> lock == Held(p, MustRefresh) && processes == old(processes)
    {
      AdoptionKeepsSound(p, processes, venue, file, history);
      if file.None? || file.value == processes[p].session {
        lock := Held(p, MustRefresh);
        return false;
      }
      processes, lock := processes[p := Process(file.value, file.value)], Held(p, Done);
      adopted := true;
    }

    /** The refresh request.  The venue accepts the current refresh token only; the answer may be
        lost after the venue has rotated the pair. */
    method Refresh(p: nat, rotates: bool, answer: bool) returns (accepted: bool)
      requires Valid() && p in processes && lock == Held(p, MustRefresh)
      modifies this
      ensures Valid() && file == old(file) && history.saved == old(history.saved)
      ensures accepted <==> old(processes[p]).tokens.refresh == old(venue).refresh
      ensures old(history.saved && history.answered) ==> accepted && old(processes[p]).tokens == old(venue)
      ensures old(history.rotating && history.answered && processes[p].tokens != processes[p].session) ==> accepted
      ensures venue == if !accepted then old(venue)
                       else Pair(old(venue).access + 1, if rotates then old(venue).access + 1 else old(venue).refresh)
      ensures history.presented == old(history.presented) + if accepted then [old(processes[p]).tokens.access] else []
      ensures history.rejected == old(history.rejected) + if accepted then 0 else 1
      ensures lock == Held(p, if accepted && answer then MustSave else Done)
      ensures processes == if accepted && answer then old(processes)[p := Process(venue, old(processes[p]).session)]
                           else old(processes)
      ensures history.answered == (old(history.answered) && (accepted ==> answer))
      ensures history.rotating == (old(history.rotating) && (accepted ==> rotates))
    {
      var tokens := processes[p].tokens;
      accepted := tokens.refresh == venue.refresh;
      if !accepted {
        history, lock := history.(rejected := history.rejected + 1), Held(p, Done);
        return;
      }
      Rotate(p, rotates, answer);
    }

    /** The venue rotates the pair for the lock's holder. */
    method Rotate(p: nat, rotates: bool, answer: bool)
      requires Valid() && p in processes && lock == Held(p, MustRefresh)
      requires processes[p].tokens.refresh == venue.refresh
      modifies this`venue, this`processes, this`lock, this`history
      ensures Valid()
      ensures venue == Pair(old(venue).access + 1, if rotates then old(venue).access + 1 else old(venue).refresh)
      ensures history == Rotated(p, old(processes[p]).tokens, venue, rotates, answer, old(history))
      ensures lock == Held(p, if answer then MustSave else Done)
      ensures processes == if answer then old(processes)[p := Process(venue, old(processes[p]).session)]
                           else old(processes)
    {
      RotationKeepsSound(p, processes, venue, file, rotates, answer, history);
      ghost var was := processes[p].tokens;
      var next := venue.access + 1;
      venue := Pair(next, if rotates then next else venue.refresh);
      history := Rotated(p, was, venue, rotates, answer, history);
      if answer {
        processes := processes[p := Process(venue, processes[p].session)];
      }
      lock := Held(p, if answer then MustSave else Done);
    }

    /** The request fails before the venue looks at the token. */
    method Unreached(p: nat)
      requires Valid() && p in processes && lock == Held(p, MustRefresh)
      modifies this`lock
      ensures Valid() && lock == Held(p, Done)
    {
      lock := Held(p, Done);
    }

    /** `save_session` and the note of the pair saved; a failed save leaves both as they were. */
    method Save(p: nat, succeeds: bool)
      requires Valid() && p in processes && lock == Held(p, MustSave)
      modifies this`file, this`processes, this`lock, this`history
      ensures Valid() && lock == Held(p, Done) && history.saved == (old(history.saved) && succeeds)
      ensures history == Saved(old(venue), succeeds, old(history)) && old(processes[p]).tokens == old(venue)
      ensures succeeds ==> file == Some(processes[p].tokens) && processes == old(processes)[p := Process(venue, venue)]
      ensures !succeeds ==> file == old(file) && processes == old(processes)
    {
      SaveKeepsSound(p, processes, venue, file, succeeds, history);
      history := Saved(processes[p].tokens, succeeds, history);
      if succeeds {
        file := Some(processes[p].tokens);
        processes := processes[p := processes[p].(session := processes[p].tokens)];
      }
      lock := Held(p, Done);
    }

    method Release(p: nat)
      requires Valid() && p in processes && lock == Held(p, Done)
      modifies this`lock
      ensures Valid() && lock == Free
    {
      lock := Free;
    }

    /** A process dies; the operating system drops its lock. */
    method Crash(p: nat)
      requires Valid() && p in processes
      modifies this`lock, this`processes, this`history
      ensures Valid() && processes == old(processes) - {p}
      ensures lock == LockAfterCrash(p, old(lock)) && history == Crashed(p, old(lock), old(history))
    {
      CrashKeepsSound(p, processes, venue, file, lock, history);
      history := Crashed(p, lock, history);
      lock := if lock.Held? && lock.holder == p then Free else lock;
      processes := processes - {p};
    }

    /** The stored session becomes unreadable. */
    method DamageFile()
      requires Valid()
      modifies this`file, this`history
      ensures Valid() && file == None && !history.saved
    {
      file, history := None, history.(saved := false);
    }

    /** `_refresh_and_persist` of one process whose request reaches the venue, with nobody else
        stepping in between.  While every rotation is answered and saved, a process that already uses
        the current pair rotates it and any other adopts it, and both end with the file's pair. */
    method RefreshAndPersist(p: nat, rotates: bool, answer: bool, saves: bool)
      requires Valid() && p in processes && lock.Free? && processes[p].tokens.refresh != 0
      modifies this
      ensures Valid() && lock.Free? && p in processes
      ensures old(history.saved && history.answered) ==>
                venue == if old(processes[p].tokens == venue) then NextPair(old(venue), rotates) else old(venue)
      ensures history.saved && history.answered ==> file == Some(venue) && processes[p] == Process(venue, venue)
      ensures processes[p].tokens.access >= old(processes[p]).tokens.access
    {
      Acquire(p);
      var adopted := AdoptRotatedSession(p);
      if !adopted {
        RefreshAndSave(p, rotates, answer, saves);
      }
      Release(p);
    }

    /** The request and, when its answer arrives, the save. */
    method RefreshAndSave(p: nat, rotates: bool, answer: bool, saves: bool)
      requires Valid() && p in processes && lock == Held(p, MustRefresh)
      modifies this
      ensures Valid() && lock == Held(p, Done) && p in processes
      ensures old(history.saved && history.answered) ==>
                old(processes[p].tokens) == old(venue) && venue == NextPair(old(venue), rotates)
      ensures (history.saved ==> old(history.saved)) && (history.answered ==> old(history.answered))
      ensures history.saved && history.answered ==> file == Some(venue) && processes[p] == Process(venue, venue)
      ensures processes[p].tokens.access >= old(processes[p]).tokens.access
    {
      var accepted := Refresh(p, rotates, answer);
      if !accepted || !answer {
        return;
      }
      ghost var pair := processes[p].tokens;
      Save(p, saves);
      assert processes[p].tokens == pair;
    }

    predicate CanTake(step: Step)
      reads this
    {
      match step
      case Start(p) => p !in processes
      case Acquire(p) => p in processes && lock.Free? && processes[p].tokens.refresh != 0
      case Check(p) => p in processes && lock == Held(p, Locked)
      case Refresh(p, rotates, answered) => p in processes && lock == Held(p, MustRefresh)
      case Unreached(p) => p in processes && lock == Held(p, MustRefresh)
      case Save(p, succeeds) => p in processes && lock == Held(p, MustSave)
      case Release(p) => p in processes && lock == Held(p, Done)
      case Crash(p) => p in processes
      case DamageFile => true
    }

    /** What the step leaves of the processes, the file, the lock and the venue. */
    ghost predicate Taken(
      step: Step, processes0: map<nat, Process>, file0: Option<Pair>, lock0: Lock, venue0: Pair)
      reads this
    {
      && (step.Refresh? || venue == venue0) && (step.Save? || step.DamageFile? || file == file0)
      && match step
         case Start(p) => p in processes && processes - {p} == processes0 && lock == lock0
         case Acquire(p) => processes == processes0 && lock == Held(p, Locked)
         case Check(p) =>
           if file0.Some? && p in processes0 && file0.value != processes0[p].session
           then processes == processes0[p := Process(file0.value, file0.value)] && lock == Held(p, Done)
           else processes == processes0 && lock == Held(p, MustRefresh)
         case Refresh(p, rotates, answered) =>
           if p in processes0 && processes0[p].tokens.refresh == venue0.refresh
           then venue.access == venue0.access + 1 && lock == Held(p, if answered then MustSave else Done)
           else venue == venue0 && processes == processes0 && lock == Held(p, Done)
         case Unreached(p) => processes == processes0 && lock == Held(p, Done)
         case Save(p, succeeds) => lock == Held(p, Done) && file == if succeeds then Some(venue0) else file0
         case Release(p) => processes == processes0 && lock == Free
         case Crash(p) => processes == processes0 - {p}
         case DamageFile => processes == processes0 && file == None && lock == lock0
    }

    /** One step of any process, if it can be taken. */
    method Take(step: Step)
      requires Valid()
      modifies this
      ensures Valid()
      ensures if old(CanTake(step)) then Taken(step, old(processes), old(file), old(lock), old(venue))
              else (processes, file, lock, venue, history) == old((processes, file, lock, venue, history))
    {
      if !CanTake(step) {
        return;
      }
      if step.Check? || step.Refresh? || step.Save? {
        Exchange(step);
      } else {
        match step
        case Start(p) => Start(p);
        case Acquire(p) => Acquire(p);
        case Unreached(p) => Unreached(p);
        case Release(p) => Release(p);
        case Crash(p) => Crash(p);
        case DamageFile => DamageFile();
      }
    }

    /** A step of the process that holds the lock with the file or the venue. */
    method Exchange(step: Step)
      requires Valid() && CanTake(step) && (step.Check? || step.Refresh? || step.Save?)
      modifies this
      ensures Valid() && Taken(step, old(processes), old(file), old(lock), old(venue))
    {
      match step
      case Check(p) => var adopted := AdoptRotatedSession(p);
      case Refresh(p, rotates, answer) => var accepted := Refresh(p, rotates, answer);
      case Save(p, succeeds) => Save(p, succeeds);
    }

    /** Over any interleaving of any number of processes: while every rotation was answered and
        saved, a free lock means the file holds the venue's current pair, no refresh was rejected
        and each pair was refreshed exactly once, in the order issued. */
    method Run(steps: seq<Step>)
      requires Valid()
      modifies this
      ensures Valid()
      ensures history.saved && history.answered ==> history.rejected == 0 && (lock.Free? ==> file == Some(venue))
      ensures history.saved && history.answered ==> |history.presented| == venue.access + 1 && Linear(history.presented)
      ensures history.rotating && history.answered ==>
                forall p :: p in processes && processes[p].tokens != processes[p].session ==>
                  processes[p].tokens == venue
    {
      for i := 0 to |steps|
        invariant Valid()
      {
        Take(steps[i]);
      }
    }
  }

  /** `_reauth_account` runs one caller at a time; `generation` counts the sessions won back. */
  class Reauthorization {
    var generation: nat

    /** A caller passes the generation it saw before its request lost the session; `None` always
        tries.  `works` says whether a try wins the session back. */
    method Reauthorize(seen: Option<nat>, works: bool) returns (tried: bool)
      modifies this
      ensures tried <==> seen.None? || seen.value == old(generation)
      ensures generation == old(generation) + if tried && works then 1 else 0
    {
      if seen.Some? && seen.value != generation {
        return false;
      }
      if works {
        generation := generation + 1;
      }
      tried := true;
    }

    /** A burst of callers that saw the same loss: they try in turn until one wins the session back,
        and the rest do nothing. */
    method Burst(works: seq<bool>) returns (tries: nat)
      modifies this
      ensures tries <= |works| && (forall i :: 0 <= i < tries - 1 ==> !works[i])
      ensures tries < |works| ==> tries > 0 && works[tries - 1]
      ensures generation == old(generation) + if true in works then 1 else 0
    {
      var seen := generation;
      tries := 0;
      for i := 0 to |works|
        invariant tries <= i && (forall k :: 0 <= k < tries - 1 ==> !works[k])
        invariant tries < i ==> tries > 0 && works[tries - 1]
        invariant generation == seen + if tries > 0 && works[tries - 1] then 1 else 0
        invariant true in works[..i] <==> tries > 0 && works[tries - 1]
      {
        assert works[..i + 1] == works[..i] + [works[i]];
        var tried := Reauthorize(Some(seen), works[i]);
        if tried {
          tries := tries + 1;
        }
      }
      assert works[..|works|] == works;
    }
  }
}

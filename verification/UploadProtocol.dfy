/** The upload page as a transition system: several runs of the upload handler may be
    suspended at once, and they share the pause flag and the two abort references.

    Every `await` ends a step; what follows one runs to the next in the same step, past a
    hash that is already there.  A pause, a cancellation and a start are steps too. */
module UploadProtocol {
  import opened Wrappers
  import C = Chunks
  import U = ChunkedUpload

  /** Where a run is suspended. */
  datatype Phase =
    | Opening
    | Putting(index: nat, attempt: nat, aborted: bool)
    | Sleeping(index: nat, attempt: nat)
    | Hashing
    | Finalizing

  /** The archive's hash, computed beside the chunks. */
  datatype Hash = Pending(aborted: bool) | Ready | Lost

  datatype Run = Run(phase: Phase, hash: Hash, total: nat, received: set<nat>, acked: set<nat>)

  /** A session as it is opened: how many chunks, and which the server has. */
  datatype Session = Session(total: nat, received: set<nat>)

  datatype Event =
    | Start
    | Pause
    | Cancel
    | SessionSettles(run: nat, session: Option<Session>)
    | PutSettles(run: nat, ok: bool)
    | DelayEnds(run: nat)
    | HashSettles(run: nat, ok: bool)
    | FinalizeSettles(run: nat)

  // ----- One run, from one await to the next --------------------------------------------

  /** `Puts` starts an attempt with a controller of its own, `Finalizes` calls the finalizer. */
  datatype Outcome = Ends | Waits(run: Run) | Puts(run: Run) | Finalizes(run: Run)

  /** The next chunk from `i` on that the server lacks, or the number of chunks. */
  function NextChunk(run: Run, i: nat): (next: nat)
    requires i <= run.total
    ensures i <= next <= run.total && (next < run.total ==> next !in run.received)
    ensures forall k :: i <= k < next ==> k in run.received
    decreases run.total - i
  {
    if i < run.total && i in run.received then NextChunk(run, i + 1) else i
  }

  /** An attempt begins with a look at the flag. */
  function BeginPut(paused: bool, run: Run, index: nat, attempt: nat): Outcome {
    if paused then Ends else Puts(run.(phase := Putting(index, attempt, false)))
  }

  /** The hash is awaited, and the flag looked at a last time. */
  function AwaitHash(paused: bool, run: Run): Outcome {
    match run.hash
    case Ready => if paused then Ends else Finalizes(run.(phase := Finalizing))
    case Lost => Ends
    case Pending(_) => Waits(run.(phase := Hashing))
  }

  /** The chunk loop from `i` on. */
  function Continue(paused: bool, run: Run, i: nat): Outcome
    requires i <= run.total
  {
    var next := NextChunk(run, i);
    if next < run.total then BeginPut(paused, run, next, 0) else AwaitHash(paused, run)
  }

  /** The run's answer to an event of its own; other events find it where it was. */
  function Resumed(paused: bool, run: Run, e: Event): Outcome {
    match e
    case SessionSettles(_, session) =>
      if !run.phase.Opening? then Waits(run)
      else if session.None? then Ends
      else Continue(paused, run.(total := session.value.total, received := session.value.received), 0)
    case PutSettles(_, ok) =>
      if !run.phase.Putting? || run.phase.index >= run.total then Waits(run)
      else
        var put := run.phase;
        if ok && !put.aborted then Continue(paused, run.(acked := run.acked + {put.index}), put.index + 1)
        else if paused || put.aborted || put.attempt + 1 >= U.MAX_ATTEMPTS then Ends
        else Waits(run.(phase := Sleeping(put.index, put.attempt)))
    case DelayEnds(_) =>
      if run.phase.Sleeping? then BeginPut(paused, run, run.phase.index, run.phase.attempt + 1) else Waits(run)
    case HashSettles(_, ok) =>
      if !run.hash.Pending? then Waits(run)
      else
        var settled := run.(hash := if ok && !run.hash.aborted then Ready else Lost);
        if run.phase.Hashing? then AwaitHash(paused, settled) else Waits(settled)
    case FinalizeSettles(_) => if run.phase.Finalizing? then Ends else Waits(run)
    case _ => Waits(run)
  }

  /** What aborting its attempt's controller, and its hash's, does to a run. */
  function Interrupted(run: Run, put: bool, hash: bool): Run {
    run.(phase := if put && run.phase.Putting? then run.phase.(aborted := true) else run.phase,
         hash := if hash && run.hash.Pending? then Pending(true) else run.hash)
  }

  // ----- The page -------------------------------------------------------------------------

  /** `uploadAbort` and `uploadHashAbort` name the run whose controller they hold.  `runs`
      are the handlers not yet returned; `finals` is history: the runs that called the
      finalizer, as they were then. */
  datatype State = State(
    uploading: bool,
    finalizing: bool,
    pauseRequested: bool,
    uploadAbort: Option<nat>,
    uploadHashAbort: Option<nat>,
    runs: map<nat, Run>,
    next: nat,
    finals: map<nat, Run>)

  function Initial(): State {
    State(false, false, false, None, None, map[], 0, map[])
  }

  /** The `finally` block. */
  function End(s: State, r: nat): State {
    s.(runs := s.runs - {r}, uploading := false, finalizing := false, uploadAbort := None,
       uploadHashAbort := if s.uploadHashAbort == Some(r) then None else s.uploadHashAbort)
  }

  function Apply(s: State, r: nat, outcome: Outcome): State {
    match outcome
    case Ends => End(s, r)
    case Waits(run) => s.(runs := s.runs[r := run])
    case Puts(run) => s.(runs := s.runs[r := run], uploadAbort := Some(r))
    case Finalizes(run) => s.(runs := s.runs[r := run], finalizing := true, finals := s.finals[r := run])
  }

  /** The flag and both aborts, as pausing and cancelling request them. */
  function Interrupt(s: State): State {
    s.(pauseRequested := true,
       runs := map r | r in s.runs ::
         Interrupted(s.runs[r], s.uploadAbort == Some(r), s.uploadHashAbort == Some(r)))
  }

  predicate Accepts(s: State, e: Event) {
    e.Start? && !s.uploading && !s.finalizing
  }

  predicate OfRun(e: Event) {
    !e.Start? && !e.Pause? && !e.Cancel?
  }

  function Step(s: State, e: Event): State {
    match e
    case Start =>
      if !Accepts(s, e) then s
      else s.(uploading := true, pauseRequested := false, uploadHashAbort := Some(s.next),
              runs := s.runs[s.next := Run(Opening, Pending(false), 0, {}, {})], next := s.next + 1)
    case Pause => Interrupt(s).(uploading := false)
    case Cancel => Interrupt(s)
    case _ => if e.run in s.runs then Apply(s, e.run, Resumed(s.pauseRequested, s.runs[e.run], e)) else s
  }

  function RunFrom(s: State, es: seq<Event>): State
    decreases |es|
  {
    if es == [] then s else RunFrom(Step(s, es[0]), es[1..])
  }

  // ----- What every run keeps -----------------------------------------------------------

  /** Every chunk below `i` is on the server. */
  predicate HasBelow(run: Run, i: nat) {
    forall k :: 0 <= k < i ==> k in run.received || k in run.acked
  }

  predicate RunInv(run: Run) {
    && (run.phase.Putting? || run.phase.Sleeping? ==>
          run.phase.index < run.total && HasBelow(run, run.phase.index) && run.phase.attempt < 3)
    && (run.phase.Sleeping? ==> run.phase.attempt < 2)
    && (run.phase.Hashing? ==> run.hash.Pending?)
    && (run.phase.Finalizing? ==> run.hash.Ready?)
    && (run.phase.Hashing? || run.phase.Finalizing? ==> HasBelow(run, run.total))
  }

  predicate OutcomeInv(run: Run, outcome: Outcome) {
    match outcome
    case Ends => true
    case Waits(run') => RunInv(run') && (run'.phase.Finalizing? <==> run.phase.Finalizing?)
    case Puts(run') => RunInv(run') && run'.phase.Putting? && !run.phase.Finalizing?
    case Finalizes(run') => RunInv(run') && run'.phase.Finalizing? && !run.phase.Finalizing?
  }

  lemma ContinueKeepsInv(paused: bool, run: Run, i: nat)
    requires i <= run.total && HasBelow(run, i) && !run.phase.Finalizing?
    ensures OutcomeInv(run, Continue(paused, run, i))
  {
    assert HasBelow(run, NextChunk(run, i));
  }

  lemma ResumedKeepsInv(paused: bool, run: Run, e: Event)
    requires RunInv(run)
    ensures OutcomeInv(run, Resumed(paused, run, e))
  {
    if e.SessionSettles? && e.session.Some? && run.phase.Opening? {
      ContinueKeepsInv(paused, run.(total := e.session.value.total, received := e.session.value.received), 0);
    } else if e.PutSettles? && run.phase.Putting? && e.ok && !run.phase.aborted {
      ContinueKeepsInv(paused, run.(acked := run.acked + {run.phase.index}), run.phase.index + 1);
    }
  }

  predicate Inv(s: State) {
    && (forall r :: r in s.runs ==> r < s.next && RunInv(s.runs[r]))
    && (forall r :: r in s.runs ==> (s.runs[r].phase.Finalizing? <==> r in s.finals))
    && (forall r :: r in s.finals ==> r < s.next && HasBelow(s.finals[r], s.finals[r].total))
  }

  lemma ApplyKeepsInv(s: State, r: nat, outcome: Outcome)
    requires Inv(s) && r in s.runs && OutcomeInv(s.runs[r], outcome)
    ensures Inv(Apply(s, r, outcome))
  {}

  lemma InterruptKeepsInv(s: State)
    requires Inv(s)
    ensures Inv(Interrupt(s))
  {
    forall r | r in s.runs ensures RunInv(Interrupt(s).runs[r]) { assert RunInv(s.runs[r]); }
  }

  lemma StepKeepsInv(s: State, e: Event)
    requires Inv(s)
    ensures Inv(Step(s, e)) && s.next <= Step(s, e).next
  {
    if OfRun(e) {
      if e.run in s.runs {
        ResumedKeepsInv(s.pauseRequested, s.runs[e.run], e);
        ApplyKeepsInv(s, e.run, Resumed(s.pauseRequested, s.runs[e.run], e));
      }
    } else if e.Start? {
      assert Inv(Step(s, e));
    } else {
      InterruptKeepsInv(s);
    }
  }

  predicate IsFinalizing(s: State, r: nat) {
    r in s.runs && s.runs[r].phase.Finalizing?
  }

  /** The finalizing flag is up only while some run is waiting for the finalizer. */
  ghost predicate FinalizingInv(s: State) {
    s.finalizing ==> exists r :: IsFinalizing(s, r)
  }

  lemma StepKeepsFinalizing(s: State, e: Event)
    requires Inv(s) && FinalizingInv(s)
    ensures FinalizingInv(Step(s, e))
  {
    var s' := Step(s, e);
    if OfRun(e) && e.run in s.runs { ResumedKeepsInv(s.pauseRequested, s.runs[e.run], e); }
    if s'.finalizing {
      if s.finalizing {
        var f :| IsFinalizing(s, f);
        assert IsFinalizing(s', f);
      } else {
        assert IsFinalizing(s', e.run);
      }
    }
  }

  lemma {:induction false} RunKeepsInv(s: State, es: seq<Event>)
    requires Inv(s) && FinalizingInv(s)
    ensures Inv(RunFrom(s, es)) && FinalizingInv(RunFrom(s, es))
    decreases |es|
  {
    if es != [] {
      StepKeepsInv(s, es[0]);
      StepKeepsFinalizing(s, es[0]);
      RunKeepsInv(Step(s, es[0]), es[1..]);
    }
  }

  /** In every history of the page, whichever uploads overlap, an upload reaches the
      finalizer only with every chunk received before or acknowledged to it; so the chunks
      on the server, laid end to end, are the file. */
  lemma {:induction false} FinalizedHasEveryChunk(
      es: seq<Event>, r: nat, session: U.Session, file: seq<C.Byte>, before: map<nat, seq<C.Byte>>)
    requires r in RunFrom(Initial(), es).finals
    ensures var run := RunFrom(Initial(), es).finals[r];
      && HasBelow(run, run.total)
      && (U.Fits(session, file) && U.ReceivedRight(session, file, before)
          && session.totalChunks == run.total && session.received == run.received
          ==>
          C.Joined((i: nat) => U.Held(before, Acknowledged(run, session.chunkSize, file), i), run.total) == file)
  {
    RunKeepsInv(Initial(), es);
    var run := RunFrom(Initial(), es).finals[r];
    if U.Fits(session, file) && U.ReceivedRight(session, file, before)
       && session.totalChunks == run.total && session.received == run.received {
      U.FinalizedUploadIsTheFile(session, file, before, Acknowledged(run, session.chunkSize, file));
    }
  }

  /** What the server stored for the chunks it acknowledged. */
  function Acknowledged(run: Run, chunkSize: nat, file: seq<C.Byte>): map<nat, seq<C.Byte>> {
    map i | i in run.acked :: C.Chunk(file, chunkSize, i)
  }

  // ----- Attempts ----------------------------------------------------------------------------

  /** A chunk is tried three times at most: a first and a second failure that nobody
      interrupts wait and try the same chunk again, a third gives the upload up. */
  lemma ThreeAttempts(run: Run, r: nat)
    requires RunInv(run) && run.phase.Putting? && !run.phase.aborted
    ensures var failed := Resumed(false, run, PutSettles(r, false));
      if run.phase.attempt < 2 then
        && failed == Waits(run.(phase := Sleeping(run.phase.index, run.phase.attempt)))
        && Resumed(false, failed.run, DelayEnds(r))
             == Puts(run.(phase := Putting(run.phase.index, run.phase.attempt + 1, false)))
      else failed.Ends?
  {}

  /** An acknowledged chunk is on record, and the next one the server lacks is tried, from
      its first attempt; when none is left the hash is awaited or the finalizer called. */
  lemma {:induction false} AcknowledgedGoesOn(run: Run, r: nat)
    requires RunInv(run) && run.phase.Putting? && !run.phase.aborted
    ensures var outcome := Resumed(false, run, PutSettles(r, true));
      && (outcome.Ends? ==> run.hash.Lost?)
      && (!outcome.Ends? ==> outcome.run.acked == run.acked + {run.phase.index})
      && (outcome.Puts? ==>
            && outcome.run.phase.attempt == 0 && run.phase.index < outcome.run.phase.index < run.total
            && outcome.run.phase.index !in run.received
            && forall k :: run.phase.index < k < outcome.run.phase.index ==> k in run.received)
      && (!outcome.Puts? ==> forall k :: run.phase.index < k < run.total ==> k in run.received)
      && (outcome.Finalizes? ==> run.hash.Ready?) && (outcome.Waits? ==> run.hash.Pending?)
  {}

  /** An opened session is taken as it is: the first chunk the server lacks is tried, or the
      hash awaited if it lacks none; without a session the run ends. */
  lemma {:induction false} SessionOpens(run: Run, r: nat, session: Session)
    requires run.phase.Opening?
    ensures Resumed(false, run, SessionSettles(r, None)).Ends?
    ensures var outcome := Resumed(false, run, SessionSettles(r, Some(session)));
      && (outcome.Ends? ==> run.hash.Lost?)
      && (!outcome.Ends? ==> outcome.run.total == session.total && outcome.run.received == session.received)
      && (outcome.Puts? ==>
            && outcome.run.phase.attempt == 0 && outcome.run.phase.index < session.total
            && outcome.run.phase.index !in session.received
            && forall k :: 0 <= k < outcome.run.phase.index ==> k in session.received)
      && (!outcome.Puts? ==> forall k :: 0 <= k < session.total ==> k in session.received)
  {}

  /** The hash is there exactly if it was computed to its end, and a run without it ends where
      it would need it. */
  lemma HashSettlesExactly(paused: bool, run: Run, r: nat, ok: bool)
    requires RunInv(run) && run.hash.Pending?
    ensures var outcome := Resumed(paused, run, HashSettles(r, ok));
      && (!run.phase.Hashing? ==> outcome == Waits(run.(hash := if ok && !run.hash.aborted then Ready else Lost)))
      && (run.phase.Hashing? ==>
            if ok && !run.hash.aborted && !paused then outcome.Finalizes? else outcome.Ends?)
  {}

  /** A start that is accepted begins a new run, opens its session and clears the flag, and
      the run's end lowers the flags that keep another from starting. */
  lemma StartsAndEnds(s: State, r: nat)
    requires Inv(s)
    ensures var s' := Step(s, Start);
      if s.uploading || s.finalizing then s' == s
      else
        && s.next in s'.runs && s'.runs[s.next].phase.Opening? && s'.runs[s.next].hash == Pending(false)
        && s'.uploading && !s'.pauseRequested && s'.uploadHashAbort == Some(s.next)
        && s'.runs - {s.next} == s.runs && s'.finals == s.finals
    ensures IsFinalizing(s, r) ==>
      var s' := Step(s, FinalizeSettles(r));
      && r !in s'.runs && !s'.uploading && !s'.finalizing
      && s'.uploadHashAbort == (if s.uploadHashAbort == Some(r) then None else s.uploadHashAbort)
  {}

  // ----- What a pause stops ----------------------------------------------------------------

  /** While the flag is up a run that looks at it ends: afterwards it has returned, is where
      it was, or waits for its hash, which it does without a look. */
  lemma PausedRunEnds(run: Run, e: Event)
    ensures var outcome := Resumed(true, run, e);
      && !outcome.Puts? && !outcome.Finalizes?
      && (outcome.Waits? ==> outcome.run.phase == run.phase || outcome.run.phase.Hashing?)
  {}

  lemma PauseHolds(s: State, e: Event)
    requires s.pauseRequested && !Accepts(s, e)
    ensures Step(s, e).pauseRequested && Step(s, e).finals == s.finals
  {
    if OfRun(e) && e.run in s.runs { PausedRunEnds(s.runs[e.run], e); }
  }

  /** Some upload is started in the course of these events. */
  predicate Restarts(s: State, es: seq<Event>)
    decreases |es|
  {
    es != [] && (Accepts(s, es[0]) || Restarts(Step(s, es[0]), es[1..]))
  }

  /** A pause or a cancellation holds until the next upload is started: whatever settles
      and whatever is pressed, no run reaches the finalizer any more. */
  lemma {:induction false} PauseHoldsUntilRestart(s: State, es: seq<Event>)
    requires s.pauseRequested && !Restarts(s, es)
    ensures RunFrom(s, es).finals == s.finals && RunFrom(s, es).pauseRequested
    decreases |es|
  {
    if es != [] {
      PauseHolds(s, es[0]);
      PauseHoldsUntilRestart(Step(s, es[0]), es[1..]);
    }
  }

  // ----- What a restart lets through ---------------------------------------------------------

  /** The hash will never be there, or the answer awaited is that of an aborted attempt. */
  predicate RunDoomed(run: Run) {
    run.hash.Lost? || run.hash == Pending(true) || (run.phase.Putting? && run.phase.aborted)
  }

  /** The run has not returned and is not doomed. */
  predicate Viable(s: State, r: nat) {
    r in s.runs && !RunDoomed(s.runs[r])
  }

  lemma DoomedStays(paused: bool, run: Run, e: Event)
    requires RunInv(run) && RunDoomed(run)
    ensures !Resumed(paused, run, e).Finalizes?
    ensures !Resumed(paused, run, e).Ends? ==> RunDoomed(Resumed(paused, run, e).run)
  {}

  /** Nothing revives a run that is not viable, not even a restart. */
  lemma NothingRevives(s: State, e: Event, r: nat)
    requires Inv(s) && !Viable(s, r) && r !in s.finals && r < s.next
    ensures !Viable(Step(s, e), r) && r !in Step(s, e).finals
  {
    if OfRun(e) && e.run in s.runs && e.run == r { DoomedStays(s.pauseRequested, s.runs[r], e); }
  }

  lemma {:induction false} DoomedNeverFinalizes(s: State, es: seq<Event>, r: nat)
    requires Inv(s) && !Viable(s, r) && r !in s.finals && r < s.next
    ensures r !in RunFrom(s, es).finals
    decreases |es|
  {
    if es != [] {
      StepKeepsInv(s, es[0]);
      NothingRevives(s, es[0], r);
      DoomedNeverFinalizes(Step(s, es[0]), es[1..], r);
    }
  }

  /** How far a run is from its hash. */
  function Work(run: Run): nat {
    match run.phase
    case Opening => 1
    case Putting(i, _, _) => if i < run.total then 2 * (run.total - i) else 0
    case Sleeping(i, _) => if i < run.total then 2 * (run.total - i) + 1 else 0
    case _ => 0
  }

  /** The event that helps a run on. */
  function Help(r: nat, run: Run): Event {
    if run.hash.Pending? then HashSettles(r, true)
    else if run.phase.Opening? then SessionSettles(r, Some(Session(0, {})))
    else if run.phase.Putting? then PutSettles(r, true)
    else DelayEnds(r)
  }

  lemma Helped(r: nat, run: Run)
    requires RunInv(run) && !RunDoomed(run) && !run.phase.Finalizing?
    ensures var outcome := Resumed(false, run, Help(r, run));
      && !outcome.Ends? && !RunDoomed(outcome.run)
      && (outcome.Finalizes?
          || (run.hash.Pending? && outcome.run.hash.Ready?)
          || (run.hash.Ready? && outcome.run.hash.Ready? && Work(outcome.run) < Work(run)))
  {}

  /** With the flag down, any viable run can go all the way. */
  lemma {:induction false} CanFinish(s: State, r: nat) returns (es: seq<Event>)
    requires Inv(s) && !s.pauseRequested && Viable(s, r)
    ensures r in RunFrom(s, es).finals
    decreases s.runs[r].hash.Pending?, Work(s.runs[r])
  {
    if r in s.finals {
      es := [];
    } else {
      var e := Help(r, s.runs[r]);
      Helped(r, s.runs[r]);
      StepKeepsInv(s, e);
      var rest := CanFinish(Step(s, e), r);
      es := [e] + rest;
      assert es[1..] == rest;
    }
  }

  /** While the flag is up, whatever the two references still hold has been aborted. */
  ghost predicate InterruptedInv(s: State) {
    s.pauseRequested ==>
      && (s.uploadAbort.Some? && s.uploadAbort.value in s.runs && s.runs[s.uploadAbort.value].phase.Putting? ==>
            s.runs[s.uploadAbort.value].phase.aborted)
      && (s.uploadHashAbort.Some? && s.uploadHashAbort.value in s.runs ==>
            s.runs[s.uploadHashAbort.value].hash != Pending(false))
  }

  lemma PausedKeepsAborts(run: Run, e: Event)
    ensures var outcome := Resumed(true, run, e);
      outcome.Waits? ==>
        && (run.hash != Pending(false) ==> outcome.run.hash != Pending(false))
        && (outcome.run.phase.Putting? ==> outcome.run.phase == run.phase)
  {}

  lemma StepKeepsInterrupted(s: State, e: Event)
    requires InterruptedInv(s)
    ensures InterruptedInv(Step(s, e))
  {
    if OfRun(e) && e.run in s.runs && s.pauseRequested {
      PausedRunEnds(s.runs[e.run], e);
      PausedKeepsAborts(s.runs[e.run], e);
    }
  }

  ghost predicate Reachable(s: State) {
    exists es :: s == RunFrom(Initial(), es)
  }

  lemma {:induction false} RunKeepsInterrupted(s: State, es: seq<Event>)
    requires InterruptedInv(s)
    ensures InterruptedInv(RunFrom(s, es))
    decreases |es|
  {
    if es != [] {
      StepKeepsInterrupted(s, es[0]);
      RunKeepsInterrupted(Step(s, es[0]), es[1..]);
    }
  }

  lemma ReachableInv(s: State)
    requires Reachable(s)
    ensures Inv(s) && FinalizingInv(s) && InterruptedInv(s)
  {
    var es :| s == RunFrom(Initial(), es);
    RunKeepsInv(Initial(), es);
    RunKeepsInterrupted(Initial(), es);
  }

  /** From a paused page a viable run can be let through: once nothing is being finalized,
      pause again, which aborts nothing more, and start another upload. */
  lemma {:induction false} CanRestart(s: State, r: nat) returns (es: seq<Event>)
    requires Inv(s) && FinalizingInv(s) && InterruptedInv(s) && s.pauseRequested
    requires Viable(s, r) && r !in s.finals
    ensures r in RunFrom(s, es).finals
    decreases s.finalizing
  {
    if s.finalizing {
      var f :| IsFinalizing(s, f);
      var e := FinalizeSettles(f);
      StepKeepsInv(s, e);
      StepKeepsFinalizing(s, e);
      StepKeepsInterrupted(s, e);
      var rest := CanRestart(Step(s, e), r);
      es := [e] + rest;
      assert es[1..] == rest;
    } else {
      var idle := Step(s, Pause);
      StepKeepsInv(s, Pause);
      StepKeepsInv(idle, Start);
      assert Viable(idle, r) && Viable(Step(idle, Start), r);
      var rest := CanFinish(Step(idle, Start), r);
      es := [Pause, Start] + rest;
      assert es[1..][1..] == rest && es[1..][0] == Start;
    }
  }

  /** In any state the page can be in, a run can still reach the finalizer if and only if it
      has done so, or is viable: not returned, its hash there or still computed, and not
      waiting for the answer of an aborted attempt.  Whether a pause was requested does not
      matter. */
  lemma {:induction false} FinalizesExactly(s: State, r: nat)
    requires Reachable(s) && r < s.next
    ensures (exists es :: r in RunFrom(s, es).finals) <==> r in s.finals || Viable(s, r)
  {
    ReachableInv(s);
    if r in s.finals {
      assert r in RunFrom(s, []).finals;
    } else if Viable(s, r) {
      var es;
      if s.pauseRequested { es := CanRestart(s, r); } else { es := CanFinish(s, r); }
      assert r in RunFrom(s, es).finals;
    } else {
      forall es ensures r !in RunFrom(s, es).finals { DoomedNeverFinalizes(s, es, r); }
    }
  }

  /** The run slips through a pause or a cancellation made now: neither abort reaches
      anything it waits for. */
  predicate Escapes(s: State, r: nat) {
    && Viable(s, r)
    && (s.uploadHashAbort == Some(r) ==> !s.runs[r].hash.Pending?)
    && (s.uploadAbort == Some(r) ==> !s.runs[r].phase.Putting?)
  }

  lemma Extends(s: State, e: Event)
    requires Reachable(s)
    ensures Reachable(Step(s, e))
  {
    var es :| s == RunFrom(Initial(), es);
    RunSnoc(Initial(), es, e);
    assert Step(s, e) == RunFrom(Initial(), es + [e]);
  }

  lemma {:induction false} RunSnoc(s: State, es: seq<Event>, e: Event)
    ensures RunFrom(s, es + [e]) == Step(RunFrom(s, es), e)
    decreases |es|
  {
    if es == [] {
      assert [] + [e] == [e] && [e][1..] == [];
    } else {
      assert (es + [e])[1..] == es[1..] + [e];
      RunSnoc(Step(s, es[0]), es[1..], e);
    }
  }

  /** Exactly what the pause button leaves open: a run that had not called the finalizer
      when it was paused or cancelled can still call it if and only if it escapes, and it
      never does unless another upload is started. */
  lemma {:induction false} PausedUploadFinalizesExactly(s: State, e: Event, r: nat)
    requires Reachable(s) && r < s.next && r !in s.finals && (e.Pause? || e.Cancel?)
    ensures (exists es :: r in RunFrom(Step(s, e), es).finals) <==> Escapes(s, r)
    ensures forall es :: r in RunFrom(Step(s, e), es).finals ==> Restarts(Step(s, e), es)
  {
    Extends(s, e);
    FinalizesExactly(Step(s, e), r);
    forall es | r in RunFrom(Step(s, e), es).finals ensures Restarts(Step(s, e), es) {
      if !Restarts(Step(s, e), es) { PauseHoldsUntilRestart(Step(s, e), es); }
    }
  }

  predicate LoneInv(s: State) {
    s.next == 1 && 0 in s.runs ==>
      && s.uploadHashAbort == Some(0) && (s.runs[0].phase.Putting? ==> s.uploadAbort == Some(0))
  }

  lemma ResumedPuts(paused: bool, run: Run, e: Event)
    ensures var outcome := Resumed(paused, run, e);
      (outcome.Waits? && outcome.run.phase.Putting? ==> run.phase.Putting?)
      && (outcome.Finalizes? ==> !outcome.run.phase.Putting?)
  {}

  lemma StepKeepsLone(s: State, e: Event)
    requires Inv(s) && LoneInv(s)
    ensures LoneInv(Step(s, e))
  {
    if OfRun(e) && e.run in s.runs { ResumedPuts(s.pauseRequested, s.runs[e.run], e); }
  }

  lemma {:induction false} RunKeepsLone(s: State, es: seq<Event>)
    requires Inv(s) && LoneInv(s)
    ensures LoneInv(RunFrom(s, es))
    decreases |es|
  {
    if es != [] {
      StepKeepsInv(s, es[0]);
      StepKeepsLone(s, es[0]);
      RunKeepsLone(Step(s, es[0]), es[1..]);
    }
  }

  /** The first upload of a page escapes a pause exactly if its hash is there and it is
      asleep between two attempts or still opening its session. */
  lemma {:induction false} LoneRunEscapes(s: State)
    requires Reachable(s) && s.next == 1 && 0 !in s.finals
    ensures Escapes(s, 0) <==>
      0 in s.runs && s.runs[0].hash.Ready? && (s.runs[0].phase.Sleeping? || s.runs[0].phase.Opening?)
  {
    ReachableInv(s);
    var es :| s == RunFrom(Initial(), es);
    RunKeepsLone(Initial(), es);
  }

  /** An upload of one chunk whose attempt fails, paused while it waits to try again. */
  function PausedAsleep(): seq<Event> {
    [Start, SessionSettles(0, Some(Session(1, {}))), HashSettles(0, true), PutSettles(0, false), Pause]
  }

  /** Another upload is started before the wait is over. */
  function Overtaken(): seq<Event> {
    [Start, DelayEnds(0), PutSettles(0, true)]
  }

  /** The paused upload goes on and is finalized. */
  lemma PausedUploadFinalizes()
    ensures var paused := RunFrom(Initial(), PausedAsleep());
      && paused.pauseRequested && 0 !in paused.finals
      && 0 in RunFrom(paused, Overtaken()).finals
  {
  }
}

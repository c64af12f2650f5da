/** The log tailer as a transition system beside the server log it caches.

    Every `await` ends a step; superseded coroutines stay suspended and may
    still be answered.  Callbacks close over the filters of the render that made
    them, so the events that start requests carry those filters.  `range` is
    history: the stretch of the server log the buffer stands for. */
module LogProtocol {
  import opened Wrappers
  import opened LogMerge

  type Filter = nat

  /** The server: an append-only log, and which entries a filter selects. */
  datatype Server = Server(log: seq<Entry>, matches: (Filter, Entry) -> bool)

  datatype Coroutine =
    | Tail(filter: Filter)
    | Poll(filter: Filter, cursor: Cursor, incoming: seq<Entry>, batch: nat)
    | Older(filter: Filter)

  datatype Range = Range(from: nat, to: nat)

  datatype Tailer = Tailer(
    server: Server,
    filters: Filter,
    version: nat,
    active: Option<nat>,
    cursor: Option<Cursor>,
    ready: bool,
    viewingHistory: bool,
    snapshot: Option<Snapshot>,
    requests: map<nat, Coroutine>,
    range: Range)

  ghost function Create(server: Server, filters: Filter): Tailer {
    Tailer(server, filters, 0, None, None, false, false, None, map[], Range(0, 0))
  }

  ghost function Select(server: Server, f: Filter, log: seq<Entry>): seq<Entry> {
    if log == [] then []
    else (if server.matches(f, log[0]) then [log[0]] else []) + Select(server, f, log[1..])
  }

  /** Begins a request that supersedes every other. */
  ghost function Begin(s: Tailer, request: Coroutine): Tailer {
    s.(version := s.version + 1, active := Some(s.version + 1), requests := s.requests[s.version + 1 := request])
  }

  ghost function Invalidate(s: Tailer): Tailer {
    s.(version := s.version + 1, active := None)
  }

  /** The end of a request's coroutine. */
  ghost function Finish(s: Tailer, v: nat): Tailer {
    s.(requests := s.requests - {v}, active := if s.active == Some(v) then None else s.active)
  }

  ghost function LoadTail(s: Tailer, f: Filter, interrupt: bool): Tailer {
    if s.active.Some? && !interrupt then s else Begin(s, Tail(f))
  }

  ghost function StartPoll(s: Tailer, f: Filter): Tailer {
    if s.viewingHistory then s
    else if !s.ready || s.cursor.None? then s.(ready := false)
    else if s.active.Some? then s
    else Begin(s, Poll(f, s.cursor.value, [], 0))
  }

  ghost function LoadOlder(s: Tailer, f: Filter): Tailer {
    if s.snapshot.None? || !s.snapshot.value.hasMore || s.snapshot.value.entries == [] then s
    else Begin(s, Older(f)).(viewingHistory := true)
  }

  ghost function ChangeFilters(s: Tailer, f: Filter): Tailer {
    LoadTail(Invalidate(s).(cursor := None, ready := false, viewingHistory := false, snapshot := None, filters := f),
             f, true)
  }

  ghost function Cleared(snapshot: Option<Snapshot>): Option<Snapshot> {
    if snapshot.None? then None
    else
      var c := snapshot.value;
      Some(c.(entries := [], matched := 0, storage := c.storage.(bytes := 0), nextCursor := None, reset := true))
  }

  ghost function ResetAfterClear(s: Tailer, f: Filter): Tailer {
    LoadTail(Invalidate(s).(cursor := None, ready := false, snapshot := Cleared(s.snapshot), range := Range(0, 0)),
             f, true)
  }

  ghost function TailAnswered(s: Tailer, reply: Snapshot, range: Range): Tailer {
    s.(cursor := reply.nextCursor, ready := reply.nextCursor.Some?, viewingHistory := false,
       snapshot := Some(Bounded(reply)), range := range)
  }

  /** A poll is over: the collected batches are merged in one update. */
  ghost function PollDone(
      s: Tailer, cursor: Option<Cursor>, latest: Snapshot, incoming: seq<Entry>, range: Range): Tailer
  {
    s.(cursor := cursor, ready := cursor.Some?, snapshot := Some(MergedSnapshot(s.snapshot, latest, incoming)),
       range := range)
  }

  ghost function PollAnswered(s: Tailer, v: nat, reply: Snapshot, hidden: bool, range: Range): Tailer
    requires v in s.requests && s.requests[v].Poll?
  {
    var poll := s.requests[v];
    if reply.reset then
      Finish(PollDone(s, reply.nextCursor, reply, poll.incoming, range), v)
    else
      var incoming := Merged(poll.incoming, reply.entries, BUFFER_LIMIT);
      var cursor := reply.nextCursor.GetOr(poll.cursor);
      var catchUp := |reply.entries| >= FETCH_BATCH_LIMIT;
      if !catchUp || reply.nextCursor.None? || hidden || poll.batch + 1 >= MAX_CATCH_UP_BATCHES then
        Finish(PollDone(s, Some(cursor), reply, incoming, Range(s.range.from, range.to)), v)
      else
        s.(requests := s.requests[v := poll.(cursor := cursor, incoming := incoming, batch := poll.batch + 1)])
  }

  ghost function Answered(s: Tailer, v: nat, reply: Snapshot, hidden: bool, range: Range): Tailer
    requires v in s.requests
  {
    if s.version != v then Finish(s, v)
    else
      match s.requests[v]
      case Tail(_) => Finish(TailAnswered(s, reply, range), v)
      case Poll(_, _, _, _) => PollAnswered(s, v, reply, hidden, range)
      case Older(_) => Finish(s.(snapshot := Some(Bounded(reply))), v)
  }

  datatype Event =
    | Append(entry: Entry)
    | FilterChange(filter: Filter)
    | Reload(filter: Filter, interrupt: bool)
    | PollTick(filter: Filter)
    | HistoryLoad(filter: Filter)
    | Clear(filter: Filter)
    | Unmount
    | Answer(version: nat, reply: Snapshot, hidden: bool, range: Range)
    | Failure(version: nat)

  ghost function Step(s: Tailer, e: Event): Tailer {
    match e
    case Append(entry) => s.(server := s.server.(log := s.server.log + [entry]))
    case FilterChange(f) => ChangeFilters(s, f)
    case Reload(f, interrupt) => LoadTail(s, f, interrupt)
    case PollTick(f) => StartPoll(s, f)
    case HistoryLoad(f) => LoadOlder(s, f)
    case Clear(f) => ResetAfterClear(s, f)
    case Unmount => Invalidate(s)
    case Answer(v, reply, hidden, range) => if v in s.requests then Answered(s, v, reply, hidden, range) else s
    case Failure(v) => if v in s.requests then Finish(s, v) else s
  }

  lemma PollStep(s: Tailer, v: nat, reply: Snapshot, hidden: bool, range: Range)
    requires v in s.requests && s.requests[v].Poll?
    ensures Step(s, Answer(v, reply, hidden, range)) ==
      if s.version == v then PollAnswered(s, v, reply, hidden, range) else Finish(s, v)
  {}

  // ----- The server's side ------------------------------------------------------

  /** Ids only grow, and a response holds no more entries than were asked for and shows a
      stretch of the log: a tail or reset response any stretch, an increment the stretch
      from the request's cursor to the new one.  The log may have grown since the response
      was computed. */
  ghost predicate Honest(s: Tailer, e: Event) {
    match e
    case Append(entry) => s.server.log == [] || s.server.log[|s.server.log| - 1].id < entry.id
    case Answer(v, reply, _, range) =>
      v in s.requests && !s.requests[v].Older? ==>
        && range.from <= range.to <= |s.server.log|
        && |reply.entries| <= FETCH_BATCH_LIMIT
        && reply.entries == Select(s.server, s.requests[v].filter, s.server.log[range.from..range.to])
        && (reply.nextCursor.Some? ==> reply.nextCursor == Some(range.to))
        && (s.requests[v].Poll? && !reply.reset ==> range.from == s.requests[v].cursor && reply.nextCursor.Some?)
    case _ => true
  }

  /** Callbacks are called with the filters last committed. */
  predicate UpToDate(s: Tailer, e: Event) {
    e.Reload? || e.PollTick? || e.HistoryLoad? || e.Clear? ==> e.filter == s.filters
  }

  // ----- The invariant ------------------------------------------------------------

  ghost function Shown(s: Tailer, from: nat, to: nat): seq<Entry>
    requires from <= to <= |s.server.log|
  {
    Suffix(Select(s.server, s.filters, s.server.log[from..to]), BUFFER_LIMIT)
  }

  ghost predicate RequestsInv(s: Tailer) {
    && (forall v :: v in s.requests ==> v <= s.version)
    && (s.active.Some? ==> s.active == Some(s.version) && s.version in s.requests)
    && (s.version in s.requests ==> s.requests[s.version].filter == s.filters)
    && (s.version in s.requests && s.requests[s.version].Older? ==> s.viewingHistory)
  }

  ghost predicate CacheInv(s: Tailer) {
    && s.range.from <= s.range.to <= |s.server.log|
    && (s.ready ==> s.cursor.Some?)
    && (s.cursor.Some? ==> s.snapshot.Some?)
    && (!s.viewingHistory && s.cursor.Some? ==> s.cursor == Some(s.range.to))
    && (!s.viewingHistory && s.snapshot.Some? ==> s.snapshot.value.entries == Shown(s, s.range.from, s.range.to))
  }

  ghost predicate PollInv(s: Tailer) {
    s.range.to <= |s.server.log| && s.version in s.requests && s.requests[s.version].Poll? ==>
      var poll := s.requests[s.version];
      && !s.viewingHistory && s.cursor.Some? && s.range.to <= poll.cursor <= |s.server.log|
      && poll.incoming == Shown(s, s.range.to, poll.cursor)
      && |poll.incoming| <= poll.batch * FETCH_BATCH_LIMIT && poll.batch < MAX_CATCH_UP_BATCHES
  }

  ghost predicate Inv(s: Tailer) {
    Increasing(s.server.log) && RequestsInv(s) && CacheInv(s) && PollInv(s)
  }

  // ----- Selecting from stretches ---------------------------------------------------

  lemma {:induction false} SelectJoins(server: Server, f: Filter, a: seq<Entry>, b: seq<Entry>)
    ensures Select(server, f, a + b) == Select(server, f, a) + Select(server, f, b)
  {
    if a == [] {
      assert a + b == b;
    } else {
      assert (a + b)[1..] == a[1..] + b;
      SelectJoins(server, f, a[1..], b);
    }
  }

  lemma {:induction false} SelectFrom(server: Server, f: Filter, log: seq<Entry>)
    ensures forall e :: e in Select(server, f, log) <==> e in log && server.matches(f, e)
  {
    if log != [] {
      SelectFrom(server, f, log[1..]);
      assert log == [log[0]] + log[1..];
    }
  }

  lemma {:induction false} SelectIncreases(server: Server, f: Filter, log: seq<Entry>)
    requires Increasing(log)
    ensures Increasing(Select(server, f, log))
  {
    if log != [] {
      var rest := Select(server, f, log[1..]);
      SelectIncreases(server, f, log[1..]);
      SelectFrom(server, f, log[1..]);
      forall k | 0 <= k < |rest| ensures log[0].id < rest[k].id { assert rest[k] in log[1..]; }
    }
  }

  /** Stretches that touch merge to the joint stretch, however each was bounded. */
  lemma MergeStretches(server: Server, f: Filter, a: nat, b: nat, c: nat, limit: nat)
    requires Increasing(server.log) && a <= b <= c <= |server.log|
    ensures var first := Select(server, f, server.log[a..b]); var second := Select(server, f, server.log[b..c]);
            var joint := Suffix(Select(server, f, server.log[a..c]), limit);
      && Merged(Suffix(first, limit), second, limit) == joint
      && Merged(Suffix(first, limit), Suffix(second, limit), limit) == joint
  {
    var first, second := Select(server, f, server.log[a..b]), Select(server, f, server.log[b..c]);
    assert server.log[a..b] + server.log[b..c] == server.log[a..c];
    SelectJoins(server, f, server.log[a..b], server.log[b..c]);
    IncreasingPart(server.log, a, c);
    SelectIncreases(server, f, server.log[a..c]);
    MergeBounded(first, second, limit);
  }

  // ----- Every step keeps the invariant ------------------------------------------------

  lemma AppendKeepsInv(s: Tailer, e: Event)
    requires Inv(s) && e.Append? && Honest(s, e)
    ensures Inv(Step(s, e))
  {
    var s' := Step(s, e);
    assert forall i :: 0 <= i < |s.server.log| ==> s'.server.log[i] == s.server.log[i];
    if s.range.from <= s.range.to <= |s.server.log| {
      assert s'.server.log[s.range.from..s.range.to] == s.server.log[s.range.from..s.range.to];
      SameMatches(s.server, s'.server, s.filters, s.server.log[s.range.from..s.range.to]);
    }
    if s.version in s.requests && s.requests[s.version].Poll? {
      var to := s.requests[s.version].cursor;
      assert s'.server.log[s.range.to..to] == s.server.log[s.range.to..to];
      SameMatches(s.server, s'.server, s.filters, s.server.log[s.range.to..to]);
    }
  }

  lemma {:induction false} SameMatches(a: Server, b: Server, f: Filter, log: seq<Entry>)
    requires a.matches == b.matches
    ensures Select(a, f, log) == Select(b, f, log)
  {
    if log != [] { SameMatches(a, b, f, log[1..]); }
  }

  lemma CallKeepsInv(s: Tailer, e: Event)
    requires Inv(s) && UpToDate(s, e)
    requires !e.Append? && !e.Answer?
    ensures Inv(Step(s, e))
  {
    if e.PollTick? || e.Clear? {
      assert s.server.log[s.range.to..s.range.to] == [];
      assert Select(s.server, s.filters, []) == [];
      assert s.server.log[0..0] == [];
    }
  }

  /** The poll's buffer after one more honest batch. */
  lemma BatchExtends(s: Tailer, e: Event)
    requires Inv(s) && e.Answer? && Honest(s, e) && !e.reply.reset
    requires e.version in s.requests && e.version == s.version && s.requests[e.version].Poll?
    ensures s.range.to <= e.range.to <= |s.server.log|
    ensures Merged(s.requests[s.version].incoming, e.reply.entries, BUFFER_LIMIT) == Shown(s, s.range.to, e.range.to)
    ensures Merged(s.snapshot.value.entries, Shown(s, s.range.to, e.range.to), BUFFER_LIMIT)
      == Shown(s, s.range.from, e.range.to)
  {
    MergeStretches(s.server, s.filters, s.range.to, s.requests[s.version].cursor, e.range.to, BUFFER_LIMIT);
    MergeStretches(s.server, s.filters, s.range.from, s.range.to, e.range.to, BUFFER_LIMIT);
  }

  lemma ResetKeepsInv(s: Tailer, e: Event)
    requires Inv(s) && e.Answer? && Honest(s, e) && e.reply.reset
    requires e.version in s.requests && e.version == s.version && s.requests[e.version].Poll?
    ensures Inv(Step(s, e))
  {
    PollStep(s, e.version, e.reply, e.hidden, e.range);
  }

  lemma BatchKeepsInv(s: Tailer, e: Event)
    requires Inv(s) && e.Answer? && Honest(s, e) && !e.reply.reset
    requires e.version in s.requests && e.version == s.version && s.requests[e.version].Poll?
    ensures Inv(Step(s, e))
  {
    PollStep(s, e.version, e.reply, e.hidden, e.range);
    BatchExtends(s, e);
    CollectedIsBounded(s, e);
  }

  lemma StepKeepsInv(s: Tailer, e: Event)
    requires Inv(s) && Honest(s, e) && UpToDate(s, e)
    ensures Inv(Step(s, e))
  {
    if e.Append? {
      AppendKeepsInv(s, e);
    } else if !e.Answer? {
      CallKeepsInv(s, e);
    } else if e.version in s.requests && e.version == s.version && s.requests[e.version].Poll? {
      if e.reply.reset { ResetKeepsInv(s, e); } else { BatchKeepsInv(s, e); }
    }
  }

  // ----- Every run -------------------------------------------------------------------

  ghost function RunFrom(s: Tailer, es: seq<Event>): Tailer {
    if es == [] then s else Step(RunFrom(s, es[..|es| - 1]), es[|es| - 1])
  }

  ghost predicate FairRun(s: Tailer, es: seq<Event>) {
    es == [] ||
    (var before := RunFrom(s, es[..|es| - 1]);
     FairRun(s, es[..|es| - 1]) && Honest(before, es[|es| - 1]) && UpToDate(before, es[|es| - 1]))
  }

  lemma {:induction false} RunKeepsInv(s: Tailer, es: seq<Event>)
    requires Inv(s) && FairRun(s, es)
    ensures Inv(RunFrom(s, es))
  {
    if es != [] {
      RunKeepsInv(s, es[..|es| - 1]);
      StepKeepsInv(RunFrom(s, es[..|es| - 1]), es[|es| - 1]);
    }
  }

  /** The buffer is the newest part of what the filter selects from the log between
      the start of the last tail and the stored cursor: nothing is missing, nothing
      is doubled, nothing belongs to another filter or to a superseded request. */
  ghost predicate Agrees(s: Tailer) {
    !s.viewingHistory && s.snapshot.Some? ==>
      && s.range.from <= s.range.to <= |s.server.log|
      && (s.cursor.Some? ==> s.cursor == Some(s.range.to))
      && var selected := Select(s.server, s.filters, s.server.log[s.range.from..s.range.to]);
         var n := Min(10_000, |selected|);
         s.snapshot.value.entries == selected[|selected| - n..]
  }

  lemma BufferAgreesWithLog(server: Server, f: Filter, es: seq<Event>)
    requires Increasing(server.log) && FairRun(Create(server, f), es)
    ensures var s := RunFrom(Create(server, f), es);
      Agrees(s) && (!s.viewingHistory && s.snapshot.Some? ==> Increasing(s.snapshot.value.entries))
  {
    RunKeepsInv(Create(server, f), es);
    var s := RunFrom(Create(server, f), es);
    if !s.viewingHistory && s.snapshot.Some? { ShownIncreases(s); }
  }

  /** The stretch restarts only at a clear, a tail or a reset of the current
      request; until then its start stays and its end never moves back. */
  lemma {:induction false} StretchOnlyGrows(s: Tailer, e: Event)
    requires Inv(s) && Honest(s, e) && UpToDate(s, e)
    requires !e.Clear?
    requires e.Answer? && e.version == s.version && e.version in s.requests ==>
      !s.requests[s.version].Tail? && !e.reply.reset
    ensures Step(s, e).range.from == s.range.from && s.range.to <= Step(s, e).range.to
  {
    if e.Answer? && e.version == s.version && e.version in s.requests && s.requests[s.version].Poll? {
      BatchExtends(s, e);
    }
  }

  /** One more batch of at most the batch limit: what a poll has collected stays small. */
  lemma CollectedIsBounded(s: Tailer, e: Event)
    requires Inv(s) && e.Answer? && Honest(s, e)
    requires e.version in s.requests && e.version == s.version && s.requests[e.version].Poll?
    ensures var poll := s.requests[s.version];
      |Merged(poll.incoming, e.reply.entries, BUFFER_LIMIT)| <= (poll.batch + 1) * FETCH_BATCH_LIMIT < BUFFER_LIMIT
  {
    var poll := s.requests[s.version];
    MergedLength(poll.incoming, e.reply.entries, BUFFER_LIMIT);
    assert poll.batch + 1 <= MAX_CATCH_UP_BATCHES;
  }

  lemma CompletedPollEvicts(s: Tailer, e: Event)
    requires Inv(s) && e.Answer? && Honest(s, e) && !e.reply.reset
    requires e.version in s.requests && e.version == s.version && s.requests[e.version].Poll?
    requires e.version !in Step(s, e).requests
    ensures s.snapshot.Some? && Step(s, e).snapshot.Some?
    ensures var collected := Merged(s.requests[s.version].incoming, e.reply.entries, BUFFER_LIMIT);
      Step(s, e).snapshot.value.hasMore <==>
        s.snapshot.value.hasMore || Evicts(s.snapshot.value.entries, collected)
  {
    var collected := Merged(s.requests[s.version].incoming, e.reply.entries, BUFFER_LIMIT);
    PollStep(s, e.version, e.reply, e.hidden, e.range);
    CollectedIsBounded(s, e);
    ShownIncreases(s);
    HasMoreOfSmallBatches(s.snapshot.value, e.reply, collected);
  }

  /** In every run, when an answer completes a poll and merges what it collected, older
      entries are announced if and only if they were before or an entry is evicted. */
  lemma {:induction false} HasMoreMeansEvicted(server: Server, f: Filter, es: seq<Event>, e: Event)
    requires Increasing(server.log) && FairRun(Create(server, f), es)
    requires var s := RunFrom(Create(server, f), es);
      && e.Answer? && Honest(s, e) && !e.reply.reset
      && e.version in s.requests && e.version == s.version && s.requests[e.version].Poll?
      && e.version !in Step(s, e).requests
    ensures var s := RunFrom(Create(server, f), es);
      var collected := Merged(s.requests[s.version].incoming, e.reply.entries, BUFFER_LIMIT);
      && s.snapshot.Some? && Step(s, e).snapshot.Some?
      && (Step(s, e).snapshot.value.hasMore <==>
            s.snapshot.value.hasMore || Evicts(s.snapshot.value.entries, collected))
  {
    RunKeepsInv(Create(server, f), es);
    CompletedPollEvicts(RunFrom(Create(server, f), es), e);
  }

  lemma ShownIncreases(s: Tailer)
    requires Inv(s) && !s.viewingHistory && s.snapshot.Some?
    ensures Increasing(s.snapshot.value.entries)
  {
    IncreasingPart(s.server.log, s.range.from, s.range.to);
    SelectIncreases(s.server, s.filters, s.server.log[s.range.from..s.range.to]);
  }

  /** Answers and failures of superseded requests change nothing anyone can see. */
  lemma {:induction false} SupersededIsSilent(s: Tailer, e: Event)
    requires Inv(s) && (e.Answer? || e.Failure?) && e.version != s.version
    ensures var s' := Step(s, e);
      && s'.snapshot == s.snapshot && s'.cursor == s.cursor && s'.ready == s.ready
      && s'.viewingHistory == s.viewingHistory && s'.range == s.range && s'.active == s.active
      && (s.version in s.requests ==> s.version in s'.requests && s'.requests[s.version] == s.requests[s.version])
  {
    if e.version in s.requests { assert s.active != Some(e.version); }
  }

  // ----- Callbacks of an older render ----------------------------------------------------

  ghost predicate AgreesAfterClear(s: Tailer, f: Filter, reply: Snapshot, range: Range) {
    var cleared := Step(s, Clear(f));
    var answer := Answer(cleared.version, reply, false, range);
    Honest(cleared, answer) ==> Agrees(Step(cleared, answer))
  }

  /** One entry that only filter `f` selects, shown to a tailer whose filter is `g`. */
  ghost function OneEntry(f: Filter): Server {
    Server([Entry(0, "")], (h: Filter, e: Entry) => h == f)
  }

  /** The tailer was made with `f`, whose callback is still around, and changed to `g`. */
  lemma StaleClearDisagrees(f: Filter, g: Filter)
    requires f != g
    ensures var s := Step(Create(OneEntry(f), f), FilterChange(g));
      var reply := Snapshot([Entry(0, "")], 1, Storage(0, 0, 0), Some(1), false, false);
      Inv(s) && s.filters == g && !AgreesAfterClear(s, f, reply, Range(0, 1))
  {
    var server := OneEntry(f);
    assert server.log[0..1] == server.log && server.log[..0] == [];
    assert Select(server, f, server.log) == [Entry(0, "")];
    assert Select(server, g, server.log) == [];
    assert server.log[0..0] == [] && Select(server, g, []) == [];
  }

  /** The callback that runs after the server was cleared keeps the cache right on
      every server exactly when it was made with the filters still in force. */
  lemma ClearNeedsItsFilters(f: Filter, g: Filter)
    ensures (forall s, reply, range :: Inv(s) && s.filters == g ==> AgreesAfterClear(s, f, reply, range)) <==> f == g
  {
    if f == g {
      forall s, reply, range | Inv(s) && s.filters == g
        ensures AgreesAfterClear(s, f, reply, range)
      {
        var cleared := Step(s, Clear(f));
        StepKeepsInv(s, Clear(f));
        var answer := Answer(cleared.version, reply, false, range);
        if Honest(cleared, answer) { StepKeepsInv(cleared, answer); }
      }
    } else {
      StaleClearDisagrees(f, g);
    }
  }
}

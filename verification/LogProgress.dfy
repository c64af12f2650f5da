/** What the log tailer's steps get done: which calls begin a request and for what, and what
    an answer leaves that is not superseded. */
module LogProgress {
  import opened Wrappers
  import opened LogMerge
  import opened LogProtocol

  /** `request` is the one request in force, just begun. */
  predicate Begun(s: Tailer, s': Tailer, request: Coroutine) {
    && s'.version > s.version && s'.active == Some(s'.version)
    && s'.version in s'.requests && s'.requests[s'.version] == request
  }

  /** The request in force is over; what is shown and where it ends are these. */
  predicate Done(s: Tailer, s': Tailer, entries: seq<Entry>, cursor: Option<Cursor>) {
    && s'.active.None? && s.version !in s'.requests && s'.version == s.version
    && s'.snapshot.Some? && s'.snapshot.value.entries == entries
    && s'.cursor == cursor && (s'.ready <==> cursor.Some?)
  }

  predicate Current(s: Tailer, e: Event) {
    e.Answer? && e.version == s.version && e.version in s.requests && s.active == Some(s.version)
  }

  // ----- Polling -----------------------------------------------------------------------------

  /** A tick asks for what follows the stored cursor, under the current filters, exactly
      when the tailer is ready, shows the present, and is not busy. */
  lemma TickPollsExactly(s: Tailer)
    requires Inv(s)
    ensures var s' := Step(s, PollTick(s.filters));
      var polls := s.ready && s.cursor.Some? && !s.viewingHistory && s.active.None?;
      && (polls ==> Begun(s, s', Poll(s.filters, s.cursor.value, [], 0)))
      && (!polls ==> s'.version == s.version && s'.active == s.active && s'.requests == s.requests)
      && s'.snapshot == s.snapshot && s'.cursor == s.cursor && s'.range == s.range
  {}

  /** The answer is the last the poll waits for: it is not full, nobody looks, or it is the
      fifth. */
  predicate Last(s: Tailer, e: Event)
    requires Current(s, e) && s.requests[s.version].Poll?
  {
    |e.reply.entries| < 1_000 || e.hidden || s.requests[s.version].batch == 4
  }

  /** A poll's last answer brings the buffer and the cursor up to the end of its stretch. */
  lemma PollCatchesUp(s: Tailer, e: Event)
    requires Inv(s) && Current(s, e) && Honest(s, e) && s.requests[s.version].Poll? && !e.reply.reset && Last(s, e)
    ensures s.range.from <= e.range.to <= |s.server.log|
    ensures Done(s, Step(s, e), Shown(s, s.range.from, e.range.to), Some(e.range.to))
  {
    PollStep(s, e.version, e.reply, e.hidden, e.range);
    BatchExtends(s, e);
  }

  /** Any other answer makes it ask on from where the answer ended; nothing is shown yet. */
  lemma PollGoesOn(s: Tailer, e: Event)
    requires Inv(s) && Current(s, e) && Honest(s, e) && s.requests[s.version].Poll? && !e.reply.reset && !Last(s, e)
    ensures var s' := Step(s, e);
      && s'.active == s.active && s'.version == s.version && s.version in s'.requests
      && s'.requests[s.version].Poll? && s'.requests[s.version].filter == s.filters
      && s'.requests[s.version].cursor == e.range.to && s'.requests[s.version].batch == s.requests[s.version].batch + 1
      && s'.snapshot == s.snapshot && s'.cursor == s.cursor
  {
    PollStep(s, e.version, e.reply, e.hidden, e.range);
  }

  /** A reset answer replaces the buffer by the stretch it brings. */
  lemma ResetReplaces(s: Tailer, e: Event)
    requires Inv(s) && Current(s, e) && Honest(s, e) && s.requests[s.version].Poll? && e.reply.reset
    ensures e.range.from <= e.range.to <= |s.server.log|
    ensures Done(s, Step(s, e), Shown(s, e.range.from, e.range.to), e.reply.nextCursor)
  {
    PollStep(s, e.version, e.reply, e.hidden, e.range);
  }

  /** So whatever was logged is shown after the next tick: from a tailer that is ready and
      idle, a tick and an honest answer that reaches the end of the log leave the newest
      selection of everything since the start of its stretch. */
  lemma TickShowsTheLog(s: Tailer, e: Event)
    requires Inv(s) && s.ready && !s.viewingHistory && s.active.None?
    requires var asked := Step(s, PollTick(s.filters));
      && Current(asked, e) && Honest(asked, e) && !e.reply.reset
      && |e.reply.entries| < 1_000 && e.range.to == |s.server.log|
    ensures var s' := Step(Step(s, PollTick(s.filters)), e);
      && s'.snapshot.Some? && s.range.from <= |s.server.log|
      && s'.snapshot.value.entries == Shown(s, s.range.from, |s.server.log|)
      && s'.cursor == Some(|s.server.log|) && s'.active.None? && s'.ready
  {
    TickPollsExactly(s);
    var asked := Step(s, PollTick(s.filters));
    CallKeepsInv(s, PollTick(s.filters));
    PollCatchesUp(asked, e);
    SameMatches(s.server, asked.server, s.filters, s.server.log[s.range.from..|s.server.log|]);
  }

  // ----- Tails -------------------------------------------------------------------------------

  /** A reload asks for the tail, unless it may not interrupt a request in force. */
  lemma ReloadAsksExactly(s: Tailer, interrupt: bool)
    requires Inv(s)
    ensures var s' := Step(s, Reload(s.filters, interrupt));
      if s.active.None? || interrupt then Begun(s, s', Tail(s.filters)) && s'.snapshot == s.snapshot
      else s' == s
  {}

  /** Its answer shows the stretch it brings, ends history mode, and sets the cursor. */
  lemma TailShows(s: Tailer, e: Event)
    requires Inv(s) && Current(s, e) && Honest(s, e) && s.requests[s.version].Tail?
    ensures e.range.from <= e.range.to <= |s.server.log|
    ensures Done(s, Step(s, e), Shown(s, e.range.from, e.range.to), e.reply.nextCursor)
    ensures !Step(s, e).viewingHistory && Step(s, e).snapshot.value.hasMore == e.reply.hasMore
  {}

  /** New filters and a clear empty what is shown and ask for the tail at once. */
  lemma NewFiltersStartOver(s: Tailer, f: Filter)
    requires Inv(s)
    ensures var s' := Step(s, FilterChange(f));
      && Begun(s, s', Tail(f)) && s'.filters == f && s'.snapshot.None? && s'.cursor.None?
      && !s'.ready && !s'.viewingHistory
  {}

  lemma ClearStartsOver(s: Tailer)
    requires Inv(s)
    ensures var s' := Step(s, Clear(s.filters));
      && Begun(s, s', Tail(s.filters)) && s'.cursor.None? && !s'.ready
      && s'.snapshot.Some? == s.snapshot.Some?
      && (s'.snapshot.Some? ==>
            s'.snapshot.value.entries == [] && s'.snapshot.value.matched == 0 && s'.snapshot.value.storage.bytes == 0)
  {}

  // ----- History, failures, leaving -------------------------------------------------------

  /** Older entries are asked for exactly when there are some before those shown; then the
      tailer shows history. */
  lemma HistoryAsksExactly(s: Tailer)
    requires Inv(s)
    ensures var s' := Step(s, HistoryLoad(s.filters));
      if s.snapshot.Some? && s.snapshot.value.hasMore && s.snapshot.value.entries != [] then
        Begun(s, s', Older(s.filters)) && s'.viewingHistory && s'.snapshot == s.snapshot
      else s' == s
  {}

  lemma HistoryShows(s: Tailer, e: Event)
    requires Inv(s) && Current(s, e) && s.requests[s.version].Older?
    ensures var s' := Step(s, e);
      && s'.snapshot == Some(Bounded(e.reply)) && s'.viewingHistory && s'.active.None? && s'.cursor == s.cursor
  {}

  /** A failure changes nothing that is shown and leaves the tailer free to ask again. */
  lemma FailureFrees(s: Tailer)
    requires Inv(s) && s.active == Some(s.version)
    ensures var s' := Step(s, Failure(s.version));
      && s'.active.None? && s.version !in s'.requests
      && s'.snapshot == s.snapshot && s'.cursor == s.cursor && s'.ready == s.ready && s'.range == s.range
  {}

  /** After unmounting nothing that was asked for is current any more. */
  lemma UnmountSupersedes(s: Tailer)
    requires Inv(s)
    ensures var s' := Step(s, Unmount);
      s'.active.None? && s'.version !in s'.requests && s'.requests == s.requests && s'.snapshot == s.snapshot
  {}
}

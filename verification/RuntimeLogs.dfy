/** The log hook as the mutable cells it keeps: refs, the snapshot state, and the
    local variables of the request coroutines still suspended at their `await`. */
module RuntimeLogs {
  import opened Wrappers
  import opened LogMerge
  import P = LogProtocol

  class RuntimeLogs {
    var filters: P.Filter
    var requestVersion: nat
    var activeRequest: Option<nat>
    var cursor: Option<Cursor>
    var ready: bool
    var viewingHistory: bool
    var snapshot: Option<Snapshot>
    var requests: map<nat, P.Coroutine>
    ghost var server: P.Server
    ghost var range: P.Range
    ghost const start: P.Tailer
    ghost var run: seq<P.Event>

    ghost function Model(): P.Tailer
      reads this
    {
      P.Tailer(server, filters, requestVersion, activeRequest, cursor, ready, viewingHistory, snapshot, requests, range)
    }

    /** The hook is where the protocol is after the events it has seen. */
    ghost predicate Valid()
      reads this
    {
      Model() == P.RunFrom(start, run)
    }

    constructor (ghost server: P.Server, filters: P.Filter)
      ensures Valid() && run == [] && start == P.Create(server, filters)
    {
      this.server, this.filters := server, filters;
      requestVersion, activeRequest, cursor, ready, viewingHistory := 0, None, None, false, false;
      snapshot, requests, range := None, map[], P.Range(0, 0);
      start, run := P.Create(server, filters), [];
    }

    /** Notes the event about to be handled; the handler then catches up with it. */
    ghost method Observe(e: P.Event)
      requires Valid()
      modifies this`run
      ensures run == old(run) + [e]
      ensures P.RunFrom(start, run) == P.Step(Model(), e)
    {
      run := run + [e];
      assert run[..|run| - 1] == old(run);
    }

    method InvalidateActiveRequest()
      modifies this`requestVersion, this`activeRequest
      ensures Model() == P.Invalidate(old(Model()))
    {
      requestVersion := requestVersion + 1;
      activeRequest := None;
    }

    method BeginRequest(interrupt: bool, request: P.Coroutine) returns (begun: bool)
      modifies this`requestVersion, this`activeRequest, this`requests
      ensures begun == (old(activeRequest).None? || interrupt)
      ensures Model() == if begun then P.Begin(old(Model()), request) else old(Model())
    {
      if activeRequest.Some? && !interrupt { return false; }
      requestVersion := requestVersion + 1;
      activeRequest := Some(requestVersion);
      requests := requests[requestVersion := request];
      return true;
    }

    method FinishRequest(version: nat)
      modifies this`activeRequest, this`requests
      ensures Model() == P.Finish(old(Model()), version)
    {
      requests := requests - {version};
      if activeRequest == Some(version) { activeRequest := None; }
    }

    // ----- Calls ---------------------------------------------------------------

    method LoadTail(f: P.Filter, interrupt: bool)
      requires Valid()
      modifies this
      ensures Valid() && run == old(run) + [P.Reload(f, interrupt)]
    {
      Observe(P.Reload(f, interrupt));
      var _ := BeginRequest(interrupt, P.Tail(f));
    }

    method PollLogs(f: P.Filter)
      requires Valid()
      modifies this
      ensures Valid() && run == old(run) + [P.PollTick(f)]
    {
      Observe(P.PollTick(f));
      if viewingHistory { return; }
      if !ready || cursor.None? {
        ready := false;
        return;
      }
      var _ := BeginRequest(false, P.Poll(f, cursor.value, [], 0));
    }

    method LoadOlder(f: P.Filter)
      requires Valid()
      modifies this
      ensures Valid() && run == old(run) + [P.HistoryLoad(f)]
    {
      Observe(P.HistoryLoad(f));
      if snapshot.None? || !snapshot.value.hasMore || |snapshot.value.entries| == 0 { return; }
      var _ := BeginRequest(true, P.Older(f));
      viewingHistory := true;
    }

    method ChangeFilters(f: P.Filter)
      requires Valid()
      modifies this
      ensures Valid() && run == old(run) + [P.FilterChange(f)]
    {
      Observe(P.FilterChange(f));
      InvalidateActiveRequest();
      Forget(f);
      var _ := BeginRequest(true, P.Tail(f));
    }

    method Forget(f: P.Filter)
      modifies this`cursor, this`ready, this`viewingHistory, this`snapshot, this`filters
      ensures Model() == old(Model()).(cursor := None, ready := false, viewingHistory := false, snapshot := None,
                                       filters := f)
    {
      cursor := None;
      ready := false;
      viewingHistory := false;
      snapshot := None;
      filters := f;
    }

    method ResetAfterClear(f: P.Filter)
      requires Valid()
      modifies this
      ensures Valid() && run == old(run) + [P.Clear(f)]
    {
      Observe(P.Clear(f));
      InvalidateActiveRequest();
      ForgetEntries();
      var _ := BeginRequest(true, P.Tail(f));
    }

    method ForgetEntries()
      modifies this`cursor, this`ready, this`snapshot, this`range
      ensures Model() == old(Model()).(cursor := None, ready := false, snapshot := P.Cleared(old(snapshot)),
                                       range := P.Range(0, 0))
    {
      cursor, ready := None, false;
      if snapshot.Some? {
        var c := snapshot.value;
        snapshot := Some(c.(entries := [], matched := 0, storage := c.storage.(bytes := 0),
                            nextCursor := None, reset := true));
      }
      range := P.Range(0, 0);
    }

    method Unmount()
      requires Valid()
      modifies this
      ensures Valid() && run == old(run) + [P.Unmount]
    {
      Observe(P.Unmount);
      InvalidateActiveRequest();
    }

    // ----- Answers ---------------------------------------------------------------

    method TailAnswered(version: nat, reply: Snapshot, hidden: bool, ghost stretch: P.Range)
      requires Valid() && version in requests && requests[version].Tail?
      modifies this
      ensures Valid() && run == old(run) + [P.Answer(version, reply, hidden, stretch)]
    {
      Observe(P.Answer(version, reply, hidden, stretch));
      if requestVersion == version { InstallTail(reply, stretch); }
      FinishRequest(version);
    }

    method InstallTail(reply: Snapshot, ghost stretch: P.Range)
      modifies this`cursor, this`ready, this`viewingHistory, this`snapshot, this`range
      ensures Model() == P.TailAnswered(old(Model()), reply, stretch)
    {
      cursor := reply.nextCursor;
      ready := reply.nextCursor.Some?;
      viewingHistory := false;
      snapshot := Some(Bounded(reply));
      range := stretch;
    }

    method PollAnswered(version: nat, reply: Snapshot, hidden: bool, ghost stretch: P.Range)
      requires Valid() && version in requests && requests[version].Poll?
      modifies this
      ensures Valid() && run == old(run) + [P.Answer(version, reply, hidden, stretch)]
    {
      ghost var before := Model();
      Observe(P.Answer(version, reply, hidden, stretch));
      P.PollStep(before, version, reply, hidden, stretch);
      if requestVersion == version {
        PollBatch(version, reply, hidden, stretch);
      } else {
        FinishRequest(version);
      }
    }

    /** The body of the catch-up loop after its `await`, and the code after the loop. */
    method PollBatch(version: nat, reply: Snapshot, hidden: bool, ghost stretch: P.Range)
      requires version in requests && requests[version].Poll?
      modifies this`activeRequest, this`requests, this`cursor, this`ready, this`snapshot, this`range
      ensures Model() == P.PollAnswered(old(Model()), version, reply, hidden, stretch)
    {
      var poll := requests[version];
      if reply.reset {
        InstallPoll(reply.nextCursor, reply, poll.incoming, stretch);
        FinishRequest(version);
        return;
      }
      var incoming := MergeRuntimeLogEntries(poll.incoming, reply.entries, BUFFER_LIMIT);
      var catchUp := |reply.entries| >= FETCH_BATCH_LIMIT;
      var next := poll.cursor;
      if reply.nextCursor.Some? { next := reply.nextCursor.value; }
      if !catchUp || reply.nextCursor.None? || hidden || poll.batch + 1 >= MAX_CATCH_UP_BATCHES {
        InstallPoll(Some(next), reply, incoming, P.Range(range.from, stretch.to));
        FinishRequest(version);
      } else {
        requests := requests[version := poll.(cursor := next, incoming := incoming, batch := poll.batch + 1)];
      }
    }

    method InstallPoll(next: Option<Cursor>, latest: Snapshot, incoming: seq<Entry>, ghost stretch: P.Range)
      modifies this`cursor, this`ready, this`snapshot, this`range
      ensures Model() == P.PollDone(old(Model()), next, latest, incoming, stretch)
    {
      cursor := next;
      ready := next.Some?;
      var merged := MergeSnapshot(snapshot, latest, incoming);
      snapshot := Some(merged);
      range := stretch;
    }

    method OlderAnswered(version: nat, reply: Snapshot, hidden: bool, ghost stretch: P.Range)
      requires Valid() && version in requests && requests[version].Older?
      modifies this
      ensures Valid() && run == old(run) + [P.Answer(version, reply, hidden, stretch)]
    {
      Observe(P.Answer(version, reply, hidden, stretch));
      if requestVersion == version { snapshot := Some(Bounded(reply)); }
      FinishRequest(version);
    }

    method RequestFailed(version: nat)
      requires Valid() && version in requests
      modifies this
      ensures Valid() && run == old(run) + [P.Failure(version)]
    {
      Observe(P.Failure(version));
      FinishRequest(version);
    }
  }

  method MergeSnapshot(current: Option<Snapshot>, latest: Snapshot, incoming: seq<Entry>) returns (result: Snapshot)
    ensures result == MergedSnapshot(current, latest, incoming)
  {
    if current.None? || latest.reset { return Bounded(latest); }
    var c := current.value;
    var entries := MergeRuntimeLogEntries(c.entries, incoming, BUFFER_LIMIT);
    var hasMore := c.hasMore || (|entries| == BUFFER_LIMIT && (|c.entries| == 0 || entries[0].id != c.entries[0].id));
    if entries == c.entries && c.matched == latest.matched && c.storage == latest.storage && c.hasMore == hasMore {
      return c;
    }
    return latest.(entries := entries, hasMore := hasMore);
  }
}

/** The server's incremental log query: a scan of log files from a cursor, as a stretch of
    the one log the files make up. */
module LogServer {
  import opened LogMerge
  import opened LogProtocol
  import opened Wrappers

  /** A cursor: a file, and how many of its lines have been read. */
  datatype Position = Position(file: nat, offset: nat)

  predicate Within(files: seq<seq<Entry>>, p: Position) {
    p.file < |files| && p.offset <= |files[p.file]|
  }

  /** How many lines the first `i` files hold. */
  function Before(files: seq<seq<Entry>>, i: nat): nat
    requires i <= |files|
  {
    if i == 0 then 0 else Before(files, i - 1) + |files[i - 1]|
  }

  /** The place of a cursor in the whole log. */
  function Place(files: seq<seq<Entry>>, p: Position): nat
    requires Within(files, p)
  {
    Before(files, p.file) + p.offset
  }

  /** The files, one after another, make up this log. */
  ghost predicate MakeUp(files: seq<seq<Entry>>, log: seq<Entry>) {
    && |log| == Before(files, |files|)
    && forall i, k {:trigger Line(files, log, i, k)} :: 0 <= i < |files| && 0 <= k < |files[i]| ==>
      Line(files, log, i, k)
  }

  /** Line `k` of file `i` is where it should be in the log. */
  predicate Line(files: seq<seq<Entry>>, log: seq<Entry>, i: nat, k: nat)
    requires i < |files| && k < |files[i]|
  {
    Before(files, i) + k < |log| && log[Before(files, i) + k] == files[i][k]
  }

  /** There is always such a log: the files joined. */
  lemma {:induction false} FilesMakeUpALog(files: seq<seq<Entry>>) returns (log: seq<Entry>)
    ensures MakeUp(files, log)
  {
    log := [];
    if files != [] {
      var n := |files| - 1;
      var start := FilesMakeUpALog(files[..n]);
      log := start + files[n];
      OneMoreFile(files, n, start);
    }
  }

  lemma OneMoreFile(files: seq<seq<Entry>>, n: nat, start: seq<Entry>)
    requires |files| == n + 1 && MakeUp(files[..n], start)
    ensures MakeUp(files, start + files[n])
  {
    var log := start + files[n];
    BeforeOfPrefix(files, n, n);
    assert |start| == Before(files, n) && |log| == Before(files, n + 1);
    forall i, k | 0 <= i < |files| && 0 <= k < |files[i]| ensures Line(files, log, i, k) {
      LineKept(files, n, start, i, k);
    }
  }

  lemma LineKept(files: seq<seq<Entry>>, n: nat, start: seq<Entry>, i: nat, k: nat)
    requires |files| == n + 1 && MakeUp(files[..n], start) && |start| == Before(files, n)
    requires i <= n && k < |files[i]|
    ensures Line(files, start + files[n], i, k)
  {
    if i < n {
      BeforeOfPrefix(files, n, i);
      assert Line(files[..n], start, i, k);
    }
  }

  lemma {:induction false} BeforeOfPrefix(files: seq<seq<Entry>>, n: nat, i: nat)
    requires i <= n <= |files|
    ensures Before(files[..n], i) == Before(files, i)
  {
    if 0 < i { BeforeOfPrefix(files, n, i - 1); }
  }

  lemma {:induction false} BeforeGrows(files: seq<seq<Entry>>, i: nat, j: nat)
    requires i <= j <= |files|
    ensures Before(files, i) <= Before(files, j)
  {
    if i < j { BeforeGrows(files, i, j - 1); }
  }

  lemma PlaceIsWithin(files: seq<seq<Entry>>, log: seq<Entry>, p: Position)
    requires MakeUp(files, log) && Within(files, p)
    ensures Place(files, p) <= |log|
  {
    BeforeGrows(files, p.file + 1, |files|);
  }

  /** What one more file adds to a scan that has got as far as its `offset`. */
  lemma ScanJoins(server: Server, f: Filter, files: seq<seq<Entry>>, log: seq<Entry>, from: nat,
                  i: nat, offset: nat, end: nat)
    requires MakeUp(files, log) && i < |files| && offset <= end <= |files[i]| && from <= Before(files, i) + offset
    ensures Before(files, i) + end <= |log|
    ensures Select(server, f, log[from..Before(files, i) + end])
      == Select(server, f, log[from..Before(files, i) + offset]) + Select(server, f, files[i][offset..end])
  {
    PlaceIsWithin(files, log, Position(i, end));
    var at, to := Before(files, i) + offset, Before(files, i) + end;
    var part := log[at..to];
    forall k | 0 <= k < end - offset ensures part[k] == files[i][offset + k] {
      assert Line(files, log, i, offset + k);
    }
    assert part == files[i][offset..end];
    assert log[from..to] == log[from..at] + log[at..to];
    SelectJoins(server, f, log[from..at], log[at..to]);
  }

  lemma SelectSnoc(server: Server, f: Filter, file: seq<Entry>, offset: nat, end: nat)
    requires offset <= end < |file|
    ensures Select(server, f, file[offset..end + 1])
      == Select(server, f, file[offset..end]) + if server.matches(f, file[end]) then [file[end]] else []
  {
    assert file[offset..end + 1] == file[offset..end] + [file[end]];
    SelectJoins(server, f, file[offset..end], [file[end]]);
    assert [file[end]][1..] == [];
  }

  /** One file, from `offset` to its end or to the entry that fills the room left. */
  method ScanFile(server: Server, f: Filter, file: seq<Entry>, offset: nat, room: nat)
    returns (found: seq<Entry>, end: nat)
    requires offset <= |file| && 0 < room
    ensures offset <= end <= |file| && found == Select(server, f, file[offset..end])
    ensures |found| <= room && (|found| < room ==> end == |file|)
    ensures |found| == room ==> offset < end && server.matches(f, file[end - 1])
  {
    found, end := [], offset;
    assert file[offset..offset] == [];
    while end < |file|
      invariant offset <= end <= |file| && found == Select(server, f, file[offset..end]) && |found| < room
    {
      SelectSnoc(server, f, file, offset, end);
      end := end + 1;
      if server.matches(f, file[end - 1]) {
        found := found + [file[end - 1]];
        if |found| >= room { return; }
      }
    }
  }

  /** Where the scan of file `i` stands at `offset`: this much is selected. */
  ghost predicate Scanned(server: Server, f: Filter, files: seq<seq<Entry>>, log: seq<Entry>, from: nat,
                          i: nat, offset: nat, entries: seq<Entry>, next: Position)
    requires i <= |files|
  {
    && Within(files, next) && from <= Place(files, next) == Before(files, i) + offset <= |log|
    && entries == Select(server, f, log[from..Place(files, next)])
  }

  lemma FileScanned(server: Server, f: Filter, files: seq<seq<Entry>>, log: seq<Entry>, from: nat,
                    i: nat, offset: nat, entries: seq<Entry>, next: Position, end: nat)
    requires MakeUp(files, log) && i < |files| && offset <= end <= |files[i]|
    requires Scanned(server, f, files, log, from, i, offset, entries, next)
    ensures Scanned(server, f, files, log, from, i, end, entries + Select(server, f, files[i][offset..end]),
                    if offset < end then Position(i, end) else next)
    ensures offset < end ==>
      0 < Before(files, i) + end <= |log| && log[Before(files, i) + end - 1] == files[i][end - 1]
  {
    ScanJoins(server, f, files, log, from, i, offset, end);
    if offset < end { assert Line(files, log, i, end - 1); }
  }

  lemma NextFile(server: Server, f: Filter, files: seq<seq<Entry>>, log: seq<Entry>, from: nat,
                 i: nat, entries: seq<Entry>, next: Position)
    requires i < |files| && Scanned(server, f, files, log, from, i, |files[i]|, entries, next)
    ensures Scanned(server, f, files, log, from, i + 1, 0, entries, next)
  {}

  /** The entries are exactly what the filter selects between the two cursors, over any
      number of files; a batch that is not full has reached the end of the log. */
  method QueryLogsFromCursor(server: Server, f: Filter, files: seq<seq<Entry>>, ghost log: seq<Entry>,
                             start: Position, limit: nat)
    returns (entries: seq<Entry>, next: Position)
    requires MakeUp(files, log) && Within(files, start) && 0 < limit
    ensures Within(files, next) && Place(files, start) <= Place(files, next) <= |log|
    ensures entries == Select(server, f, log[Place(files, start)..Place(files, next)])
    ensures |entries| <= limit && (|entries| < limit ==> Place(files, next) == |log|)
    ensures |entries| == limit ==> server.matches(f, log[Place(files, next) - 1])
  {
    ghost var from := Place(files, start);
    entries, next := [], start;
    var i: nat, offset: nat := start.file, start.offset;
    PlaceIsWithin(files, log, start);
    assert log[from..from] == [];
    while i < |files|
      invariant i <= |files| && |entries| < limit && (i < |files| ==> offset <= |files[i]|)
      invariant i == |files| ==> offset == 0
      invariant Scanned(server, f, files, log, from, i, offset, entries, next)
    {
      var found, end := ScanFile(server, f, files[i], offset, limit - |entries|);
      FileScanned(server, f, files, log, from, i, offset, entries, next, end);
      if offset < end { next := Position(i, end); }
      entries := entries + found;
      if |entries| >= limit { return; }
      NextFile(server, f, files, log, from, i, entries, next);
      i, offset := i + 1, 0;
    }
  }

  /** The incremental answer: whatever poll it is given to, it is honest in the tailer's
      sense, whatever was appended to the log since it was computed. */
  method AnswerFromCursor(server: Server, f: Filter, files: seq<seq<Entry>>, ghost log: seq<Entry>,
                          start: Position, limit: nat, storage: Storage, ghost s: Tailer, ghost v: nat)
    returns (reply: Snapshot, next: Position)
    requires MakeUp(files, log) && Within(files, start) && 0 < limit <= FETCH_BATCH_LIMIT
    requires v in s.requests && s.requests[v].Poll? && s.requests[v].filter == f
    requires s.requests[v].cursor == Place(files, start)
    requires log <= s.server.log && s.server.matches == server.matches
    ensures Within(files, next) && reply.nextCursor == Some(Place(files, next)) && !reply.reset
    ensures |reply.entries| <= limit && (|reply.entries| < limit ==> reply.nextCursor == Some(|log|))
    ensures reply.matched == |reply.entries| && reply.storage == storage
    ensures forall hidden :: Honest(s, Answer(v, reply, hidden, Range(Place(files, start), Place(files, next))))
  {
    var entries;
    entries, next := QueryLogsFromCursor(server, f, files, log, start, limit);
    assert log[Place(files, start)..Place(files, next)]
      == s.server.log[Place(files, start)..Place(files, next)];
    SameMatches(server, s.server, f, log[Place(files, start)..Place(files, next)]);
    reply := Snapshot(entries, |entries|, storage, Some(Place(files, next)), false, false);
  }
}

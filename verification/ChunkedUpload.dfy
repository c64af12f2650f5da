/** One run of the resumable upload: the session it opens, its chunk and attempt
    loops, and the gate in front of finalizing. */
module ChunkedUpload {
  import opened Wrappers
  import opened Chunks

  const MAX_ATTEMPTS: nat := 3

  datatype Session = Session(id: string, chunkSize: nat, totalChunks: nat, received: set<nat>)

  /** The moments at which the run looks at the pause flag. */
  datatype Look =
    | BeforeChunk(index: nat)
    | BeforeAttempt(index: nat, attempt: nat)
    | AfterFailure(index: nat, attempt: nat)
    | BeforeFinalize

  /** Whatever the server, the user and the hash do: the session opened, the reply to
      each attempt (None is a rejection, always an Error here), the flag at each
      look, whether the attempt's own signal was aborted, and the archive's hash. */
  datatype World = World(
    begun: Option<Session>,
    put: (nat, nat) -> Option<Session>,
    paused: Look -> bool,
    aborted: (nat, nat) -> bool,
    hash: Option<string>)

  /** What tells a file from another without reading it. */
  datatype FileInfo = FileInfo(name: string, size: nat, lastModified: nat)

  /** The saved note of an upload that can be resumed. */
  datatype Hint = Hint(id: string, file: FileInfo)

  /** The session opened for a file, and the note left: `existing` is the server's answer
      for a session id, `created` its answer to beginning a new one. */
  function EnsureSession(
      hint: Option<Hint>, file: FileInfo, existing: string -> Option<Session>, created: Option<Session>)
    : (Option<Session>, Option<Hint>)
  {
    var matches := hint.Some? && hint.value.file == file;
    if matches && existing(hint.value.id).Some? then (existing(hint.value.id), hint)
    else if created.Some? then (created, Some(Hint(created.value.id, file)))
    else (None, if matches then None else hint)
  }

  method EnsureUploadSession(
      hint: Option<Hint>, file: FileInfo, existing: string -> Option<Session>, created: Option<Session>)
    returns (session: Option<Session>, saved: Option<Hint>)
    ensures (session, saved) == EnsureSession(hint, file, existing, created)
  {
    saved := hint;
    if hint.Some? && hint.value.file.name == file.name && hint.value.file.size == file.size
       && hint.value.file.lastModified == file.lastModified
    {
      session := existing(hint.value.id);
      if session.Some? { return; }
      saved := None;
    }
    session := created;
    if session.Some? { saved := Some(Hint(session.value.id, file)); }
  }

  /** Choosing the same file again resumes the session that was opened for it, while the
      server still knows it; another file never does. */
  lemma ReopeningResumes(
      hint: Option<Hint>, file: FileInfo, existing: string -> Option<Session>, created: Option<Session>,
      next: FileInfo, existing': string -> Option<Session>, created': Option<Session>)
    requires forall id :: existing(id).Some? ==> existing(id).value.id == id
    requires EnsureSession(hint, file, existing, created).0.Some?
    ensures var (session, saved) := EnsureSession(hint, file, existing, created);
      EnsureSession(saved, next, existing', created').0
        == if next == file && existing'(session.value.id).Some? then existing'(session.value.id) else created'
  {}

  /** A note is dropped when its session cannot be had and none is begun in its place, and
      kept when it is of another file or its session is resumed. */
  lemma NoteIsKeptExactly(hint: Hint, file: FileInfo, existing: string -> Option<Session>)
    ensures EnsureSession(Some(hint), file, existing, None).1
      == if hint.file == file && existing(hint.id).None? then None else Some(hint)
    ensures EnsureSession(None, file, existing, None) == (None, None)
  {}

  datatype Finalize = Finalize(id: string, hash: string)

  /** The chunk is acknowledged at attempt `a`, after failures nobody interrupted. */
  ghost predicate AckedAt(w: World, index: nat, a: nat) {
    && a < MAX_ATTEMPTS && w.put(index, a).Some?
    && (forall b: nat :: b <= a ==> !w.paused(BeforeAttempt(index, b)))
    && (forall b: nat :: b < a ==> w.put(index, b).None? && !w.paused(AfterFailure(index, b)) && !w.aborted(index, b))
  }

  ghost predicate Goes(w: World, index: nat) {
    !w.paused(BeforeChunk(index)) && exists a: nat :: AckedAt(w, index, a)
  }

  /** The server keeps a session's identity and cutting while chunks arrive. */
  ghost predicate Stable(w: World) {
    w.begun.Some? ==> forall i: nat, a: nat :: w.put(i, a).Some? ==>
      var s := w.put(i, a).value;
      s.id == w.begun.value.id && s.chunkSize == w.begun.value.chunkSize && s.totalChunks == w.begun.value.totalChunks
  }

  /** The attempts for one chunk: None if the run has to stop, by pause or abort or
      after the last failure. */
  method PutChunk(w: World, index: nat) returns (acked: Option<Session>)
    ensures acked.Some? <==> exists a: nat :: AckedAt(w, index, a)
    ensures acked.Some? ==> exists a: nat :: AckedAt(w, index, a) && acked == w.put(index, a)
  {
    for attempt := 0 to MAX_ATTEMPTS
      invariant forall b: nat :: b < attempt ==>
        && w.put(index, b).None? && !w.paused(BeforeAttempt(index, b))
        && !w.paused(AfterFailure(index, b)) && !w.aborted(index, b)
    {
      if w.paused(BeforeAttempt(index, attempt)) { return None; }
      acked := w.put(index, attempt);
      if acked.Some? {
        assert AckedAt(w, index, attempt);
        return acked;
      }
      if w.paused(AfterFailure(index, attempt)) || w.aborted(index, attempt) { return None; }
    }
    return None;
  }

  /** The session was cut for this file. */
  predicate Fits(session: Session, file: seq<Byte>) {
    0 < session.chunkSize && session.totalChunks == ChunkCount(|file|, session.chunkSize)
  }

  predicate ReceivedRight(session: Session, file: seq<Byte>, before: map<nat, seq<Byte>>) {
    forall i :: i in session.received ==> i in before && before[i] == Chunk(file, session.chunkSize, i)
  }

  /** What the server holds after a run, piece by piece. */
  function Held(before: map<nat, seq<Byte>>, stored: map<nat, seq<Byte>>, i: nat): seq<Byte> {
    if i in stored then stored[i] else if i in before then before[i] else []
  }

  /** When a run reaches the finalizer and the chunks received earlier were right, the
      server's chunks laid end to end are the file. */
  lemma {:induction false} FinalizedUploadIsTheFile(
      session: Session, file: seq<Byte>, before: map<nat, seq<Byte>>, stored: map<nat, seq<Byte>>)
    requires Fits(session, file) && ReceivedRight(session, file, before)
    requires forall i: nat :: i < session.totalChunks ==> i in session.received || i in stored
    requires forall i: nat :: i in stored ==> stored[i] == Chunk(file, session.chunkSize, i)
    ensures Joined((i: nat) => Held(before, stored, i), session.totalChunks) == file
  {
    ChunksMakeTheFile(file, session.chunkSize, (i: nat) => Held(before, stored, i));
  }

  /** `stored` is what the server acknowledged in this run, and `finalize` the call to
      the finalizer, if it was reached. */
  method HandleUpload(w: World, file: seq<Byte>, ghost before: map<nat, seq<Byte>>)
    returns (finalize: Option<Finalize>, stored: map<nat, seq<Byte>>)
    requires Stable(w)
    ensures finalize.Some? <==>
      && w.begun.Some? && w.hash.Some? && !w.paused(BeforeFinalize)
      && forall i: nat :: i < w.begun.value.totalChunks && i !in w.begun.value.received ==> Goes(w, i)
    ensures finalize.Some? ==> finalize.value == Finalize(w.begun.value.id, w.hash.value)
    ensures finalize.Some? ==>
      forall i: nat :: i < w.begun.value.totalChunks ==> i in w.begun.value.received || i in stored
    ensures forall i: nat :: i in stored ==>
      && w.begun.Some? && i < w.begun.value.totalChunks && i !in w.begun.value.received
      && Goes(w, i) && stored[i] == Chunk(file, w.begun.value.chunkSize, i)
    ensures finalize.Some? && Fits(w.begun.value, file) && ReceivedRight(w.begun.value, file, before) ==>
      Joined((i: nat) => Held(before, stored, i), w.begun.value.totalChunks) == file
  {
    stored := map[];
    if w.begun.None? { return None, stored; }
    var session := w.begun.value;
    var received := session.received;
    var index: nat := 0;
    while index < session.totalChunks
      invariant session.id == w.begun.value.id && session.chunkSize == w.begun.value.chunkSize
      invariant session.totalChunks == w.begun.value.totalChunks && index <= session.totalChunks
      invariant forall i: nat :: i < index && i !in received ==> Goes(w, i)
      invariant forall i: nat :: i < index ==> i in received || i in stored
      invariant forall i: nat :: i in stored ==> i < index && i !in received && Goes(w, i)
      invariant forall i: nat :: i in stored ==> stored[i] == Chunk(file, session.chunkSize, i)
    {
      if index !in received {
        if w.paused(BeforeChunk(index)) { return None, stored; }
        var start := index * session.chunkSize;
        var end := Min(|file|, start + session.chunkSize);
        var blob := Slice(file, start, end);
        var acked := PutChunk(w, index);
        if acked.None? { return None, stored; }
        session := acked.value;
        stored := stored[index := blob];
      }
      index := index + 1;
    }
    if w.hash.None? || w.paused(BeforeFinalize) { return None, stored; }
    if Fits(session, file) && ReceivedRight(w.begun.value, file, before) {
      FinalizedUploadIsTheFile(w.begun.value, file, before, stored);
    }
    return Some(Finalize(session.id, w.hash.value)), stored;
  }

  /** Every attempt before `a` failed. */
  ghost predicate FailedBefore(w: World, index: nat, a: nat) {
    forall b: nat :: b < a ==> w.put(index, b).None?
  }

  /** A chunk is given up for good by a pause seen before it, by three failures, by a pause
      seen before any attempt that is made, and by a pause or an abort seen after any
      attempt that failed - and by nothing else. */
  lemma {:induction false} ChunkIsGivenUpExactly(w: World, index: nat)
    ensures !Goes(w, index) <==>
      || w.paused(BeforeChunk(index))
      || FailedBefore(w, index, MAX_ATTEMPTS)
      || (exists a: nat :: a < MAX_ATTEMPTS && FailedBefore(w, index, a) && w.paused(BeforeAttempt(index, a)))
      || (exists a: nat :: a < MAX_ATTEMPTS && FailedBefore(w, index, a + 1)
            && (w.paused(AfterFailure(index, a)) || w.aborted(index, a)))
  {
    if !Goes(w, index) && !w.paused(BeforeChunk(index)) && !FailedBefore(w, index, MAX_ATTEMPTS) {
      var a := FirstAnswered(w, index, MAX_ATTEMPTS);
      assert !AckedAt(w, index, a);
    }
    forall a: nat | AckedAt(w, index, a)
      ensures !FailedBefore(w, index, MAX_ATTEMPTS)
      ensures forall b: nat :: b < MAX_ATTEMPTS && FailedBefore(w, index, b) ==> b <= a
    {}
  }

  lemma {:induction false} FirstAnswered(w: World, index: nat, n: nat) returns (a: nat)
    requires !FailedBefore(w, index, n)
    ensures a < n && w.put(index, a).Some? && FailedBefore(w, index, a)
  {
    if FailedBefore(w, index, n - 1) { a := n - 1; } else { a := FirstAnswered(w, index, n - 1); }
  }
}

/** Reading a range of a feed in batches the server accepts. */
module FeedRange {
  import opened Wrappers
  import opened FeedServer

  const MAX_BATCH: nat := 240
  const MAX_TOKEN: nat := 128

  datatype Cursor = Cursor(feedToken: string, position: nat)

  datatype Batch = Batch(items: seq<Video>, total: nat, cursor: Cursor, exhausted: bool)

  datatype Error = Aborted | Expired | InvalidResponse | NoProgress | Network

  datatype Result<+T> = Ok(value: T) | Err(error: Error)

  /** A response as it arrives; nothing about it is certain yet. */
  datatype Response = Response(items: seq<Video>, total: int, feedToken: string, nextCursor: int, exhausted: bool)

  datatype Reply = Delivered(response: Response) | Gone | Failed

  /** The checks of fetchVideoFeed. */
  function Checked(cursor: Cursor, reply: Reply): Result<Batch> {
    match reply
    case Gone => Err(Expired)
    case Failed => Err(Network)
    case Delivered(r) =>
      if || r.total < 0
         || |r.feedToken| > MAX_TOKEN
         || (|cursor.feedToken| > 0 && r.feedToken != cursor.feedToken)
         || r.nextCursor < cursor.position
         || r.nextCursor > r.total
         || (!r.exhausted && |r.feedToken| == 0)
         || (!r.exhausted && r.nextCursor <= cursor.position)
         || r.exhausted != (r.nextCursor >= r.total)
      then Err(InvalidResponse)
      else Ok(Batch(r.items, r.total, Cursor(r.feedToken, r.nextCursor), r.exhausted))
  }

  /** Whatever the server does: the reply to the n-th request, and whether the
      signal is aborted at the n-th look at it. */
  datatype World = World(reply: (nat, Cursor, nat) -> Reply, aborted: nat -> bool)

  function Size(cursor: Cursor, end: nat): nat {
    if cursor.position >= end then 0
    else if end - cursor.position < MAX_BATCH then end - cursor.position else MAX_BATCH
  }

  /** The n-th request of a range read, between its two looks at the signal. */
  function Fetched(w: World, n: nat, cursor: Cursor, end: nat): Result<Batch> {
    if w.aborted(2 * n) then Err(Aborted)
    else
      var batch := Checked(cursor, w.reply(n, cursor, Size(cursor, end)));
      if batch.Ok? && w.aborted(2 * n + 1) then Err(Aborted) else batch
  }

  predicate Complete(batch: Batch, end: nat) {
    batch.exhausted || batch.cursor.position >= end
  }

  function Prepend(items: seq<Video>, r: Result<Batch>): Result<Batch> {
    if r.Err? then r else Ok(r.value.(items := items + r.value.items))
  }

  lemma PrependJoins(a: seq<Video>, b: seq<Video>, r: Result<Batch>)
    ensures Prepend([], r) == r
    ensures Prepend(a, Prepend(b, r)) == Prepend(a + b, r)
  {
    if r.Ok? {
      assert [] + r.value.items == r.value.items;
      assert a + (b + r.value.items) == (a + b) + r.value.items;
    }
  }

  /** A range read from its n-th request on. */
  function Range(w: World, n: nat, cursor: Cursor, end: nat): Result<Batch>
    decreases if cursor.position < end then end - cursor.position else 0
  {
    var fetched := Fetched(w, n, cursor, end);
    if fetched.Err? then fetched
    else if Complete(fetched.value, end) then fetched
    else if fetched.value.cursor.position <= cursor.position then Err(NoProgress)
    else Prepend(fetched.value.items, Range(w, n + 1, fetched.value.cursor, end))
  }

  // ----- The requests of a read -------------------------------------------------------------

  /** A response makes sense after a cursor: it stays within a snapshot and does not go
      back, it says it is exhausted exactly at the snapshot's end and advances otherwise,
      and it carries the token it was asked with, or one to go on with. */
  predicate WellFormed(cursor: Cursor, r: Response) {
    && cursor.position <= r.nextCursor <= r.total && |r.feedToken| <= 128
    && (r.exhausted <==> r.nextCursor == r.total)
    && (!r.exhausted ==> r.feedToken != "" && cursor.position < r.nextCursor)
    && (cursor.feedToken != "" ==> r.feedToken == cursor.feedToken)
  }

  /** Exactly these are accepted, as they are. */
  lemma AcceptedExactly(cursor: Cursor, r: Response)
    ensures Checked(cursor, Delivered(r)).Ok? <==> WellFormed(cursor, r)
    ensures WellFormed(cursor, r) ==>
      Checked(cursor, Delivered(r)).value == Batch(r.items, r.total, Cursor(r.feedToken, r.nextCursor), r.exhausted)
  {}

  /** A read from its n-th request on gets to its m-th: the earlier ones are answered in
      order and accepted, none completes the range, and no abort is seen. */
  predicate Reaches(w: World, n: nat, cursor: Cursor, end: nat, m: nat, at: Cursor)
    decreases if n < m then m - n else 0
  {
    if m <= n then m == n && at == cursor
    else
      && !w.aborted(2 * n) && !w.aborted(2 * n + 1)
      && w.reply(n, cursor, Size(cursor, end)).Delivered?
      && var r := w.reply(n, cursor, Size(cursor, end)).response;
         && WellFormed(cursor, r) && !r.exhausted && r.nextCursor < end
         && Reaches(w, n + 1, Cursor(r.feedToken, r.nextCursor), end, m, at)
  }

  /** The m-th request, asked at `at`, is answered with this. */
  predicate Asked(w: World, n: nat, cursor: Cursor, end: nat, m: nat, at: Cursor, reply: Reply) {
    Reaches(w, n, cursor, end, m, at) && !w.aborted(2 * m) && w.reply(m, at, Size(at, end)) == reply
  }

  lemma {:induction false} ReachesNext(w: World, n: nat, cursor: Cursor, end: nat, m: nat, at: Cursor, r: Response)
    requires n <= m && Reaches(w, n, cursor, end, m, at)
    requires !w.aborted(2 * m) && !w.aborted(2 * m + 1) && w.reply(m, at, Size(at, end)) == Delivered(r)
    requires WellFormed(at, r) && !r.exhausted && r.nextCursor < end
    ensures Reaches(w, n, cursor, end, m + 1, Cursor(r.feedToken, r.nextCursor))
    decreases m - n
  {
    if n < m {
      var first := w.reply(n, cursor, Size(cursor, end)).response;
      ReachesNext(w, n + 1, Cursor(first.feedToken, first.nextCursor), end, m, at, r);
    }
  }

  /** A batch that does not complete the range is put behind the items there are, and the
      read goes on from its cursor. */
  lemma ReadGoesOn(w: World, start: Cursor, end: nat, n: nat, cursor: Cursor, items: seq<Video>, batch: Batch)
    requires Reaches(w, 0, start, end, n, cursor) && Fetched(w, n, cursor, end) == Ok(batch)
    requires !Complete(batch, end) && cursor.position < batch.cursor.position
    ensures Reaches(w, 0, start, end, n + 1, batch.cursor)
    ensures Prepend(items, Range(w, n, cursor, end)) == Prepend(items + batch.items, Range(w, n + 1, batch.cursor, end))
  {
    var reply := w.reply(n, cursor, Size(cursor, end));
    AcceptedExactly(cursor, reply.response);
    ReachesNext(w, 0, start, end, n, cursor, reply.response);
    PrependJoins(items, batch.items, Range(w, n + 1, batch.cursor, end));
  }

  datatype Request = Request(cursor: Cursor, size: nat)

  /** The n-th request of a read starts where the one before was answered to, and asks for
      all that is left, or for 240 entries if more is left. */
  predicate Fits(w: World, start: Cursor, size: nat, n: nat, r: Request) {
    && Reaches(w, 0, start, start.position + size, n, r.cursor)
    && start.position <= r.cursor.position && r.cursor.position + r.size <= start.position + size
    && (0 < size ==> 1 <= r.size <= 240)
    && (r.size < 240 ==> r.cursor.position + r.size == start.position + size)
  }

  /** Against any server the loop ends, with what the range read is. */
  method FetchInfiniteFeedRange(w: World, request: Cursor, size: nat)
    returns (result: Result<Batch>, ghost requests: seq<Request>)
    ensures result == Range(w, 0, request, request.position + size)
    ensures |requests| <= size + 1
    ensures forall n :: 0 <= n < |requests| ==> Fits(w, request, size, n, requests[n])
  {
    var cursor := request;
    var end := cursor.position + size;
    var items: seq<Video> := [];
    var n := 0;
    requests := [];
    PrependJoins([], [], Range(w, 0, request, end));
    while true
      invariant request.position <= cursor.position <= end && Reaches(w, 0, request, end, n, cursor)
      invariant cursor == request || cursor.position < end
      invariant |requests| == n <= cursor.position - request.position
      invariant forall k :: 0 <= k < |requests| ==> Fits(w, request, size, k, requests[k])
      invariant Range(w, 0, request, end) == Prepend(items, Range(w, n, cursor, end))
      decreases end - cursor.position
    {
      if w.aborted(2 * n) { return Err(Aborted), requests; }
      var wanted := if end - cursor.position < MAX_BATCH then end - cursor.position else MAX_BATCH;
      var reply := w.reply(n, cursor, wanted);
      var batch := Checked(cursor, reply);
      requests := requests + [Request(cursor, wanted)];
      if batch.Err? { return batch, requests; }
      if w.aborted(2 * n + 1) { return Err(Aborted), requests; }
      if batch.value.exhausted || batch.value.cursor.position >= end {
        items := items + batch.value.items;
        return Ok(batch.value.(items := items)), requests;
      }
      if batch.value.cursor.position <= cursor.position { return Err(NoProgress), requests; }
      ReadGoesOn(w, request, end, n, cursor, items, batch.value);
      items := items + batch.value.items;
      cursor := batch.value.cursor;
      n := n + 1;
    }
  }

  /** After the checks of every response, the loop's own progress check never fires,
      whatever the server sends: a range read ends in a batch, an abort, or an error of
      the fetch. */
  lemma {:induction false} ProgressCheckIsRedundant(w: World, n: nat, cursor: Cursor, end: nat)
    ensures Range(w, n, cursor, end) != Err(NoProgress)
    ensures Range(w, n, cursor, end).Ok? ==> Complete(Range(w, n, cursor, end).value, end)
    decreases if cursor.position < end then end - cursor.position else 0
  {
    var fetched := Fetched(w, n, cursor, end);
    if fetched.Ok? && !Complete(fetched.value, end) {
      ProgressCheckIsRedundant(w, n + 1, fetched.value.cursor, end);
    }
  }

  // ----- How a read ends ------------------------------------------------------------------

  /** How the request itself ends, if it ends the read. */
  predicate EndsWith(w: World, m: nat, at: Cursor, end: nat, result: Result<Batch>) {
    Fetched(w, m, at, end) == result && (result.Ok? ==> Complete(result.value, end))
  }

  /** Every read ends at one request, with that request's outcome, and at no other. */
  lemma {:induction false} ReadEnds(w: World, n: nat, cursor: Cursor, end: nat) returns (m: nat, at: Cursor)
    ensures n <= m && Reaches(w, n, cursor, end, m, at)
    ensures Fetched(w, m, at, end).Ok? ==> Complete(Fetched(w, m, at, end).value, end)
    ensures Range(w, n, cursor, end).Ok? <==> Fetched(w, m, at, end).Ok?
    ensures Range(w, n, cursor, end).Err? ==> Range(w, n, cursor, end) == Fetched(w, m, at, end)
    ensures forall k: nat, c :: Reaches(w, n, cursor, end, k, c) ==> k < m || (k == m && c == at)
    ensures forall k: nat, c :: Reaches(w, n, cursor, end, k, c) && k < m ==>
      Fetched(w, k, c, end).Ok? && !Complete(Fetched(w, k, c, end).value, end)
    decreases if cursor.position < end then end - cursor.position else 0
  {
    var fetched := Fetched(w, n, cursor, end);
    var reply := w.reply(n, cursor, Size(cursor, end));
    if reply.Delivered? { AcceptedExactly(cursor, reply.response); }
    m, at := n, cursor;
    if fetched.Ok? && !Complete(fetched.value, end) {
      m, at := ReadEnds(w, n + 1, fetched.value.cursor, end);
    }
  }

  /** The m-th request is made and its response makes sense. */
  predicate Answered(w: World, n: nat, cursor: Cursor, end: nat, m: nat, at: Cursor, r: Response) {
    Asked(w, n, cursor, end, m, at, Delivered(r)) && WellFormed(at, r)
  }

  /** An abort is seen before the m-th request, or after its response. */
  ghost predicate AbortSeen(w: World, n: nat, cursor: Cursor, end: nat, m: nat, at: Cursor) {
    || (Reaches(w, n, cursor, end, m, at) && w.aborted(2 * m))
    || (w.aborted(2 * m + 1) && exists r :: Answered(w, n, cursor, end, m, at, r))
  }

  predicate Completes(w: World, n: nat, cursor: Cursor, end: nat, m: nat, at: Cursor, r: Response) {
    Answered(w, n, cursor, end, m, at, r) && !w.aborted(2 * m + 1) && (r.exhausted || r.nextCursor >= end)
  }

  /** A read expires if and only if the server says that the feed is gone, fails if and only
      if a request fails, and is refused if and only if a response makes no sense - each at
      a request it gets to.  It is aborted exactly when an abort is seen before a request or
      after an accepted response, and otherwise it succeeds, at the first response that
      completes the range. */
  lemma {:induction false} RangeEndsExactly(w: World, n: nat, cursor: Cursor, end: nat)
    ensures Range(w, n, cursor, end) == Err(Expired) <==>
      exists m: nat, at :: Asked(w, n, cursor, end, m, at, Gone)
    ensures Range(w, n, cursor, end) == Err(Network) <==>
      exists m: nat, at :: Asked(w, n, cursor, end, m, at, Failed)
    ensures Range(w, n, cursor, end) == Err(InvalidResponse) <==>
      exists m: nat, at, r :: Asked(w, n, cursor, end, m, at, Delivered(r)) && !WellFormed(at, r)
    ensures Range(w, n, cursor, end) == Err(Aborted) <==>
      exists m: nat, at :: AbortSeen(w, n, cursor, end, m, at)
    ensures Range(w, n, cursor, end).Ok? <==>
      exists m: nat, at, r :: Completes(w, n, cursor, end, m, at, r)
  {
    var m, at := ReadEnds(w, n, cursor, end);
    var reply := w.reply(m, at, Size(at, end));
    assert !w.aborted(2 * m) ==> Asked(w, n, cursor, end, m, at, reply);
    if reply.Delivered? {
      var r := reply.response;
      AcceptedExactly(at, r);
      assert !w.aborted(2 * m) && WellFormed(at, r) ==> Answered(w, n, cursor, end, m, at, r);
      assert Range(w, n, cursor, end).Ok? ==> Completes(w, n, cursor, end, m, at, r);
    }
    assert Range(w, n, cursor, end) == Err(Aborted) ==> AbortSeen(w, n, cursor, end, m, at);
    forall k: nat, c, other: Reply | Asked(w, n, cursor, end, k, c, other)
      ensures (k == m && c == at) || GoesOn(w, k, c, end, other)
    {
      if other.Delivered? { AcceptedExactly(c, other.response); }
    }
    forall k: nat, c | AbortSeen(w, n, cursor, end, k, c) ensures k == m && c == at {
      if !w.aborted(2 * k) {
        var r :| Answered(w, n, cursor, end, k, c, r);
        assert Asked(w, n, cursor, end, k, c, Delivered(r));
      }
    }
  }

  /** An answer after which a read asks on. */
  predicate GoesOn(w: World, k: nat, c: Cursor, end: nat, reply: Reply) {
    && reply.Delivered? && WellFormed(c, reply.response) && !w.aborted(2 * k + 1)
    && !reply.response.exhausted && reply.response.nextCursor < end
  }

  // ----- Honest servers ---------------------------------------------------------

  /** The batch shows the entries a mask picks from the snapshot stretch it moved over. */
  predicate ShowsAs(mask: seq<bool>, s: Snapshot, from: Cursor, batch: Batch) {
    && from.position <= batch.cursor.position <= |s|
    && |mask| == batch.cursor.position - from.position
    && batch.items == Picked(s[from.position..batch.cursor.position], mask)
    && batch.total == |s|
    && (batch.exhausted <==> batch.cursor.position == |s|)
    && (from.feedToken != "" ==> batch.cursor.feedToken == from.feedToken)
  }

  /** It shows the public entries, `shown` being what is public as it is answered. */
  predicate Shows(shown: Video -> bool, s: Snapshot, from: Cursor, batch: Batch) {
    && from.position <= batch.cursor.position <= |s|
    && ShowsAs(MaskOf(shown, s[from.position..batch.cursor.position]), s, from, batch)
  }

  /** What is public when the n-th request of a range read is answered. */
  type Views = nat -> (Video -> bool)

  /** Wherever this server cuts its batches, what they hold is true when it is answered. */
  ghost predicate Truthful(views: Views, s: Snapshot, token: string, w: World) {
    forall n: nat, cursor: Cursor, size: nat {:trigger w.reply(n, cursor, size)} ::
      var batch := Checked(cursor, w.reply(n, cursor, size));
      cursor.feedToken == token && cursor.position <= |s| && batch.Ok? ==> Shows(views(n), s, cursor, batch.value)
  }

  /** Of each position a range read covers: whether its entry was public when the request
      that covered it was answered. */
  function RangeMask(views: Views, s: Snapshot, w: World, n: nat, cursor: Cursor, end: nat): seq<bool>
    decreases if cursor.position < end then end - cursor.position else 0
  {
    var fetched := Fetched(w, n, cursor, end);
    if fetched.Err? || !(cursor.position <= fetched.value.cursor.position <= |s|) then []
    else
      var first := MaskOf(views(n), s[cursor.position..fetched.value.cursor.position]);
      if Complete(fetched.value, end) || fetched.value.cursor.position <= cursor.position then first
      else first + RangeMask(views, s, w, n + 1, fetched.value.cursor, end)
  }

  /** A range read from any truthful server shows exactly the entries of its stretch that
      were public when their batch was answered, however that changes between batches, and
      it reports at least the stretch that was asked for, or the whole rest. */
  lemma {:induction false} RangeShowsItsStretch(
      views: Views, s: Snapshot, w: World, n: nat, cursor: Cursor, end: nat)
    requires Truthful(views, s, cursor.feedToken, w) && cursor.feedToken != "" && cursor.position <= |s|
    requires Range(w, n, cursor, end).Ok?
    ensures var r := Range(w, n, cursor, end).value;
      ShowsAs(RangeMask(views, s, w, n, cursor, end), s, cursor, r) && Complete(r, end)
    decreases if cursor.position < end then end - cursor.position else 0
  {
    var first := Fetched(w, n, cursor, end).value;
    assert Shows(views(n), s, cursor, first);
    if !Complete(first, end) {
      RangeShowsItsStretch(views, s, w, n + 1, first.cursor, end);
      var rest := Range(w, n + 1, first.cursor, end).value;
      PickedStretches(s, cursor.position, first.cursor.position, rest.cursor.position,
                      MaskOf(views(n), s[cursor.position..first.cursor.position]),
                      RangeMask(views, s, w, n + 1, first.cursor, end));
    }
  }

  /** A first answer, without a token, shows a stretch of `s` from its start; if it names a
      token, that token's answers are of `s` too. */
  ghost predicate TruthfulFromStart(views: Views, s: Snapshot, w: World) {
    forall n: nat, size: nat {:trigger w.reply(n, Cursor("", 0), size)} ::
      var batch := Checked(Cursor("", 0), w.reply(n, Cursor("", 0), size));
      batch.Ok? ==>
        && Shows(views(n), s, Cursor("", 0), batch.value)
        && (batch.value.cursor.feedToken != "" ==> Truthful(views, s, batch.value.cursor.feedToken, w))
  }

  /** A range read from the empty cursor, over however many batches, shows its stretch of
      the one snapshot its first answer was taken from. */
  lemma {:induction false} FreshRangeShowsItsStretch(views: Views, s: Snapshot, w: World, n: nat, end: nat)
    requires TruthfulFromStart(views, s, w) && Range(w, n, Cursor("", 0), end).Ok?
    ensures var r := Range(w, n, Cursor("", 0), end).value;
      && ShowsAs(RangeMask(views, s, w, n, Cursor("", 0), end), s, Cursor("", 0), r) && Complete(r, end)
      && r.cursor.feedToken == Fetched(w, n, Cursor("", 0), end).value.cursor.feedToken
  {
    var start := Cursor("", 0);
    var first := Fetched(w, n, start, end).value;
    assert Shows(views(n), s, start, first);
    if !Complete(first, end) {
      RangeShowsItsStretch(views, s, w, n + 1, first.cursor, end);
      var rest := Range(w, n + 1, first.cursor, end).value;
      PickedStretches(s, 0, first.cursor.position, rest.cursor.position,
                      MaskOf(views(n), s[0..first.cursor.position]),
                      RangeMask(views, s, w, n + 1, first.cursor, end));
    }
  }

  /** While nothing changes the mask is the one visibility there is. */
  lemma {:induction false} SteadyRangeMask(
      views: Views, shown: Video -> bool, s: Snapshot, w: World, n: nat, cursor: Cursor, end: nat)
    requires forall k :: views(k) == shown
    requires Truthful(views, s, cursor.feedToken, w) && cursor.feedToken != "" && cursor.position <= |s|
    requires Range(w, n, cursor, end).Ok?
    ensures var to := Range(w, n, cursor, end).value.cursor.position;
      cursor.position <= to <= |s| && RangeMask(views, s, w, n, cursor, end) == MaskOf(shown, s[cursor.position..to])
    decreases if cursor.position < end then end - cursor.position else 0
  {
    var first := Fetched(w, n, cursor, end).value;
    assert Shows(views(n), s, cursor, first);
    if !Complete(first, end) {
      SteadyRangeMask(views, shown, s, w, n + 1, first.cursor, end);
      MaskStretches(shown, s, cursor.position, first.cursor.position, Range(w, n, cursor, end).value.cursor.position);
    }
  }

  /** The site's own server, which fills every batch with public entries. */
  function ServerReply(shown: Video -> bool, s: Snapshot, cursor: Cursor, size: nat): Reply {
    if cursor.position > |s| || size == 0 || size > MAX_BATCH then Failed
    else
      var end := BatchEnd(shown, s, cursor.position, size);
      Delivered(Response(Visible(shown, s[cursor.position..end]), |s|, cursor.feedToken, end, end >= |s|))
  }

  ghost predicate OwnServer(views: Views, s: Snapshot, token: string, w: World) {
    forall n: nat, cursor: Cursor, size: nat {:trigger w.reply(n, cursor, size)} ::
      cursor.feedToken == token ==> w.reply(n, cursor, size) == ServerReply(views(n), s, cursor, size)
  }

  lemma OwnServerIsTruthful(views: Views, s: Snapshot, token: string, w: World)
    requires OwnServer(views, s, token, w)
    ensures Truthful(views, s, token, w)
  {
    forall n: nat, cursor: Cursor, size: nat
      ensures var batch := Checked(cursor, w.reply(n, cursor, size));
        cursor.feedToken == token && cursor.position <= |s| && batch.Ok? ==> Shows(views(n), s, cursor, batch.value)
    {
      var batch := Checked(cursor, w.reply(n, cursor, size));
      if cursor.feedToken == token && cursor.position <= |s| && batch.Ok? {
        VisibleIsPicked(views(n), s[cursor.position..batch.value.cursor.position]);
      }
    }
  }

  /** Where a range read from the site's own server ends, from its n-th request on. */
  function RangeEnd(views: Views, s: Snapshot, n: nat, position: nat, end: nat): (last: nat)
    requires position < end && position <= |s|
    ensures position <= last <= |s|
    decreases end - position
  {
    var next := BatchEnd(views(n), s, position, Size(Cursor("", position), end));
    if next == |s| || next >= end || next <= position then next else RangeEnd(views, s, n + 1, next, end)
  }

  /** Its last batch: the number of the request, and where it starts. */
  function LastBatch(views: Views, s: Snapshot, n: nat, position: nat, end: nat): (last: (nat, nat))
    requires position < end && position <= |s|
    ensures position <= last.1 < end && last.1 <= |s|
    decreases end - position
  {
    var next := BatchEnd(views(n), s, position, Size(Cursor("", position), end));
    if next == |s| || next >= end || next <= position then (n, position)
    else LastBatch(views, s, n + 1, next, end)
  }

  lemma ReplyPasses(cursor: Cursor, reply: Reply)
    requires reply.Delivered? && 0 < |cursor.feedToken| <= MAX_TOKEN
    requires var r := reply.response;
      && r.feedToken == cursor.feedToken && cursor.position <= r.nextCursor <= r.total
      && (r.exhausted <==> r.nextCursor == r.total) && (!r.exhausted ==> cursor.position < r.nextCursor)
    ensures var r := reply.response;
      Checked(cursor, reply) == Ok(Batch(r.items, r.total, Cursor(r.feedToken, r.nextCursor), r.exhausted))
  {}

  /** A request to the site's own server passes the checks. */
  lemma OwnBatchPasses(views: Views, s: Snapshot, w: World, n: nat, cursor: Cursor, end: nat)
    requires OwnServer(views, s, cursor.feedToken, w) && 0 < |cursor.feedToken| <= MAX_TOKEN
    requires cursor.position < end && cursor.position <= |s|
    requires forall k :: !w.aborted(k)
    ensures var next := BatchEnd(views(n), s, cursor.position, Size(cursor, end));
      && Fetched(w, n, cursor, end).Ok?
      && Fetched(w, n, cursor, end).value.cursor == Cursor(cursor.feedToken, next)
      && (Fetched(w, n, cursor, end).value.exhausted <==> next == |s|)
      && (cursor.position < |s| ==> cursor.position < next)
  {
    var size := Size(cursor, end);
    var reply := w.reply(n, cursor, size);
    if cursor.position < |s| { BatchAdvances(views(n), s, cursor.position, size); }
    assert reply == ServerReply(views(n), s, cursor, size);
    ReplyPasses(cursor, reply);
  }

  /** Unless it is aborted, a range read from the site's own server always succeeds. */
  lemma {:induction false} OwnRangeEnds(
      views: Views, s: Snapshot, w: World, n: nat, cursor: Cursor, end: nat)
    requires OwnServer(views, s, cursor.feedToken, w) && 0 < |cursor.feedToken| <= MAX_TOKEN
    requires cursor.position < end && cursor.position <= |s|
    requires forall k :: !w.aborted(k)
    ensures Range(w, n, cursor, end).Ok?
    ensures Range(w, n, cursor, end).value.cursor.position == RangeEnd(views, s, n, cursor.position, end)
    decreases end - cursor.position
  {
    OwnBatchPasses(views, s, w, n, cursor, end);
    var fetched := Fetched(w, n, cursor, end);
    if !Complete(fetched.value, end) {
      OwnRangeEnds(views, s, w, n + 1, fetched.value.cursor, end);
    }
  }

  /** The stretch left for the last batch holds as many public entries as the batch
      asks for. */
  predicate LastBatchFits(views: Views, s: Snapshot, n: nat, position: nat, end: nat)
    requires position < end <= |s|
  {
    var (m, last) := LastBatch(views, s, n, position, end);
    |Visible(views(m), s[last..end])| == Size(Cursor("", last), end)
  }

  /** The read never ends before the end it was asked for, and it ends exactly there
      if and only if its last batch fits or the snapshot ends there too. */
  lemma {:induction false} RangeEndsWhereAsked(views: Views, s: Snapshot, n: nat, position: nat, end: nat)
    requires position < end <= |s|
    ensures end <= RangeEnd(views, s, n, position, end)
    ensures RangeEnd(views, s, n, position, end) == end <==> end == |s| || LastBatchFits(views, s, n, position, end)
    decreases end - position
  {
    var size := Size(Cursor("", position), end);
    var next := BatchEnd(views(n), s, position, size);
    BatchHolds(views(n), s, position, size);
    if next == |s| || next >= end {
      BatchReaches(views(n), s, position, size, end);
    } else {
      RangeEndsWhereAsked(views, s, n + 1, next, end);
    }
  }

  /** A batch that gets as far as `end` stops there exactly if `end` completes it. */
  lemma BatchReaches(shown: Video -> bool, s: Snapshot, position: nat, size: nat, end: nat)
    requires position < end <= |s| && 0 < size <= end - position
    requires var next := BatchEnd(shown, s, position, size); next == |s| || next >= end
    ensures var next := BatchEnd(shown, s, position, size);
      end <= next && (next == end <==> end == |s| || |Visible(shown, s[position..end])| == size)
  {
    var next := BatchEnd(shown, s, position, size);
    BatchHolds(shown, s, position, size);
    VisibleStretches(shown, s, position, end, next);
    if end < next && shown(s[next - 1]) { SomeVisible(shown, s, end, next); }
  }

  lemma SomeVisible(shown: Video -> bool, s: Snapshot, from: nat, to: nat)
    requires from < to <= |s| && shown(s[to - 1])
    ensures 1 <= |Visible(shown, s[from..to])|
  {
    VisibleCount(shown, s[from..to]);
    assert s[from..to][to - 1 - from] == s[to - 1];
    assert s[to - 1] in Visible(shown, s[from..to]);
  }

  /** For a range of one batch: it ends where asked exactly if nothing in it has
      been hidden since the snapshot was taken, or nothing follows it. */
  lemma OneBatchEndsWhereAsked(views: Views, s: Snapshot, n: nat, position: nat, end: nat)
    requires position < end <= |s| && end - position <= MAX_BATCH
    ensures RangeEnd(views, s, n, position, end) == end <==> end == |s| || AllShown(views(n), s[position..end])
  {
    var shown := views(n);
    var next := BatchEnd(shown, s, position, end - position);
    BatchHolds(shown, s, position, end - position);
    VisibleCount(shown, s[position..next]);
    assert next == |s| || next >= end;
    VisibleCount(shown, s[position..end]);
    BatchReaches(shown, s, position, end - position, end);
  }
}

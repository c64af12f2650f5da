/** The listing's reducer over an immutable server snapshot: stale, reordered and
    replayed responses, and the list a restored page rebuilds. */
module InfiniteListing {
  import opened Wrappers
  import opened FirstOccurrences
  import opened FeedServer
  import F = FeedRange

  datatype Status = Idle | InitialLoading | ReadyStatus | LoadingMore | ErrorStatus

  datatype State = State(
    key: string,
    requestID: nat,
    pageSize: int,
    items: seq<Video>,
    total: nat,
    feedToken: string,
    requestedCount: nat,
    exhausted: bool,
    status: Status,
    error: Option<string>,
    receivedAt: nat)

  datatype Action =
    | Disable(requestID: nat, key: string, pageSize: int)
    | Reset(requestID: nat, key: string, pageSize: int, start: F.Cursor)
    | Hydrate(requestID: nat, key: string, pageSize: int, items: seq<Video>, total: nat, feedToken: string,
              requestedCount: nat, exhausted: bool, receivedAt: nat)
    | LoadStart(requestID: nat)
    | LoadSuccess(requestID: nat, requestCursor: F.Cursor, batch: F.Batch, receivedAt: nat)
    | LoadFailure(requestID: nat, error: string)

  function Empty(key: string, pageSize: int): State {
    State(key, 0, pageSize, [], 0, "", 0, false, Idle, None, 0)
  }

  function IdOf(v: Video): string { v.id }

  function Appended(previous: seq<Video>, incoming: seq<Video>): seq<Video> {
    previous + Fresh(IdOf, Keys(IdOf, previous), incoming)
  }

  method AppendUniqueVideos(previous: seq<Video>, incoming: seq<Video>) returns (result: seq<Video>)
    ensures result == Appended(previous, incoming)
  {
    if |incoming| == 0 {
      assert previous + [] == previous;
      return previous;
    }
    var seen := Keys(IdOf, previous);
    var news: seq<Video> := [];
    for i := 0 to |incoming|
      invariant Fresh(IdOf, Keys(IdOf, previous), incoming) == news + Fresh(IdOf, seen, incoming[i..])
    {
      assert incoming[i..][1..] == incoming[i + 1..];
      if incoming[i].id !in seen {
        assert news + ([incoming[i]] + Fresh(IdOf, seen + {incoming[i].id}, incoming[i + 1..]))
            == (news + [incoming[i]]) + Fresh(IdOf, seen + {incoming[i].id}, incoming[i + 1..]);
        seen := seen + {incoming[i].id};
        news := news + [incoming[i]];
      }
    }
    return if |news| == 0 then previous else previous + news;
  }

  function Reduce(state: State, action: Action): State {
    match action
    case Disable(id, key, pageSize) => Empty(key, pageSize).(requestID := id)
    case Reset(id, key, pageSize, start) =>
      Empty(key, pageSize).(requestID := id, feedToken := start.feedToken, requestedCount := start.position)
    case Hydrate(id, key, pageSize, items, total, token, count, exhausted, at) =>
      State(key, id, pageSize, items, total, token, count, exhausted, ReadyStatus, None, at)
    case LoadStart(id) =>
      state.(requestID := id, status := if |state.items| > 0 then LoadingMore else InitialLoading, error := None)
    case LoadSuccess(id, requestCursor, batch, at) =>
      if !Accepts(state, action) then state
      else
        state.(items := Appended(state.items, batch.items), total := batch.total,
               feedToken := batch.cursor.feedToken, requestedCount := batch.cursor.position,
               exhausted := batch.exhausted, status := ReadyStatus, error := None, receivedAt := at)
    case LoadFailure(id, error) =>
      if id != state.requestID then state else state.(status := ErrorStatus, error := Some(error))
  }

  predicate Accepts(state: State, action: Action)
    requires action.LoadSuccess?
  {
    && action.requestID == state.requestID
    && action.requestCursor == F.Cursor(state.feedToken, state.requestedCount)
  }

  function NextListingRequest(state: State): Option<(F.Cursor, nat)> {
    if state.exhausted || state.pageSize <= 0 then None
    else Some((F.Cursor(state.feedToken, state.requestedCount), state.pageSize))
  }

  function CacheMatchesRestore(cachedToken: string, cachedCount: nat, restoreToken: string, restoreCount: int): bool {
    if restoreToken != "" && cachedToken != restoreToken then false
    else if restoreCount <= 0 then true
    else cachedCount >= restoreCount
  }

  // ----- Sessions -----------------------------------------------------------------

  /** The server's snapshots by token. */
  datatype Server = Server(feeds: string -> Snapshot)

  /** A reducer run: its state, the snapshot and position the list began at, for each
      position since whether its entry was public when its response was answered, and the
      newest request id handed out. */
  datatype Session = Session(state: State, snapshot: Snapshot, base: nat, mask: seq<bool>, lastID: nat)

  /** An action as it happens.  `snapshot` is the one a first response or a cached list
      comes from, and `mask` says what of the stretch it covers was public, and not deleted
      here, at that moment: every response has a visibility of its own. */
  datatype Event = Event(action: Action, snapshot: Snapshot, mask: seq<bool>)

  /** The entries a mask picks from a stretch, each id once. */
  function Stretch(s: Snapshot, from: nat, to: nat, mask: seq<bool>): seq<Video>
    requires from <= to <= |s| && |mask| == to - from
  {
    Unique(IdOf, Picked(s[from..to], mask))
  }

  function SourceOf(server: Server, token: string, first: Snapshot): Snapshot {
    if token == "" then first else server.feeds(token)
  }

  /** Request ids are drawn fresh; a load that follows a reset carries the reset's id.  A
      response shows what was public of the stretch it was asked for, whenever it arrives
      and however often. */
  predicate Honest(server: Server, s: Session, e: Event) {
    match e.action
    case Disable(id, _, _) => id > s.lastID
    case LoadStart(id) => id >= s.lastID
    case LoadFailure(id, _) => true
    case Reset(id, _, _, start) =>
      id > s.lastID && (if start.feedToken == "" then start.position == 0
                        else start.position <= |server.feeds(start.feedToken)|)
    case Hydrate(id, _, _, items, _, token, count, exhausted, _) =>
      && id > s.lastID && count <= |e.snapshot| && |e.mask| == count
      && (if token == "" then exhausted else server.feeds(token) == e.snapshot)
      && items == Stretch(e.snapshot, 0, count, e.mask)
      && (exhausted ==> count == |e.snapshot|)
    case LoadSuccess(id, from, batch, _) =>
      && F.ShowsAs(e.mask, SourceOf(server, from.feedToken, e.snapshot), from, batch)
      && (from.feedToken == "" ==>
            && from.position == 0
            && (if batch.cursor.feedToken == "" then batch.exhausted
                else server.feeds(batch.cursor.feedToken) == e.snapshot))
  }

  function Step(s: Session, server: Server, e: Event): Session {
    var next := Reduce(s.state, e.action);
    match e.action
    case Disable(id, _, _) => Session(next, [], 0, [], id)
    case Reset(id, _, _, start) => Session(next, SourceOf(server, start.feedToken, []), start.position, [], id)
    case Hydrate(id, _, _, _, _, _, _, _, _) => Session(next, e.snapshot, 0, e.mask, id)
    case LoadStart(id) => s.(state := next, lastID := id)
    case LoadSuccess(_, from, _, _) =>
      if !Accepts(s.state, e.action) then s.(state := next)
      else if from.feedToken == "" then s.(state := next, snapshot := e.snapshot, base := 0, mask := e.mask)
      else s.(state := next, mask := s.mask + e.mask)
    case LoadFailure(_, _) => s.(state := next)
  }

  ghost predicate Inv(server: Server, s: Session) {
    && s.state.requestID == s.lastID
    && s.base <= s.state.requestedCount <= |s.snapshot|
    && |s.mask| == s.state.requestedCount - s.base
    && s.state.items == Stretch(s.snapshot, s.base, s.state.requestedCount, s.mask)
    && (s.state.exhausted ==> s.state.requestedCount == |s.snapshot|)
    && (if s.state.feedToken == "" then s.base == 0 && (s.state.requestedCount == 0 || s.state.exhausted)
        else server.feeds(s.state.feedToken) == s.snapshot)
  }

  function Start(key: string, pageSize: int): Session {
    Session(Empty(key, pageSize), [], 0, [], 0)
  }

  lemma StretchJoins(s: Snapshot, a: nat, b: nat, c: nat, m: seq<bool>, n: seq<bool>)
    requires a <= b <= c <= |s| && |m| == b - a && |n| == c - b
    ensures Stretch(s, a, c, m + n) == Appended(Stretch(s, a, b, m), Picked(s[b..c], n))
  {
    PickedStretches(s, a, b, c, m, n);
    UniqueJoins(IdOf, Picked(s[a..b], m), Picked(s[b..c], n));
  }

  lemma EmptyStretch(s: Snapshot, a: nat)
    requires a <= |s|
    ensures Stretch(s, a, a, []) == []
  {
    assert s[a..a] == [];
  }

  lemma LoadSuccessKeepsInv(server: Server, s: Session, e: Event)
    requires Inv(server, s) && e.action.LoadSuccess? && Honest(server, s, e) && Accepts(s.state, e.action)
    ensures Inv(server, Step(s, server, e))
  {
    var from, to := s.state.requestedCount, e.action.batch.cursor.position;
    if s.state.feedToken == "" {
      FirstAnswerIsTheList(server, s, e);
    } else {
      StretchJoins(s.snapshot, s.base, from, to, s.mask, e.mask);
    }
  }

  /** A request without a token asks from the start, and nothing can be listed yet that
      its answer would not repeat. */
  lemma FirstAnswerIsTheList(server: Server, s: Session, e: Event)
    requires Inv(server, s) && e.action.LoadSuccess? && Honest(server, s, e) && Accepts(s.state, e.action)
    requires s.state.feedToken == ""
    ensures s.state.requestedCount == 0 && s.state.items == []
    ensures Appended(s.state.items, e.action.batch.items)
      == Stretch(e.snapshot, 0, e.action.batch.cursor.position, e.mask)
  {
    var to := e.action.batch.cursor.position;
    assert s.snapshot[s.base..s.state.requestedCount] == [];
    EmptyStretch(e.snapshot, 0);
    StretchJoins(e.snapshot, 0, 0, to, [], e.mask);
    assert [] + e.mask == e.mask;
  }

  lemma StepKeepsInv(server: Server, s: Session, e: Event)
    requires Inv(server, s) && Honest(server, s, e)
    ensures Inv(server, Step(s, server, e))
  {
    match e.action
    case Disable(_, _, _) => EmptyStretch([], 0);
    case Reset(_, _, _, start) => EmptyStretch(SourceOf(server, start.feedToken, []), start.position);
    case Hydrate(_, _, _, _, _, _, _, _, _) =>
    case LoadStart(_) =>
    case LoadSuccess(_, _, _, _) => if Accepts(s.state, e.action) { LoadSuccessKeepsInv(server, s, e); }
    case LoadFailure(_, _) =>
  }

  function RunFrom(server: Server, s: Session, es: seq<Event>): Session {
    if es == [] then s else Step(RunFrom(server, s, es[..|es| - 1]), server, es[|es| - 1])
  }

  predicate HonestRun(server: Server, s: Session, es: seq<Event>) {
    es == [] ||
    (HonestRun(server, s, es[..|es| - 1]) && Honest(server, RunFrom(server, s, es[..|es| - 1]), es[|es| - 1]))
  }

  lemma {:induction false} RunKeepsInv(server: Server, s: Session, es: seq<Event>)
    requires Inv(server, s) && HonestRun(server, s, es)
    ensures Inv(server, RunFrom(server, s, es))
  {
    if es != [] {
      RunKeepsInv(server, s, es[..|es| - 1]);
      StepKeepsInv(server, RunFrom(server, s, es[..|es| - 1]), es[|es| - 1]);
    }
  }

  /** In every run the list is one stretch of one snapshot, from the position it began at
      to the cursor: the entries that were public when their response was answered, each id
      once.  When it is exhausted, it reaches the snapshot's end. */
  lemma {:induction false} ListIsOneStretch(server: Server, key: string, pageSize: int, es: seq<Event>)
    requires HonestRun(server, Start(key, pageSize), es)
    ensures var s := RunFrom(server, Start(key, pageSize), es);
      && s.base <= s.state.requestedCount <= |s.snapshot|
      && |s.mask| == s.state.requestedCount - s.base
      && s.state.items == Stretch(s.snapshot, s.base, s.state.requestedCount, s.mask)
      && DistinctBy(IdOf, s.state.items)
      && (s.state.feedToken != "" ==> s.snapshot == server.feeds(s.state.feedToken))
      && (s.state.exhausted ==> s.state.requestedCount == |s.snapshot|)
  {
    EmptyStretch([], 0);
    RunKeepsInv(server, Start(key, pageSize), es);
    var s := RunFrom(server, Start(key, pageSize), es);
    FreshKeys(IdOf, {}, Picked(s.snapshot[s.base..s.state.requestedCount], s.mask));
  }

  /** The hook's own way to load a list afresh - on mounting, reloading, restoring, or
      restarting after an expiry - with one id for the reset, the load and the response. */
  function FirstLoad(s: Session, id: nat, start: F.Cursor, response: Event): seq<Event> {
    [Event(Reset(id, s.state.key, s.state.pageSize, start), [], []), Event(LoadStart(id), [], []), response]
  }

  /** Such a load is an honest run whenever its response is honest, and it leaves the list
      that its response shows. */
  lemma {:induction false} FirstLoadIsHonest(server: Server, s: Session, id: nat, start: F.Cursor, response: Event)
    requires Inv(server, s) && id > s.lastID
    requires if start.feedToken == "" then start.position == 0
             else start.position <= |server.feeds(start.feedToken)|
    requires response.action.LoadSuccess? && response.action.requestID == id
    requires response.action.requestCursor == start && Honest(server, s, response)
    ensures HonestRun(server, s, FirstLoad(s, id, start, response))
    ensures var loaded := RunFrom(server, s, FirstLoad(s, id, start, response));
      var source := SourceOf(server, start.feedToken, response.snapshot);
      && start.position <= loaded.state.requestedCount == response.action.batch.cursor.position <= |source|
      && |response.mask| == loaded.state.requestedCount - start.position
      && loaded.state.items == Stretch(source, start.position, loaded.state.requestedCount, response.mask)
      && loaded.state.status == ReadyStatus
  {
    var es := FirstLoad(s, id, start, response);
    var reset := Step(s, server, es[0]);
    var started := Step(reset, server, es[1]);
    RunOfThree(server, s, es);
    StepKeepsInv(server, s, es[0]);
    StepKeepsInv(server, reset, es[1]);
    assert Accepts(started.state, response.action);
    StepKeepsInv(server, started, response);
    assert started.mask == [] && [] + response.mask == response.mask;
  }

  lemma RunOfThree(server: Server, s: Session, es: seq<Event>)
    requires |es| == 3
    ensures RunFrom(server, s, es) == Step(Step(Step(s, server, es[0]), server, es[1]), server, es[2])
    ensures HonestRun(server, s, es) <==>
      && Honest(server, s, es[0]) && Honest(server, Step(s, server, es[0]), es[1])
      && Honest(server, Step(Step(s, server, es[0]), server, es[1]), es[2])
  {
    var one, two := es[..1], es[..2];
    assert one[..0] == [] && two[..1] == one && two[1] == es[1];
    assert RunFrom(server, s, one) == Step(s, server, es[0]);
    assert RunFrom(server, s, two) == Step(Step(s, server, es[0]), server, es[1]);
    assert HonestRun(server, s, one) <==> Honest(server, s, es[0]);
    assert HonestRun(server, s, two) <==> HonestRun(server, s, one) && Honest(server, RunFrom(server, s, one), es[1]);
  }

  /** What a range read brings is an honest response, filtered by the deletions made here:
      from a saved token, or from the empty cursor, as a restart makes it. */
  lemma {:induction false} RangeIsHonest(
      server: Server, s: Session, id: nat, at: nat, views: F.Views, w: F.World, first: Snapshot,
      token: string, end: nat, kept: Video -> bool)
    requires F.Range(w, 0, F.Cursor(token, 0), end).Ok?
    requires if token != "" then F.Truthful(views, server.feeds(token), token, w)
             else F.TruthfulFromStart(views, first, w)
    requires var range := F.Range(w, 0, F.Cursor(token, 0), end).value;
      token == "" && range.cursor.feedToken != "" ==> server.feeds(range.cursor.feedToken) == first
    ensures var range := F.Range(w, 0, F.Cursor(token, 0), end).value;
      var source := SourceOf(server, token, first);
      var mask := F.RangeMask(views, source, w, 0, F.Cursor(token, 0), end);
      && |mask| <= |source|
      && Honest(server, s, Event(
           LoadSuccess(id, F.Cursor(token, 0), range.(items := Visible(kept, range.items)), at),
           first, KeptMask(kept, source[..|mask|], mask)))
  {
    var source := SourceOf(server, token, first);
    if token != "" {
      F.RangeShowsItsStretch(views, source, w, 0, F.Cursor(token, 0), end);
    } else {
      F.FreshRangeShowsItsStretch(views, source, w, 0, end);
    }
    var n := F.Range(w, 0, F.Cursor(token, 0), end).value.cursor.position;
    assert source[0..n] == source[..n];
    VisiblePicked(kept, source[..n], F.RangeMask(views, source, w, 0, F.Cursor(token, 0), end));
  }

  /** The mask is what the applied responses saw: each adds the visibility it was answered
      under, and nothing but a restart or a first page replaces what is there. */
  lemma MaskIsWhatResponsesSaw(server: Server, s: Session, e: Event)
    requires Inv(server, s) && Honest(server, s, e) && !Restarts(e.action)
    ensures Step(s, server, e).mask ==
      if e.action.LoadSuccess? && Accepts(s.state, e.action) then s.mask + e.mask else s.mask
  {
    if e.action.LoadSuccess? && Accepts(s.state, e.action) && s.state.feedToken == "" {
      FirstAnswerIsTheList(server, s, e);
      assert s.mask == [] && [] + e.mask == e.mask;
    }
  }

  // ----- Page by page ----------------------------------------------------------------

  /** Scrolling asks for exactly what is missing: there is a next request unless the list
      is exhausted, and its answer, if nothing supersedes it, is applied and carries the
      list on from its cursor. */
  lemma NextPageExtends(server: Server, s: Session, id: nat, e: Event)
    requires Inv(server, s) && id > s.lastID && 0 < s.state.pageSize
    ensures NextListingRequest(s.state).None? <==> s.state.exhausted
    ensures !s.state.exhausted ==> NextListingRequest(s.state).value.1 == s.state.pageSize
    ensures
      var started := Step(s, server, Event(LoadStart(id), [], []));
      && e.action.LoadSuccess? && e.action.requestID == id && !s.state.exhausted
      && e.action.requestCursor == NextListingRequest(s.state).value.0 && Honest(server, started, e)
      ==>
        var next := Step(started, server, e);
        && next.mask == s.mask + e.mask
        && next.state.requestedCount == e.action.batch.cursor.position
        && next.state.items == Appended(s.state.items, e.action.batch.items)
  {
    var started := Step(s, server, Event(LoadStart(id), [], []));
    StepKeepsInv(server, s, Event(LoadStart(id), [], []));
    if e.action.LoadSuccess? && e.action.requestID == id && !s.state.exhausted
       && e.action.requestCursor == NextListingRequest(s.state).value.0 && Honest(server, started, e) {
      MaskIsWhatResponsesSaw(server, started, e);
    }
  }

  // ----- Responses count once -------------------------------------------------------

  predicate Restarts(a: Action) { a.Disable? || a.Reset? || a.Hydrate? }

  /** Without a restart the cursor never moves back and no item is taken off the list. */
  lemma {:induction false} CursorNeverMovesBack(server: Server, s: Session, e: Event)
    requires Inv(server, s) && Honest(server, s, e) && !Restarts(e.action)
    ensures s.state.requestedCount <= Step(s, server, e).state.requestedCount
    ensures s.state.items <= Step(s, server, e).state.items
    ensures s.state.feedToken != "" ==> Step(s, server, e).state.feedToken == s.state.feedToken
  {}

  /** The response can no longer apply: its request is superseded, or the cursor has
      passed it. */
  predicate Spent(s: Session, a: Action)
    requires a.LoadSuccess?
  {
    && a.requestID <= s.lastID
    && (a.requestID == s.state.requestID ==> a.requestCursor.position < s.state.requestedCount)
  }

  lemma StepKeepsSpent(server: Server, s: Session, e: Event, a: Action)
    requires Inv(server, s) && Honest(server, s, e) && a.LoadSuccess? && Spent(s, a)
    ensures Spent(Step(s, server, e), a) && Reduce(s.state, a) == s.state
  {}

  lemma {:induction false} RunKeepsSpent(server: Server, s: Session, es: seq<Event>, a: Action)
    requires Inv(server, s) && HonestRun(server, s, es) && a.LoadSuccess? && Spent(s, a)
    ensures Spent(RunFrom(server, s, es), a)
  {
    if es != [] {
      RunKeepsSpent(server, s, es[..|es| - 1], a);
      RunKeepsInv(server, s, es[..|es| - 1]);
      StepKeepsSpent(server, RunFrom(server, s, es[..|es| - 1]), es[|es| - 1], a);
    }
  }

  /** A response that moved the cursor is ignored whenever it is replayed, however
      long after. */
  lemma ResponsesApplyOnce(server: Server, s: Session, e: Event, es: seq<Event>)
    requires Inv(server, s) && Honest(server, s, e)
    requires e.action.LoadSuccess? && Accepts(s.state, e.action)
    requires e.action.requestCursor.position < e.action.batch.cursor.position
    requires HonestRun(server, Step(s, server, e), es)
    ensures var later := RunFrom(server, Step(s, server, e), es);
      Reduce(later.state, e.action) == later.state
  {
    var applied := Step(s, server, e);
    StepKeepsInv(server, s, e);
    RunKeepsSpent(server, applied, es, e.action);
    RunKeepsInv(server, applied, es);
  }

  /** One that did not move it came from an empty rest; replaying it at once only
      repeats what it said. */
  lemma {:induction false} EmptyResponsesAreIdempotent(server: Server, s: Session, e: Event)
    requires Inv(server, s) && Honest(server, s, e)
    requires e.action.LoadSuccess? && Accepts(s.state, e.action)
    requires e.action.requestCursor.position == e.action.batch.cursor.position
    ensures var applied := Step(s, server, e);
      applied.state.items == s.state.items && Reduce(applied.state, e.action) == applied.state
  {
    var at := s.state.requestedCount;
    var source := SourceOf(server, e.action.requestCursor.feedToken, e.snapshot);
    assert source[at..at] == [];
    assert s.state.items + [] == s.state.items;
  }
}

/** Coming back to a listing: the range read from the saved token and count, compared with
    the list that scrolling had built.  What is public may have changed in between, and may
    change between the batches of the read. */
module RestoreListing {
  import opened Wrappers
  import opened FirstOccurrences
  import opened FeedServer
  import F = FeedRange
  import opened InfiniteListing

  /** How a listing is restored: the server and what is public at each request, and the
      entries not deleted here when the answer is applied. */
  datatype Return = Return(world: F.World, views: F.Views, kept: Video -> bool, id: nat, at: nat)

  function Read(s: Session, r: Return, size: nat): F.Result<F.Batch> {
    F.Range(r.world, 0, F.Cursor(s.state.feedToken, 0), size)
  }

  /** The state after a reset to the saved token, the load, and the response of the range
      read. */
  function Restored(s: Session, r: Return, range: F.Batch): State {
    var start := F.Cursor(s.state.feedToken, 0);
    Reduce(Reduce(Reduce(s.state, Reset(r.id, s.state.key, s.state.pageSize, start)), LoadStart(r.id)),
           LoadSuccess(r.id, start, range.(items := Visible(r.kept, range.items)), r.at))
  }

  /** For each position the read covers: whether its entry is on the restored list. */
  function After(s: Session, r: Return, size: nat): seq<bool> {
    var mask := F.RangeMask(r.views, s.snapshot, r.world, 0, F.Cursor(s.state.feedToken, 0), size);
    if |mask| <= |s.snapshot| then KeptMask(r.kept, s.snapshot[..|mask|], mask) else mask
  }

  predicate Scrolled(s: Session) {
    && s.base == 0 && 0 < |s.state.feedToken| <= F.MAX_TOKEN && 0 < s.state.requestedCount
  }

  ghost predicate Answers(s: Session, r: Return) {
    F.Truthful(r.views, s.snapshot, s.state.feedToken, r.world)
  }

  /** Wherever a truthful server cuts its batches and however visibility changes, a range
      read of at least the saved count restores exactly the stretch up to its own cursor,
      as it is public now, and that cursor is not before the saved one. */
  lemma RestoreShowsItsStretch(server: Server, s: Session, r: Return, size: nat)
    requires Inv(server, s) && Scrolled(s) && s.state.requestedCount <= size
    requires Answers(s, r) && Read(s, r, size).Ok?
    ensures var restored := Restored(s, r, Read(s, r, size).value);
      && Min(size, |s.snapshot|) <= restored.requestedCount <= |s.snapshot|
      && s.state.requestedCount <= restored.requestedCount == |After(s, r, size)|
      && restored.items == Stretch(s.snapshot, 0, restored.requestedCount, After(s, r, size))
      && restored.feedToken == s.state.feedToken
      && (restored.exhausted <==> restored.requestedCount == |s.snapshot|)
  {
    var start := F.Cursor(s.state.feedToken, 0);
    F.RangeShowsItsStretch(r.views, s.snapshot, r.world, 0, start, size);
    var range := Read(s, r, size).value;
    ListedAfresh(s.snapshot, range.cursor.position, r.kept,
                 F.RangeMask(r.views, s.snapshot, r.world, 0, start, size), range.items);
  }

  lemma ListedAfresh(s: FeedServer.Snapshot, n: nat, kept: Video -> bool, mask: seq<bool>, items: seq<Video>)
    requires n <= |s| && |mask| == n && items == Picked(s[0..n], mask)
    ensures Appended([], Visible(kept, items)) == Stretch(s, 0, n, KeptMask(kept, s[..n], mask))
  {
    var left := KeptMask(kept, s[..n], mask);
    assert s[0..n] == s[..n] && [] + left == left;
    VisiblePicked(kept, s[..n], mask);
    EmptyStretch(s, 0);
    StretchJoins(s, 0, 0, n, [], left);
  }

  // ----- Comparing two lists of one snapshot ------------------------------------------

  /** Two masks agree up to the last entry the first one picks: no entry it picks is gone,
      and none before another that it picks has appeared. */
  predicate AgreeOnShown(before: seq<bool>, after: seq<bool>) {
    && |before| <= |after|
    && forall k, j :: 0 <= k <= j < |before| && before[j] ==> before[k] == after[k]
  }

  predicate NothingPicked(mask: seq<bool>) {
    forall k :: 0 <= k < |mask| ==> !mask[k]
  }

  lemma {:induction false} PickedFrom(s: FeedServer.Snapshot, mask: seq<bool>)
    requires |mask| == |s|
    ensures forall v :: v in Picked(s, mask) ==> v in s
    ensures Picked(s, mask) == [] <==> NothingPicked(mask)
  {
    if s != [] {
      PickedFrom(s[1..], mask[1..]);
      assert forall k :: 0 < k < |mask| ==> mask[k] == mask[1..][k - 1];
    }
  }

  lemma {:induction false} PickedIsDistinct(s: FeedServer.Snapshot, mask: seq<bool>)
    requires |mask| == |s| && DistinctBy(IdOf, s)
    ensures DistinctBy(IdOf, Picked(s, mask))
  {
    if s != [] {
      PickedIsDistinct(s[1..], mask[1..]);
      PickedFrom(s[1..], mask[1..]);
      NotLater(s);
      var rest := Picked(s[1..], mask[1..]);
      assert forall i :: 0 <= i < |rest| ==> rest[i] in rest;
    }
  }

  lemma NotLater(s: FeedServer.Snapshot)
    requires s != [] && DistinctBy(IdOf, s)
    ensures forall v :: v in s[1..] ==> v.id != s[0].id
    ensures DistinctBy(IdOf, s[1..])
  {
    forall v | v in s[1..] ensures v.id != s[0].id {
      var i :| 0 <= i < |s[1..]| && s[1..][i] == v;
      assert s[i + 1] == v && IdOf(s[0]) != IdOf(s[i + 1]);
    }
  }

  /** One step along both masks: agreement on the rest. */
  lemma AgreeOnRest(before: seq<bool>, after: seq<bool>)
    requires before != [] && |before| <= |after|
    ensures AgreeOnShown(before, after) <==>
      AgreeOnShown(before[1..], after[1..]) && (before[0] == after[0] || NothingPicked(before))
  {
    var b, a := before[1..], after[1..];
    assert forall k :: 0 < k < |before| ==> before[k] == b[k - 1] && after[k] == a[k - 1];
    if AgreeOnShown(before, after) {
      forall k, j | 0 <= k <= j < |b| && b[j] ensures b[k] == a[k] {
        assert before[j + 1] && before[k + 1] == after[k + 1];
      }
      if !NothingPicked(before) {
        var j :| 0 <= j < |before| && before[j];
        assert before[0] == after[0];
      }
    }
    if AgreeOnShown(b, a) && (before[0] == after[0] || NothingPicked(before)) {
      forall k, j | 0 <= k <= j < |before| && before[j] ensures before[k] == after[k] {
        if 0 < k { assert b[j - 1] && b[k - 1] == a[k - 1]; }
      }
    }
  }

  /** Of two lists picked from a snapshot without repeated ids, the first starts the second
      exactly if the masks agree up to its last entry. */
  lemma {:induction false} PrefixExactly(
      s: FeedServer.Snapshot, t: FeedServer.Snapshot, before: seq<bool>, after: seq<bool>)
    requires s <= t && |before| == |s| && |after| == |t| && DistinctBy(IdOf, t)
    ensures Picked(s, before) <= Picked(t, after) <==> AgreeOnShown(before, after)
  {
    if s != [] {
      var p, q := Picked(s[1..], before[1..]), Picked(t[1..], after[1..]);
      assert s[0] == t[0] && s[1..] <= t[1..];
      NotLater(t);
      PrefixExactly(s[1..], t[1..], before[1..], after[1..]);
      AgreeOnRest(before, after);
      PickedFrom(s, before);
      PickedFrom(s[1..], before[1..]);
      PickedFrom(t[1..], after[1..]);
      HeadsDecide(t[0], p, q, before[0], after[0]);
      assert NothingPicked(before) <==> !before[0] && p == [];
    }
  }

  /** Prefixes, with or without one new head on either side. */
  lemma HeadsDecide(head: Video, p: seq<Video>, q: seq<Video>, onP: bool, onQ: bool)
    requires head !in p && head !in q
    ensures (if onP then [head] else []) + p <= (if onQ then [head] else []) + q <==>
      if onP == onQ then p <= q else !onP && p == []
  {
    var a, b := (if onP then [head] else []) + p, (if onQ then [head] else []) + q;
    if onP && onQ {
      assert a[1..] == p && b[1..] == q;
      if a <= b { assert p == b[1..|a|]; }
      if p <= q { assert b[..|a|] == a; }
    } else if onP {
      assert a[0] == head && b == q && (b != [] ==> b[0] in q);
    } else if onQ {
      assert a == p && b[0] == head && (a != [] ==> a[0] in p);
    } else {
      assert a == p && b == q;
    }
  }

  /** Two lists picked from one stretch are the same exactly if their masks are. */
  lemma SameExactly(s: FeedServer.Snapshot, before: seq<bool>, after: seq<bool>)
    requires |before| == |s| == |after| && DistinctBy(IdOf, s)
    ensures Picked(s, before) == Picked(s, after) <==> before == after
  {
    PrefixExactly(s, s, before, after);
    PrefixExactly(s, s, after, before);
    if Picked(s, before) == Picked(s, after) {
      forall k | 0 <= k < |s| ensures before[k] == after[k] {
        assert before[k] ==> before[k] == after[k];
        assert after[k] ==> after[k] == before[k];
      }
    }
  }

  /** The same for the lists a page shows, which keep each id once. */
  lemma StretchesCompare(s: FeedServer.Snapshot, c: nat, n: nat, before: seq<bool>, after: seq<bool>)
    requires c <= n <= |s| && |before| == c && |after| == n && DistinctBy(IdOf, s)
    ensures Stretch(s, 0, c, before) <= Stretch(s, 0, n, after) <==> AgreeOnShown(before, after)
    ensures c == n ==> (Stretch(s, 0, c, before) == Stretch(s, 0, n, after) <==> before == after)
  {
    assert forall i, j :: 0 <= i < j < n ==> IdOf(s[0..n][i]) != IdOf(s[0..n][j]);
    assert forall i, j :: 0 <= i < j < c ==> IdOf(s[0..c][i]) != IdOf(s[0..c][j]);
    PickedIsDistinct(s[0..c], before);
    PickedIsDistinct(s[0..n], after);
    FreshOfNew(IdOf, {}, Picked(s[0..c], before));
    FreshOfNew(IdOf, {}, Picked(s[0..n], after));
    assert s[0..c] <= s[0..n];
    PrefixExactly(s[0..c], s[0..n], before, after);
    if c == n { SameExactly(s[0..c], before, after); }
  }

  // ----- When coming back gives the list that was left ---------------------------------

  /** The restored list starts with the scrolled one if and only if, up to the last entry
      scrolled, nothing listed has been hidden or deleted since and nothing left out has
      become public. */
  lemma RestoreExtendsScroll(server: Server, s: Session, r: Return, size: nat)
    requires Inv(server, s) && Scrolled(s) && s.state.requestedCount <= size
    requires Answers(s, r) && Read(s, r, size).Ok? && DistinctBy(IdOf, s.snapshot)
    ensures s.state.items <= Restored(s, r, Read(s, r, size).value).items
      <==> AgreeOnShown(s.mask, After(s, r, size))
  {
    RestoreShowsItsStretch(server, s, r, size);
    StretchesCompare(s.snapshot, s.state.requestedCount, |After(s, r, size)|, s.mask, After(s, r, size));
  }

  /** With the site's own server, restoring gives the scrolled list and cursor back if and
      only if what is public of the scrolled stretch is what was public as it was scrolled,
      and the read ends there: the saved count is the whole snapshot, or the last batch fits
      its stretch - hidden entries make the server read on. */
  lemma RestoreEqualsScrollExactly(server: Server, s: Session, r: Return)
    requires Inv(server, s) && Scrolled(s) && DistinctBy(IdOf, s.snapshot)
    requires F.OwnServer(r.views, s.snapshot, s.state.feedToken, r.world) && forall k :: !r.world.aborted(k)
    ensures Read(s, r, s.state.requestedCount).Ok?
    ensures
      var restored := Restored(s, r, Read(s, r, s.state.requestedCount).value);
      (restored.items == s.state.items && restored.requestedCount == s.state.requestedCount) <==>
        && s.mask <= After(s, r, s.state.requestedCount)
        && (|| s.state.requestedCount == |s.snapshot|
            || F.LastBatchFits(r.views, s.snapshot, 0, 0, s.state.requestedCount))
  {
    var start, count := F.Cursor(s.state.feedToken, 0), s.state.requestedCount;
    F.OwnRangeEnds(r.views, s.snapshot, r.world, 0, start, count);
    F.OwnServerIsTruthful(r.views, s.snapshot, s.state.feedToken, r.world);
    RestoreShowsItsStretch(server, s, r, count);
    F.RangeEndsWhereAsked(r.views, s.snapshot, 0, 0, count);
    StretchesCompare(s.snapshot, count, |After(s, r, count)|, s.mask, After(s, r, count));
    if |After(s, r, count)| == count { PrefixOfSameLength(s.mask, After(s, r, count)); }
  }

  lemma PrefixOfSameLength(a: seq<bool>, b: seq<bool>)
    requires |a| == |b|
    ensures a <= b <==> a == b
  {
    assert b[..|b|] == b;
  }

  /** While everything is public the range read ends where it was asked to. */
  lemma RestoreOfUntouchedSnapshot(server: Server, s: Session, views: F.Views)
    requires Inv(server, s) && Scrolled(s)
    requires forall n :: AllShown(views(n), s.snapshot)
    ensures F.LastBatchFits(views, s.snapshot, 0, 0, s.state.requestedCount)
      || s.state.requestedCount == |s.snapshot|
  {
    UntouchedRangeEnds(views, s.snapshot, 0, 0, s.state.requestedCount);
    F.RangeEndsWhereAsked(views, s.snapshot, 0, 0, s.state.requestedCount);
  }

  lemma {:induction false} UntouchedRangeEnds(views: F.Views, s: FeedServer.Snapshot, n: nat, position: nat, end: nat)
    requires position < end <= |s| && forall k :: AllShown(views(k), s)
    ensures F.RangeEnd(views, s, n, position, end) == end
    decreases end - position
  {
    var size := F.Size(F.Cursor("", position), end);
    assert AllShown(views(n), s);
    UntouchedBatchEnds(views(n), s, position, size);
    if position + size < end { UntouchedRangeEnds(views, s, n + 1, position + size, end); }
  }

  lemma {:induction false} UntouchedBatchEnds(shown: Video -> bool, s: FeedServer.Snapshot, position: nat, count: nat)
    requires AllShown(shown, s) && position + count <= |s|
    ensures BatchEnd(shown, s, position, count) == position + count
    decreases count
  {
    if 0 < count { UntouchedBatchEnds(shown, s, position + 1, count - 1); }
  }

  /** A visibility that has not changed since the scroll restores the scrolled list, even
      over a snapshot that repeats ids. */
  lemma SteadyRestoreExtends(server: Server, s: Session, r: Return, size: nat, shown: Video -> bool)
    requires Inv(server, s) && Scrolled(s) && s.state.requestedCount <= size
    requires Answers(s, r) && Read(s, r, size).Ok?
    requires s.mask == MaskOf(shown, s.snapshot[..s.state.requestedCount])
    requires (forall n :: r.views(n) == shown) && forall v :: shown(v) ==> r.kept(v)
    ensures s.state.items <= Restored(s, r, Read(s, r, size).value).items
  {
    RestoreShowsItsStretch(server, s, r, size);
    F.SteadyRangeMask(r.views, shown, s.snapshot, r.world, 0, F.Cursor(s.state.feedToken, 0), size);
    var c, after := s.state.requestedCount, After(s, r, size);
    assert after[..c] == s.mask && after == after[..c] + after[c..];
    StretchJoins(s.snapshot, 0, c, |after|, s.mask, after[c..]);
  }

  // ----- Two ways to lose the list -----------------------------------------------------

  /** Three videos, the first of them hidden. */
  const THREE: FeedServer.Snapshot := [Video("a", ""), Video("b", ""), Video("c", "")]

  function FirstHidden(v: Video): bool { v.id != "a" }

  lemma OvershootVisible()
    ensures Visible(FirstHidden, THREE[0..2]) == [THREE[1]]
    ensures Visible(FirstHidden, THREE[0..3]) == [THREE[1], THREE[2]]
  {
    var s := THREE;
    assert s[2..2] == [] && s[3..3] == [];
    VisibleCons(FirstHidden, s, 0, 2);
    VisibleCons(FirstHidden, s, 1, 2);
    VisibleCons(FirstHidden, s, 0, 3);
    VisibleCons(FirstHidden, s, 1, 3);
    VisibleCons(FirstHidden, s, 2, 3);
  }

  /** One hidden entry is enough for the read to go on too far, though nothing changed:
      scrolling one page showed one video, coming back shows two. */
  lemma RestoreCanOvershoot()
    ensures BatchEnd(FirstHidden, THREE, 0, 1) == 2
    ensures Visible(FirstHidden, THREE[0..2]) == [THREE[1]]
    ensures F.RangeEnd(n => FirstHidden, THREE, 0, 0, 2) == 3
    ensures Visible(FirstHidden, THREE[0..3]) == [THREE[1], THREE[2]]
  {
    var s := THREE;
    assert BatchEnd(FirstHidden, s, 1, 1) == 2;
    assert BatchEnd(FirstHidden, s, 1, 2) == BatchEnd(FirstHidden, s, 2, 1) == 3;
    assert F.Size(F.Cursor("", 0), 2) == 2;
    OvershootVisible();
  }

  const TWO: FeedServer.Snapshot := [Video("a", ""), Video("b", "")]

  /** A listing of two videos, both public as they were scrolled. */
  function ScrolledTwo(): Session {
    Session(State("", 1, 2, TWO, 2, "t", 2, true, ReadyStatus, None, 0), TWO, 0, [true, true], 1)
  }

  /** The first has been hidden since; the site's own server answers. */
  function HiddenSince(): Return {
    Return(F.World((n: nat, cursor: F.Cursor, size: nat) => F.ServerReply(FirstHidden, TWO, cursor, size), n => false),
           n => FirstHidden, v => true, 2, 0)
  }

  /** The whole snapshot was scrolled and its range is read to the end, yet the restored
      list does not start with the one that was left: a video hidden in between is gone. */
  lemma HiddenSinceIsLost()
    ensures var s, r := ScrolledTwo(), HiddenSince();
      && Inv(Server(token => TWO), s) && s.state.requestedCount == |s.snapshot|
      && F.OwnServer(r.views, s.snapshot, s.state.feedToken, r.world)
      && Read(s, r, 2).Ok?
      && Restored(s, r, Read(s, r, 2).value).items == [TWO[1]]
      && !(s.state.items <= Restored(s, r, Read(s, r, 2).value).items)
  {
    var s, r := ScrolledTwo(), HiddenSince();
    ScrolledTwoIsReal();
    HiddenSinceAnswers();
    RestoreShowsItsStretch(Server(token => TWO), s, r, 2);
    PickSecond();
  }

  lemma ScrolledTwoIsReal()
    ensures Inv(Server(token => TWO), ScrolledTwo())
  {
    assert TWO[0..2] == TWO && TWO[1..][1..] == [];
    assert [true, true][1..] == [true];
    assert Picked(TWO, [true, true]) == TWO;
    FreshOfNew(IdOf, {}, TWO);
  }

  lemma HiddenSinceAnswers()
    ensures var s, r := ScrolledTwo(), HiddenSince();
      && F.OwnServer(r.views, s.snapshot, s.state.feedToken, r.world) && Answers(s, r)
      && Read(s, r, 2).Ok? && After(s, r, 2) == [false, true]
  {
    var s, r := ScrolledTwo(), HiddenSince();
    F.OwnRangeEnds(r.views, s.snapshot, r.world, 0, F.Cursor("t", 0), 2);
    F.OwnServerIsTruthful(r.views, s.snapshot, "t", r.world);
    F.RangeEndsWhereAsked(r.views, s.snapshot, 0, 0, 2);
    F.SteadyRangeMask(r.views, FirstHidden, TWO, r.world, 0, F.Cursor("t", 0), 2);
  }

  lemma PickSecond()
    ensures Stretch(TWO, 0, 2, [false, true]) == [TWO[1]]
  {
    assert TWO[0..2] == TWO && [false, true][1..] == [true] && [true][1..] == [];
    assert TWO[1..][1..] == [];
    assert Picked(TWO[1..], [true]) == [TWO[1]];
    FreshOfNew(IdOf, {}, [TWO[1]]);
  }

  // ----- The cache -----------------------------------------------------------------------

  /** A cached list that passes the restore check is of the saved snapshot and covers the
      saved progress; it starts with the saved list if and only if their masks agree, as
      they do when it is the list that was left. */
  lemma CacheCoversRestore(server: Server, cached: Session, saved: Session)
    requires Inv(server, cached) && Inv(server, saved) && cached.base == 0 && Scrolled(saved)
    requires CacheMatchesRestore(cached.state.feedToken, cached.state.requestedCount,
                                 saved.state.feedToken, saved.state.requestedCount)
    ensures cached.snapshot == saved.snapshot && saved.state.requestedCount <= cached.state.requestedCount
    ensures DistinctBy(IdOf, saved.snapshot) ==>
      (saved.state.items <= cached.state.items <==> AgreeOnShown(saved.mask, cached.mask))
    ensures saved.mask <= cached.mask ==> saved.state.items <= cached.state.items
  {
    var c, n := saved.state.requestedCount, cached.state.requestedCount;
    if DistinctBy(IdOf, saved.snapshot) { StretchesCompare(saved.snapshot, c, n, saved.mask, cached.mask); }
    if saved.mask <= cached.mask {
      assert cached.mask == saved.mask + cached.mask[c..];
      StretchJoins(saved.snapshot, 0, c, n, saved.mask, cached.mask[c..]);
    }
  }

  // ----- The saved entry ----------------------------------------------------------------

  datatype Entry = Entry(queryKey: string, feedToken: string, requestedCount: int, scrollY: real)

  /** A field of the stored object: numbers are finite, `Odd` is any other value. */
  datatype Field = Absent | Text(text: string) | Number(number: real) | Odd

  datatype Stored = Stored(queryKey: Field, feedToken: Field, requestedCount: Field, scrollY: Field)

  predicate WholeNumber(f: Field) {
    f.Number? && f.number.Floor as real == f.number
  }

  function ParseEntry(raw: Option<Stored>): Option<Entry> {
    if raw.None? then None
    else
      var p := raw.value;
      if || !p.queryKey.Text?
         || (!p.feedToken.Absent? && !p.feedToken.Text?)
         || (p.feedToken.Text? && |p.feedToken.text| > F.MAX_TOKEN)
         || !WholeNumber(p.requestedCount)
         || p.requestedCount.number <= 0.0
         || !p.scrollY.Number?
         || p.scrollY.number < 0.0
      then None
      else Some(Entry(p.queryKey.text, if p.feedToken.Text? then p.feedToken.text else "",
                      p.requestedCount.number.Floor, p.scrollY.number))
  }

  function Written(e: Entry): Stored {
    Stored(Text(e.queryKey), Text(e.feedToken), Number(e.requestedCount as real), Number(e.scrollY))
  }

  predicate Restorable(e: Entry) {
    |e.feedToken| <= F.MAX_TOKEN && 0 < e.requestedCount && 0.0 <= e.scrollY
  }

  /** What was written is read back unless it could not be restored, and whatever
      is read could have been written. */
  lemma {:induction false} EntryRoundTrip(e: Entry, raw: Option<Stored>)
    ensures ParseEntry(Some(Written(e))) == if Restorable(e) then Some(e) else None
    ensures ParseEntry(raw).Some? ==> Restorable(ParseEntry(raw).value)
    ensures ParseEntry(raw).Some? ==> ParseEntry(raw) == ParseEntry(Some(Written(ParseEntry(raw).value)))
  {
    assert (e.requestedCount as real).Floor == e.requestedCount;
  }

  /** 0 asks for an ordinary first page. */
  function ResolveRestoreCount(entry: Option<Entry>, queryKey: string, pageSize: int): int {
    if entry.None? || pageSize <= 0 then 0
    else if entry.value.queryKey != queryKey then 0
    else if entry.value.requestedCount > pageSize then entry.value.requestedCount else 0
  }

  function ResolveRestoreFeedToken(entry: Option<Entry>, queryKey: string): string {
    if entry.None? || entry.value.queryKey != queryKey then "" else entry.value.feedToken
  }

  function InitialRequestSize(restoreCount: int, batchSize: int): int {
    var normalized := if batchSize < 1 then 1 else batchSize;
    if restoreCount <= normalized then normalized else restoreCount
  }

  /** From leaving a listing to coming back: the entry written on leaving, read back and
      resolved for the same query, makes the first request cover all the saved progress
      under the saved token; its response lists what is public of that stretch now, and
      that starts with the list that was left exactly if the two agree on what was shown. */
  lemma LeftListingComesBack(server: Server, s: Session, r: Return, queryKey: string, scrollY: real, pageSize: int)
    requires Inv(server, s) && Scrolled(s) && 0.0 <= scrollY && 0 < pageSize
    requires Answers(s, r) && DistinctBy(IdOf, s.snapshot)
    ensures var entry := ParseEntry(Some(Written(Entry(queryKey, s.state.feedToken, s.state.requestedCount, scrollY))));
      var size := InitialRequestSize(ResolveRestoreCount(entry, queryKey, pageSize), pageSize);
      && ResolveRestoreFeedToken(entry, queryKey) == s.state.feedToken
      && s.state.requestedCount <= size && pageSize <= size
      && (size == s.state.requestedCount || size == pageSize)
      && (Read(s, r, size).Ok? ==>
            var restored := Restored(s, r, Read(s, r, size).value);
            && restored.requestedCount == |After(s, r, size)| <= |s.snapshot|
            && restored.items == Stretch(s.snapshot, 0, restored.requestedCount, After(s, r, size))
            && (s.state.items <= restored.items <==> AgreeOnShown(s.mask, After(s, r, size))))
  {
    var saved := Entry(queryKey, s.state.feedToken, s.state.requestedCount, scrollY);
    EntryRoundTrip(saved, None);
    var size := InitialRequestSize(ResolveRestoreCount(Some(saved), queryKey, pageSize), pageSize);
    if Read(s, r, size).Ok? {
      RestoreShowsItsStretch(server, s, r, size);
      RestoreExtendsScroll(server, s, r, size);
    }
  }

  /** An entry of another query restores nothing. */
  lemma OtherQueriesStartAfresh(entry: Option<Entry>, queryKey: string, pageSize: int)
    requires entry.Some? ==> entry.value.queryKey != queryKey
    ensures ResolveRestoreFeedToken(entry, queryKey) == ""
    ensures InitialRequestSize(ResolveRestoreCount(entry, queryKey, pageSize), pageSize)
      == if pageSize < 1 then 1 else pageSize
  {}
}

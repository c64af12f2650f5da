/** The server half of the feed: immutable snapshots read by token and cursor.
    A batch holds up to `count` entries that are still public; hidden entries are
    skipped and the cursor moves over them. */
module FeedServer {
  const LOOKUP_CHUNK: nat := 32

  datatype Video = Video(id: string, title: string)

  type Snapshot = seq<Video>

  /** The public entries of a stretch, in snapshot order. */
  function Visible(shown: Video -> bool, s: Snapshot): seq<Video> {
    if s == [] then []
    else (if shown(s[0]) then [s[0]] else []) + Visible(shown, s[1..])
  }

  predicate AllShown(shown: Video -> bool, s: Snapshot) {
    forall v :: v in s ==> shown(v)
  }

  lemma {:induction false} VisibleJoins(shown: Video -> bool, a: Snapshot, b: Snapshot)
    ensures Visible(shown, a + b) == Visible(shown, a) + Visible(shown, b)
  {
    if a == [] {
      assert a + b == b;
    } else {
      assert (a + b)[1..] == a[1..] + b;
      VisibleJoins(shown, a[1..], b);
    }
  }

  /** Visible stretches that touch join. */
  lemma VisibleStretches(shown: Video -> bool, s: Snapshot, a: nat, b: nat, c: nat)
    requires a <= b <= c <= |s|
    ensures Visible(shown, s[a..c]) == Visible(shown, s[a..b]) + Visible(shown, s[b..c])
  {
    assert s[a..c] == s[a..b] + s[b..c];
    VisibleJoins(shown, s[a..b], s[b..c]);
  }

  lemma {:induction false} VisibleCount(shown: Video -> bool, s: Snapshot)
    ensures |Visible(shown, s)| <= |s|
    ensures |Visible(shown, s)| == |s| <==> AllShown(shown, s)
    ensures forall v :: v in Visible(shown, s) <==> v in s && shown(v)
  {
    if s != [] {
      VisibleCount(shown, s[1..]);
      assert s == [s[0]] + s[1..];
    }
  }

  /** The entries of a stretch that a mask picks, in order.  A mask says of each position
      whether its entry was public when it was read. */
  function Picked(s: Snapshot, mask: seq<bool>): seq<Video>
    requires |mask| == |s|
  {
    if s == [] then [] else (if mask[0] then [s[0]] else []) + Picked(s[1..], mask[1..])
  }

  function MaskOf(shown: Video -> bool, s: Snapshot): (mask: seq<bool>)
    ensures |mask| == |s|
  {
    seq(|s|, i requires 0 <= i < |s| => shown(s[i]))
  }

  /** What is left of a mask when entries outside `kept` are taken away too. */
  function KeptMask(kept: Video -> bool, s: Snapshot, mask: seq<bool>): (left: seq<bool>)
    requires |mask| == |s|
    ensures |left| == |s|
  {
    seq(|s|, i requires 0 <= i < |s| => mask[i] && kept(s[i]))
  }

  lemma MaskStretches(shown: Video -> bool, s: Snapshot, a: nat, b: nat, c: nat)
    requires a <= b <= c <= |s|
    ensures MaskOf(shown, s[a..c]) == MaskOf(shown, s[a..b]) + MaskOf(shown, s[b..c])
  {
    var whole, parts := MaskOf(shown, s[a..c]), MaskOf(shown, s[a..b]) + MaskOf(shown, s[b..c]);
    forall k | 0 <= k < c - a ensures whole[k] == parts[k] {
      assert whole[k] == shown(s[a + k]);
      assert parts[k] == shown(s[a + k]);
    }
  }

  lemma {:induction false} VisibleIsPicked(shown: Video -> bool, s: Snapshot)
    ensures Visible(shown, s) == Picked(s, MaskOf(shown, s))
  {
    if s != [] {
      VisibleIsPicked(shown, s[1..]);
      assert MaskOf(shown, s)[1..] == MaskOf(shown, s[1..]);
    }
  }

  lemma {:induction false} VisiblePicked(kept: Video -> bool, s: Snapshot, mask: seq<bool>)
    requires |mask| == |s|
    ensures Visible(kept, Picked(s, mask)) == Picked(s, KeptMask(kept, s, mask))
  {
    if s != [] {
      VisiblePicked(kept, s[1..], mask[1..]);
      assert KeptMask(kept, s, mask)[1..] == KeptMask(kept, s[1..], mask[1..]);
      if mask[0] {
        assert Picked(s, mask)[1..] == Picked(s[1..], mask[1..]);
      } else {
        assert Picked(s, mask) == Picked(s[1..], mask[1..]);
      }
    }
  }

  lemma Regroup(a: seq<Video>, b: seq<Video>, c: seq<Video>)
    ensures a + (b + c) == (a + b) + c
  {}

  lemma {:induction false} PickedJoins(a: Snapshot, b: Snapshot, m: seq<bool>, n: seq<bool>)
    requires |m| == |a| && |n| == |b|
    ensures Picked(a + b, m + n) == Picked(a, m) + Picked(b, n)
  {
    if a == [] {
      assert a + b == b && m + n == n;
    } else {
      var head := if m[0] then [a[0]] else [];
      assert Picked(a + b, m + n) == head + Picked(a[1..] + b, m[1..] + n) by {
        assert (a + b)[1..] == a[1..] + b;
        assert (m + n)[1..] == m[1..] + n;
      }
      PickedJoins(a[1..], b, m[1..], n);
      Regroup(head, Picked(a[1..], m[1..]), Picked(b, n));
    }
  }

  /** Picked stretches that touch join. */
  lemma PickedStretches(s: Snapshot, a: nat, b: nat, c: nat, m: seq<bool>, n: seq<bool>)
    requires a <= b <= c <= |s| && |m| == b - a && |n| == c - b
    ensures Picked(s[a..c], m + n) == Picked(s[a..b], m) + Picked(s[b..c], n)
  {
    assert s[a..c] == s[a..b] + s[b..c];
    PickedJoins(s[a..b], s[b..c], m, n);
  }

  /** Where a batch of `count` public entries that starts at `position` ends. */
  function BatchEnd(shown: Video -> bool, s: Snapshot, position: nat, count: nat): (end: nat)
    requires position <= |s|
    ensures position <= end <= |s|
    decreases |s| - position
  {
    if position == |s| || count == 0 then position
    else BatchEnd(shown, s, position + 1, if shown(s[position]) then count - 1 else count)
  }

  lemma BatchAdvances(shown: Video -> bool, s: Snapshot, position: nat, count: nat)
    requires position < |s| && 0 < count
    ensures position < BatchEnd(shown, s, position, count)
  {}

  lemma VisibleCons(shown: Video -> bool, s: Snapshot, a: nat, b: nat)
    requires a < b <= |s|
    ensures Visible(shown, s[a..b]) == (if shown(s[a]) then [s[a]] else []) + Visible(shown, s[a + 1..b])
  {
    assert s[a..b][1..] == s[a + 1..b];
  }

  /** A batch is full unless the snapshot ran out, and a full batch stops at once. */
  lemma {:induction false} BatchHolds(shown: Video -> bool, s: Snapshot, position: nat, count: nat)
    requires position <= |s|
    ensures var end := BatchEnd(shown, s, position, count);
      && |Visible(shown, s[position..end])| <= count
      && (end < |s| ==> |Visible(shown, s[position..end])| == count)
      && (0 < count && position < |s| ==> position < end)
      && (0 < count && |Visible(shown, s[position..end])| == count ==> position < end && shown(s[end - 1]))
    decreases |s| - position
  {
    var end := BatchEnd(shown, s, position, count);
    if position == |s| || count == 0 {
      assert s[position..end] == [];
    } else {
      var left := if shown(s[position]) then count - 1 else count;
      BatchHolds(shown, s, position + 1, left);
      VisibleCons(shown, s, position, end);
      if left == 0 { assert end == position + 1; }
    }
  }

  /** The handler's two loops: the catalog is asked about a chunk of ids at a time,
      the batch is filled from the answer. */
  method LoadVisibleBatch(shown: Video -> bool, s: Snapshot, position: nat, count: nat)
    returns (videos: seq<Video>, cursor: nat)
    requires position <= |s|
    ensures cursor == BatchEnd(shown, s, position, count)
    ensures videos == Visible(shown, s[position..cursor])
  {
    videos, cursor := [], position;
    assert s[position..position] == [];
    var lookupSize := if count > LOOKUP_CHUNK then count else LOOKUP_CHUNK;
    while cursor < |s| && |videos| < count
      invariant position <= cursor <= |s| && |videos| <= count
      invariant videos == Visible(shown, s[position..cursor])
      invariant BatchEnd(shown, s, position, count) == BatchEnd(shown, s, cursor, count - |videos|)
      decreases |s| - cursor
    {
      var end := if cursor + lookupSize > |s| then |s| else cursor + lookupSize;
      ghost var before := cursor;
      while cursor < end && |videos| < count
        invariant before <= cursor <= end && |videos| <= count
        invariant cursor == before ==> |videos| < count
        invariant videos == Visible(shown, s[position..cursor])
        invariant BatchEnd(shown, s, position, count) == BatchEnd(shown, s, cursor, count - |videos|)
      {
        VisibleStretches(shown, s, position, cursor, cursor + 1);
        VisibleCons(shown, s, cursor, cursor + 1);
        assert s[cursor + 1..cursor + 1] == [];
        var video := s[cursor];
        cursor := cursor + 1;
        if shown(video) { videos := videos + [video]; }
      }
    }
  }
}

/** The navigation recorder against the browser's own history stack. */
module NavigationHistory {
  import opened Wrappers

  datatype Action = Pop | Push | Replace

  /** The browser: its entries, and the one it is showing. */
  datatype Browser = Browser(entries: seq<string>, at: nat)

  predicate WellFormed(b: Browser) {
    b.at < |b.entries| && forall i, j :: 0 <= i < j < |b.entries| ==> b.entries[i] != b.entries[j]
  }

  /** A committed transition.  Pushing drops the entries ahead; a pop moves to any
      entry; `Settle` is a router update that leaves the location alone and still
      carries the action of the last navigation. */
  datatype Transition = PushTo(key: string) | ReplaceBy(key: string) | MoveTo(index: nat) | Settle(action: Action)

  predicate Possible(b: Browser, t: Transition) {
    match t
    case PushTo(key) => key !in b.entries
    case ReplaceBy(key) => key !in b.entries
    case MoveTo(index) => index < |b.entries|
    case Settle(_) => true
  }

  /** The browser after a push. */
  function Pushed(b: Browser, key: string): Browser
    requires b.at < |b.entries|
  {
    Browser(b.entries[..b.at + 1] + [key], b.at + 1)
  }

  function Next(b: Browser, t: Transition): Browser
    requires WellFormed(b) && Possible(b, t)
  {
    match t
    case PushTo(key) => Pushed(b, key)
    case ReplaceBy(key) => b.(entries := b.entries[b.at := key])
    case MoveTo(index) => b.(at := index)
    case Settle(_) => b
  }

  function ActionOf(t: Transition): Action {
    match t
    case PushTo(_) => Push
    case ReplaceBy(_) => Replace
    case MoveTo(_) => Pop
    case Settle(action) => action
  }

  function CurrentKey(b: Browser): string
    requires WellFormed(b)
  {
    b.entries[b.at]
  }

  lemma NextIsWellFormed(b: Browser, t: Transition)
    requires WellFormed(b) && Possible(b, t)
    ensures WellFormed(Next(b, t))
  {}

  function IndexFrom(s: seq<string>, key: string, from: nat): (i: int)
    requires from <= |s|
    ensures i == -1 || (from <= i < |s| && s[i] == key && forall k :: from <= k < i ==> s[k] != key)
    ensures i == -1 ==> forall k :: from <= k < |s| ==> s[k] != key
    decreases |s| - from
  {
    if from == |s| then -1 else if s[from] == key then from else IndexFrom(s, key, from + 1)
  }

  function IndexOf(s: seq<string>, key: string): int {
    IndexFrom(s, key, 0)
  }

  /** The recorded keys are a contiguous piece of the browser's stack, and the
      recorder's index stands on the entry the browser shows. */
  predicate IsSegment(keys: seq<string>, index: int, b: Browser) {
    && 0 <= index < |keys|
    && index <= b.at && b.at - index + |keys| <= |b.entries|
    && keys == b.entries[b.at - index..b.at - index + |keys|]
  }

  class NavigationHistory {
    var keys: seq<string>
    var index: int

    predicate Valid()
      reads this
    {
      (index == -1 && keys == []) || 0 <= index < |keys|
    }

    constructor ()
      ensures Valid() && keys == [] && index == -1
    {
      keys, index := [], -1;
    }

    predicate IsCurrent(key: string)
      requires Valid()
      reads this
    {
      0 <= index && keys[index] == key
    }

    method Record(key: string, action: Action)
      requires Valid()
      modifies this
      ensures Valid() && IsCurrent(key)
      ensures (keys, index) == Recorded(old(keys), old(index), key, action)
    {
      if 0 <= index && keys[index] == key { return; }
      if action == Pop {
        var known := IndexOf(keys, key);
        if known >= 0 {
          index := known;
          return;
        }
        keys := [key];
        index := 0;
      } else if action == Replace && index >= 0 {
        keys := keys[index := key];
      } else {
        keys := keys[..index + 1] + [key];
        index := index + 1;
      }
    }

    function BackDelta(currentKey: string, targetKey: string): (delta: Option<int>)
      requires Valid()
      reads this
      ensures delta.Some? <==> IsCurrent(currentKey) && targetKey in keys[..index]
      ensures delta.Some? ==> -index <= delta.value < 0 && keys[index + delta.value] == targetKey
    {
      if !IsCurrent(currentKey) then None
      else
        var target := IndexOf(keys, targetKey);
        if 0 <= target < index then
          assert keys[..index][target] == targetKey;
          Some(target - index)
        else
          assert targetKey in keys[..index] ==> 0 <= target;
          None
    }

    predicate CanGoBack(key: string)
      requires Valid()
      reads this
    {
      IsCurrent(key) && index > 0
    }

    /** A delta that is offered moves the browser exactly onto the target. */
    lemma {:induction false} BackDeltaLandsOnTarget(b: Browser, currentKey: string, targetKey: string)
      requires Valid() && WellFormed(b) && IsSegment(keys, index, b)
      requires BackDelta(currentKey, targetKey).Some?
      ensures var d := BackDelta(currentKey, targetKey).value;
        && CurrentKey(b) == currentKey
        && 0 <= b.at + d < b.at && Possible(b, MoveTo(b.at + d))
        && CurrentKey(Next(b, MoveTo(b.at + d))) == targetKey
    {
      var d := BackDelta(currentKey, targetKey).value;
      assert keys[index] == b.entries[b.at];
      assert keys[index + d] == b.entries[b.at + d];
    }

    /** Every recorded entry behind the current one can be gone back to, and no other; and
        going back is offered exactly past the first position recorded. */
    lemma {:induction false} EverythingKnownIsReachable(b: Browser, piece: Piece, target: nat)
      requires Valid() && WellFormed(b) && Knows(keys, index, b, piece) && target < b.at
      ensures BackDelta(CurrentKey(b), b.entries[target]) == if piece.low <= target then Some(target - b.at) else None
      ensures CanGoBack(CurrentKey(b)) <==> piece.low < b.at
    {
      KnowsIsSegment(keys, index, b, piece);
      BackDeltaMissesOnlyTheUnseen(b, target);
    }

    /** Going back is offered only where the browser has a predecessor, and that
        predecessor is one the recorder saw. */
    lemma {:induction false} CanGoBackHasPredecessor(b: Browser, key: string)
      requires Valid() && WellFormed(b) && IsSegment(keys, index, b)
      requires CanGoBack(key)
      ensures CurrentKey(b) == key && 0 < b.at && b.entries[b.at - 1] == keys[index - 1]
    {
      assert keys[index] == b.entries[b.at];
    }

    /** No false alarms: an entry behind the current one is out of reach exactly when
        the recorder never saw it or lost sight of it. */
    lemma {:induction false} BackDeltaMissesOnlyTheUnseen(b: Browser, target: nat)
      requires Valid() && WellFormed(b) && IsSegment(keys, index, b) && target < b.at
      ensures BackDelta(CurrentKey(b), b.entries[target]) ==
        if b.at - index <= target then Some(target - b.at) else None
    {
      SeenBehind(keys, index, b, target);
      assert keys[index] == b.entries[b.at];
      var delta := BackDelta(CurrentKey(b), b.entries[target]);
      if delta.Some? {
        assert keys[index + delta.value] == b.entries[b.at + delta.value];
        SameEntry(b, b.at + delta.value, target);
      }
    }
  }

  lemma SeenBehind(keys: seq<string>, index: int, b: Browser, target: nat)
    requires WellFormed(b) && IsSegment(keys, index, b) && target < b.at
    ensures b.entries[target] in keys[..index] <==> b.at - index <= target
  {
    var low := b.at - index;
    if low <= target {
      assert keys[..index][target - low] == b.entries[target];
    }
    forall k | 0 <= k < index && keys[..index][k] == b.entries[target] ensures low <= target {
      assert keys[k] == b.entries[low + k];
      SameEntry(b, low + k, target);
    }
  }

  function Recorded(keys: seq<string>, index: int, key: string, action: Action): (seq<string>, int)
    requires (index == -1 && keys == []) || 0 <= index < |keys|
  {
    if 0 <= index && keys[index] == key then (keys, index)
    else if action == Pop then
      if IndexOf(keys, key) >= 0 then (keys, IndexOf(keys, key)) else ([key], 0)
    else if action == Replace && index >= 0 then (keys[index := key], index)
    else (keys[..index + 1] + [key], index + 1)
  }

  /** The first thing recorded is a piece of any stack that shows it. */
  lemma FirstRecordIsSegment(b: Browser, action: Action)
    requires WellFormed(b)
    ensures var (keys, index) := Recorded([], -1, CurrentKey(b), action); IsSegment(keys, index, b)
  {}

  lemma SameEntry(b: Browser, i: nat, j: nat)
    requires WellFormed(b) && i < |b.entries| && j < |b.entries| && b.entries[i] == b.entries[j]
    ensures i == j
  {}

  lemma KnownIsWhereItWas(keys: seq<string>, index: int, b: Browser, target: nat)
    requires WellFormed(b) && target < |b.entries| && IsSegment(keys, index, b)
    ensures keys[index] == b.entries[target] ==> b.at == target
    ensures var known := IndexOf(keys, b.entries[target]); 0 <= known ==> b.at - index + known == target
  {
    assert keys[index] == b.entries[b.at];
    if keys[index] == b.entries[target] { SameEntry(b, b.at, target); }
    var known := IndexOf(keys, b.entries[target]);
    if 0 <= known {
      assert keys[known] == b.entries[b.at - index + known];
      SameEntry(b, b.at - index + known, target);
    }
  }

  // ----- What is kept ------------------------------------------------------------------------

  /** The piece of the stack a recorder can know of, by its first position and its size.  A
      push extends it to the new top, a replacement and a move within leave it, and only a
      move to an entry outside makes it start over there. */
  datatype Piece = Piece(low: nat, size: nat)

  predicate Holds(piece: Piece, position: nat) {
    piece.low <= position < piece.low + piece.size
  }

  function NextPiece(piece: Piece, b: Browser, t: Transition): Piece {
    match t
    case PushTo(_) => if piece.low <= b.at + 1 then piece.(size := b.at + 2 - piece.low) else piece
    case ReplaceBy(_) => piece
    case MoveTo(target) => if Holds(piece, target) then piece else Piece(target, 1)
    case Settle(_) => piece
  }

  /** The recorder knows this piece, key by key, and stands where the browser does. */
  predicate Knows(keys: seq<string>, index: int, b: Browser, piece: Piece) {
    && Holds(piece, b.at) && piece.low + piece.size <= |b.entries|
    && keys == b.entries[piece.low..piece.low + piece.size]
    && index == b.at - piece.low
  }

  lemma KnowsIsSegment(keys: seq<string>, index: int, b: Browser, piece: Piece)
    requires Knows(keys, index, b, piece)
    ensures IsSegment(keys, index, b) && keys[index] == b.entries[b.at]
  {}

  lemma PushTracksPiece(keys: seq<string>, index: int, b: Browser, piece: Piece, key: string)
    requires b.at < |b.entries| && key !in b.entries && Knows(keys, index, b, piece)
    ensures var (keys', index') := Recorded(keys, index, key, Push);
      Knows(keys', index', Pushed(b, key), piece.(size := b.at + 2 - piece.low))
  {
    KnowsIsSegment(keys, index, b, piece);
    assert keys[index] in b.entries;
    var stack := b.entries[..b.at + 1] + [key];
    assert stack[piece.low..b.at + 2] == b.entries[piece.low..b.at + 1] + [key];
    assert keys[..index + 1] == b.entries[piece.low..b.at + 1];
  }

  lemma ReplaceTracksPiece(keys: seq<string>, index: int, b: Browser, piece: Piece, key: string)
    requires b.at < |b.entries| && key !in b.entries && Knows(keys, index, b, piece)
    ensures var (keys', index') := Recorded(keys, index, key, Replace);
      Knows(keys', index', b.(entries := b.entries[b.at := key]), piece)
  {
    KnowsIsSegment(keys, index, b, piece);
    assert keys[index] in b.entries;
    assert b.entries[b.at := key][piece.low..piece.low + piece.size] == keys[index := key];
  }

  lemma MoveTracksPiece(keys: seq<string>, index: int, b: Browser, piece: Piece, target: nat)
    requires WellFormed(b) && target < |b.entries| && Knows(keys, index, b, piece)
    ensures var (keys', index') := Recorded(keys, index, b.entries[target], Pop);
      Knows(keys', index', b.(at := target), if Holds(piece, target) then piece else Piece(target, 1))
  {
    KnowsIsSegment(keys, index, b, piece);
    KnownIsWhereItWas(keys, index, b, target);
    if Holds(piece, target) { assert keys[target - piece.low] == b.entries[target]; }
    assert b.entries[target..target + 1] == [b.entries[target]];
  }

  lemma {:induction false} RecordTracksPiece(keys: seq<string>, index: int, b: Browser, piece: Piece, t: Transition)
    requires WellFormed(b) && Possible(b, t) && Knows(keys, index, b, piece)
    ensures WellFormed(Next(b, t))
    ensures var (keys', index') := Recorded(keys, index, CurrentKey(Next(b, t)), ActionOf(t));
      Knows(keys', index', Next(b, t), NextPiece(piece, b, t))
  {
    NextIsWellFormed(b, t);
    KnowsIsSegment(keys, index, b, piece);
    match t
    case PushTo(key) => PushTracksPiece(keys, index, b, piece, key);
    case ReplaceBy(key) => ReplaceTracksPiece(keys, index, b, piece, key);
    case MoveTo(target) => MoveTracksPiece(keys, index, b, piece, target);
    case Settle(_) =>
  }

  /** Recording each committed transition keeps the keys a piece of the stack. */
  lemma {:induction false} RecordKeepsSegment(keys: seq<string>, index: int, b: Browser, t: Transition)
    requires WellFormed(b) && Possible(b, t) && IsSegment(keys, index, b)
    ensures WellFormed(Next(b, t))
    ensures var (keys', index') := Recorded(keys, index, CurrentKey(Next(b, t)), ActionOf(t));
      IsSegment(keys', index', Next(b, t))
  {
    var piece := Piece(b.at - index, |keys|);
    var (keys', index') := Recorded(keys, index, CurrentKey(Next(b, t)), ActionOf(t));
    RecordTracksPiece(keys, index, b, piece, t);
    KnowsIsSegment(keys', index', Next(b, t), NextPiece(piece, b, t));
  }

  function PieceAfter(piece: Piece, b: Browser, ts: seq<Transition>): Piece
    requires WellFormed(b) && PossibleRun(b, ts)
  {
    if ts == [] then piece
    else
      var front := ts[..|ts| - 1];
      NextPiece(PieceAfter(piece, b, front), BrowserAfter(b, front), ts[|ts| - 1])
  }

  /** No transition of the run moves to an entry outside what was recorded by then. */
  predicate StaysWithin(piece: Piece, b: Browser, ts: seq<Transition>)
    requires WellFormed(b) && PossibleRun(b, ts)
  {
    ts == [] ||
    (var front := ts[..|ts| - 1];
     && StaysWithin(piece, b, front)
     && (ts[|ts| - 1].MoveTo? ==> Holds(PieceAfter(piece, b, front), ts[|ts| - 1].index)))
  }

  /** Until such a move nothing recorded is forgotten: the piece still starts where it did. */
  lemma {:induction false} NothingIsForgotten(piece: Piece, b: Browser, ts: seq<Transition>)
    requires WellFormed(b) && PossibleRun(b, ts) && StaysWithin(piece, b, ts)
    ensures PieceAfter(piece, b, ts).low == piece.low
  {
    if ts != [] { NothingIsForgotten(piece, b, ts[..|ts| - 1]); }
  }

  lemma {:induction false} PieceAfterRun(keys: seq<string>, index: int, b: Browser, piece: Piece, ts: seq<Transition>)
    requires WellFormed(b) && PossibleRun(b, ts) && Knows(keys, index, b, piece)
    ensures 0 <= index < |keys|
    ensures Knows(RecordedRun(keys, index, b, ts).0, RecordedRun(keys, index, b, ts).1,
                  BrowserAfter(b, ts), PieceAfter(piece, b, ts))
  {
    KnowsIsSegment(keys, index, b, piece);
    if ts != [] {
      var front := ts[..|ts| - 1];
      PieceAfterRun(keys, index, b, piece, front);
      var (k, i) := RecordedRun(keys, index, b, front);
      RecordTracksPiece(k, i, BrowserAfter(b, front), PieceAfter(piece, b, front), ts[|ts| - 1]);
    }
  }

  function BrowserAfter(b: Browser, ts: seq<Transition>): Browser
    requires WellFormed(b) && PossibleRun(b, ts)
    ensures WellFormed(BrowserAfter(b, ts))
    decreases |ts|, 1
  {
    if ts == [] then b
    else
      NextIsWellFormed(BrowserAfter(b, ts[..|ts| - 1]), ts[|ts| - 1]);
      Next(BrowserAfter(b, ts[..|ts| - 1]), ts[|ts| - 1])
  }

  predicate PossibleRun(b: Browser, ts: seq<Transition>)
    requires WellFormed(b)
    decreases |ts|, 0
  {
    ts == [] || (PossibleRun(b, ts[..|ts| - 1]) && Possible(BrowserAfter(b, ts[..|ts| - 1]), ts[|ts| - 1]))
  }

  /** The recorder subscribed to a router: it records the location it finds, then every
      committed transition. */
  method Observe(b: Browser, action: Action, ts: seq<Transition>) returns (history: NavigationHistory)
    requires WellFormed(b) && PossibleRun(b, ts)
    ensures fresh(history) && history.Valid()
    ensures Knows(history.keys, history.index, BrowserAfter(b, ts), PieceAfter(Piece(b.at, 1), b, ts))
    ensures IsSegment(history.keys, history.index, BrowserAfter(b, ts))
  {
    history := new NavigationHistory();
    history.Record(CurrentKey(b), action);
    assert b.entries[b.at..b.at + 1] == [b.entries[b.at]];
    assert ts[..0] == [];
    PossiblePrefix(b, ts, 0);
    for i := 0 to |ts|
      invariant fresh(history) && history.Valid()
      invariant PossibleRun(b, ts[..i])
      invariant Knows(history.keys, history.index, BrowserAfter(b, ts[..i]), PieceAfter(Piece(b.at, 1), b, ts[..i]))
    {
      PossiblePrefix(b, ts, i + 1);
      assert ts[..i + 1][..i] == ts[..i];
      ghost var piece := PieceAfter(Piece(b.at, 1), b, ts[..i]);
      RecordTracksPiece(history.keys, history.index, BrowserAfter(b, ts[..i]), piece, ts[i]);
      history.Record(CurrentKey(Next(BrowserAfter(b, ts[..i]), ts[i])), ActionOf(ts[i]));
    }
    assert ts[..|ts|] == ts;
    KnowsIsSegment(history.keys, history.index, BrowserAfter(b, ts), PieceAfter(Piece(b.at, 1), b, ts));
  }

  lemma {:induction false} PossiblePrefix(b: Browser, ts: seq<Transition>, n: nat)
    requires WellFormed(b) && PossibleRun(b, ts) && n <= |ts|
    ensures PossibleRun(b, ts[..n])
  {
    if n < |ts| {
      PossiblePrefix(b, ts[..|ts| - 1], n);
      assert ts[..|ts| - 1][..n] == ts[..n];
    } else {
      assert ts[..n] == ts;
    }
  }

  /** Whatever the user did, a delta offered afterwards is right. */
  lemma {:induction false} SegmentAfterRun(keys: seq<string>, index: int, b: Browser, ts: seq<Transition>)
    requires WellFormed(b) && PossibleRun(b, ts) && IsSegment(keys, index, b)
    ensures IsSegment(RecordedRun(keys, index, b, ts).0, RecordedRun(keys, index, b, ts).1, BrowserAfter(b, ts))
  {
    if ts != [] {
      var head, last := ts[..|ts| - 1], ts[|ts| - 1];
      SegmentAfterRun(keys, index, b, head);
      var (k, i) := RecordedRun(keys, index, b, head);
      RecordKeepsSegment(k, i, BrowserAfter(b, head), last);
    }
  }

  function RecordedRun(keys: seq<string>, index: int, b: Browser, ts: seq<Transition>): (r: (seq<string>, int))
    requires WellFormed(b) && PossibleRun(b, ts) && 0 <= index < |keys|
    ensures 0 <= r.1 < |r.0|
  {
    if ts == [] then (keys, index)
    else
      var (k, i) := RecordedRun(keys, index, b, ts[..|ts| - 1]);
      Recorded(k, i, CurrentKey(BrowserAfter(b, ts)), ActionOf(ts[|ts| - 1]))
  }
}

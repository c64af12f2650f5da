/** Width-bounded truncation.  A text is its code points. */
module SubtitleText {
  type CodePoint = c: nat | c < 0x110000

  type Text = seq<CodePoint>

  const ELLIPSIS: CodePoint := 0x2026

  function CharWidth(code: CodePoint): (w: nat)
    ensures 1 <= w <= 2
  {
    if || 0x1100 <= code <= 0x115f
       || 0x2e80 <= code <= 0xa4cf
       || 0xac00 <= code <= 0xd7a3
       || 0xf900 <= code <= 0xfaff
       || 0xfe30 <= code <= 0xfe6f
       || 0xff00 <= code <= 0xff60
       || 0xffe0 <= code <= 0xffe6
       || 0x1f300 <= code
    then 2 else 1
  }

  /** The blocks whose characters take two columns: Hangul jamo, CJK and kana, Hangul
      syllables, CJK compatibility, vertical and small forms, full-width forms and signs,
      and pictographs. */
  const WIDE: seq<(nat, nat)> := [
    (0x1100, 0x115f), (0x2e80, 0xa4cf), (0xac00, 0xd7a3), (0xf900, 0xfaff), (0xfe30, 0xfe6f),
    (0xff00, 0xff60), (0xffe0, 0xffe6), (0x1f300, 0x10ffff)]

  /** One column or two, by block; so Latin, Greek and Cyrillic text and half-width kana take
      one column a character, Chinese, Japanese and Korean text and pictographs two. */
  lemma WidthByBlock(code: CodePoint)
    ensures CharWidth(code) == 2 <==> exists i :: 0 <= i < |WIDE| && WIDE[i].0 <= code <= WIDE[i].1
    ensures code < 0x1100 || 0xff61 <= code <= 0xffdf ==> CharWidth(code) == 1
    ensures 0x3040 <= code <= 0x30ff || 0x4e00 <= code <= 0x9fff || 0x1f600 <= code <= 0x1f64f ==> CharWidth(code) == 2
  {
    if CharWidth(code) == 2 {
      assert WIDE[0].0 <= code <= WIDE[0].1 || WIDE[1].0 <= code <= WIDE[1].1 || WIDE[2].0 <= code <= WIDE[2].1
        || WIDE[3].0 <= code <= WIDE[3].1 || WIDE[4].0 <= code <= WIDE[4].1 || WIDE[5].0 <= code <= WIDE[5].1
        || WIDE[6].0 <= code <= WIDE[6].1 || WIDE[7].0 <= code <= WIDE[7].1;
    }
  }

  function Width(text: Text): nat {
    if text == [] then 0 else CharWidth(text[0]) + Width(text[1..])
  }

  lemma {:induction false} WidthJoins(a: Text, b: Text)
    ensures Width(a + b) == Width(a) + Width(b)
  {
    if a == [] {
      assert a + b == b;
    } else {
      assert (a + b)[1..] == a[1..] + b;
      WidthJoins(a[1..], b);
    }
  }

  lemma {:induction false} WidthBounds(text: Text)
    ensures |text| <= Width(text) <= 2 * |text|
  {
    if text != [] { WidthBounds(text[1..]); }
  }

  lemma WidthSnoc(text: Text, i: nat)
    requires i < |text|
    ensures Width(text[..i + 1]) == Width(text[..i]) + CharWidth(text[i])
  {
    assert text[..i + 1] == text[..i] + [text[i]];
    WidthJoins(text[..i], [text[i]]);
    assert [text[i]][1..] == [];
  }

  /** A longer prefix is strictly wider. */
  lemma PrefixesWiden(text: Text, i: nat, j: nat)
    requires i < j <= |text|
    ensures Width(text[..i]) < Width(text[..j])
  {
    assert text[..j] == text[..i] + text[i..j];
    WidthJoins(text[..i], text[i..j]);
    WidthBounds(text[i..j]);
  }

  method DisplayWidth(text: Text) returns (width: nat)
    ensures width == Width(text)
  {
    width := 0;
    for i := 0 to |text|
      invariant width == Width(text[..i])
    {
      WidthSnoc(text, i);
      width := width + CharWidth(text[i]);
    }
    assert text[..|text|] == text;
  }

  /** The longest prefix that fits. */
  ghost predicate IsHead(text: Text, budget: int, head: Text) {
    && head <= text
    && (head != [] ==> Width(head) <= budget)
    && forall n: nat :: |head| < n <= |text| ==> Width(text[..n]) > budget
  }

  /** The longest suffix that fits. */
  ghost predicate IsTail(text: Text, budget: int, tail: Text) {
    && |tail| <= |text| && tail == text[|text| - |tail|..]
    && (tail != [] ==> Width(tail) <= budget)
    && forall n: nat :: n < |text| - |tail| ==> Width(text[n..]) > budget
  }

  method TakeWidth(text: Text, maxWidth: int) returns (head: Text)
    ensures IsHead(text, maxWidth, head)
  {
    var width := 0;
    head := [];
    for i := 0 to |text|
      invariant head == text[..i] && width == Width(head)
      invariant head != [] ==> width <= maxWidth
    {
      WidthSnoc(text, i);
      var next := width + CharWidth(text[i]);
      if next > maxWidth {
        forall n: nat | i < n <= |text| ensures Width(text[..n]) > maxWidth {
          if i + 1 < n { PrefixesWiden(text, i + 1, n); }
        }
        return;
      }
      head := head + [text[i]];
      width := next;
    }
  }

  method TakeWidthFromEnd(text: Text, maxWidth: int) returns (tail: Text)
    ensures IsTail(text, maxWidth, tail)
  {
    var width := 0;
    tail := [];
    var i := |text|;
    while i > 0
      invariant 0 <= i <= |text| && tail == text[i..] && width == Width(tail)
      invariant tail != [] ==> width <= maxWidth
    {
      assert text[i - 1..][1..] == text[i..] && text[i - 1..] == [text[i - 1]] + tail;
      var next := width + CharWidth(text[i - 1]);
      if next > maxWidth {
        forall n: nat | n < i ensures Width(text[n..]) > maxWidth {
          assert text[n..] == text[n..i - 1] + text[i - 1..];
          WidthJoins(text[n..i - 1], text[i - 1..]);
        }
        return;
      }
      tail := [text[i - 1]] + tail;
      width := next;
      i := i - 1;
    }
  }

  function Max(a: int, b: int): int { if a > b then a else b }

  /** ceil(n / 2) for a budget that is not negative. */
  function HalfUp(n: nat): nat { (n + 1) / 2 }

  /** What cutting the middle out of a text means. */
  ghost predicate IsMiddleCut(text: Text, maxWidth: int, result: Text) {
    if Width(text) <= maxWidth then result == text
    else
      exists head: Text, tail: Text :: MiddleParts(text, maxWidth, result, head, tail)
  }

  ghost predicate MiddleParts(text: Text, maxWidth: int, result: Text, head: Text, tail: Text) {
    var budget := Max(0, maxWidth - 1);
    && result == head + [ELLIPSIS] + tail
    && IsHead(text, HalfUp(budget), head)
    && IsTail(text, budget - Width(head), tail)
  }

  ghost predicate IsEndCut(text: Text, maxWidth: int, result: Text) {
    if Width(text) <= maxWidth then result == text
    else exists head: Text :: EndPart(text, maxWidth, result, head)
  }

  ghost predicate EndPart(text: Text, maxWidth: int, result: Text, head: Text) {
    result == head + [ELLIPSIS] && IsHead(text, Max(0, maxWidth - 1), head)
  }

  method TruncateMiddle(text: Text, maxWidth: int) returns (result: Text)
    ensures IsMiddleCut(text, maxWidth, result)
  {
    var width := DisplayWidth(text);
    if width <= maxWidth { return text; }
    var budget := Max(0, maxWidth - 1);
    var head := TakeWidth(text, HalfUp(budget));
    var used := DisplayWidth(head);
    var tail := TakeWidthFromEnd(text, budget - used);
    result := head + [ELLIPSIS] + tail;
    assert MiddleParts(text, maxWidth, result, head, tail);
  }

  method TruncateEnd(text: Text, maxWidth: int) returns (result: Text)
    ensures IsEndCut(text, maxWidth, result)
  {
    var width := DisplayWidth(text);
    if width <= maxWidth { return text; }
    var head := TakeWidth(text, Max(0, maxWidth - 1));
    result := head + [ELLIPSIS];
    assert EndPart(text, maxWidth, result, head);
  }

  // ----- What the cuts guarantee -----------------------------------------------------

  lemma {:induction false} HeadsAreUnique(text: Text, budget: int, a: Text, b: Text)
    requires IsHead(text, budget, a) && IsHead(text, budget, b)
    ensures a == b
  {
    assert a == text[..|a|] && b == text[..|b|];
  }

  lemma TailsAreUnique(text: Text, budget: int, a: Text, b: Text)
    requires IsTail(text, budget, a) && IsTail(text, budget, b)
    ensures a == b
  {
    assert a == text[|text| - |a|..] && b == text[|text| - |b|..];
  }

  /** The description leaves exactly one result. */
  lemma MiddleCutIsUnique(text: Text, maxWidth: int, a: Text, b: Text)
    requires IsMiddleCut(text, maxWidth, a) && IsMiddleCut(text, maxWidth, b)
    ensures a == b
  {
    if Width(text) > maxWidth {
      var budget := Max(0, maxWidth - 1);
      var h1, t1 :| MiddleParts(text, maxWidth, a, h1, t1);
      var h2, t2 :| MiddleParts(text, maxWidth, b, h2, t2);
      HeadsAreUnique(text, HalfUp(budget), h1, h2);
      TailsAreUnique(text, budget - Width(h1), t1, t2);
    }
  }

  lemma PartsFit(text: Text, maxWidth: int, result: Text, head: Text, tail: Text)
    requires Width(text) > maxWidth && MiddleParts(text, maxWidth, result, head, tail)
    ensures Width(head) + Width(tail) <= Max(0, maxWidth - 1)
    ensures Width(result) == Width(head) + 1 + Width(tail)
  {
    WidthJoins(head, [ELLIPSIS]);
    WidthJoins(head + [ELLIPSIS], tail);
    assert [ELLIPSIS][1..] == [];
    assert Width([ELLIPSIS]) == 1;
  }

  lemma PartsLeaveAGap(text: Text, h: nat, t: nat)
    requires h <= |text| && t <= |text| && Width(text[..h]) + Width(text[t..]) < Width(text)
    ensures h < t
  {
    assert text == text[..t] + text[t..];
    WidthJoins(text[..t], text[t..]);
    if t < h { PrefixesWiden(text, t, h); }
  }

  lemma PartsDoNotMeet(text: Text, maxWidth: int, result: Text, head: Text, tail: Text)
    requires 1 <= maxWidth < Width(text) && MiddleParts(text, maxWidth, result, head, tail)
    ensures |head| + |tail| < |text|
  {
    PartsFit(text, maxWidth, result, head, tail);
    assert head == text[..|head|];
    PartsLeaveAGap(text, |head|, |text| - |tail|);
  }

  /** A cut keeps to its width exactly if there is room for the ellipsis or nothing
      had to be cut; what it keeps is a prefix and a suffix that do not overlap, so
      something really was cut out. */
  lemma {:induction false} MiddleCutFits(text: Text, maxWidth: int, result: Text)
    requires IsMiddleCut(text, maxWidth, result)
    ensures Width(result) <= maxWidth <==> 1 <= maxWidth || Width(text) <= maxWidth
    ensures 1 <= maxWidth < Width(text) ==> exists head: Text, tail: Text ::
      MiddleParts(text, maxWidth, result, head, tail) && |head| + |tail| < |text|
  {
    if Width(text) > maxWidth {
      var head, tail :| MiddleParts(text, maxWidth, result, head, tail);
      PartsFit(text, maxWidth, result, head, tail);
      if 1 <= maxWidth { PartsDoNotMeet(text, maxWidth, result, head, tail); }
    }
  }

  lemma {:induction false} EndCutFits(text: Text, maxWidth: int, result: Text)
    requires IsEndCut(text, maxWidth, result)
    ensures Width(result) <= maxWidth <==> 1 <= maxWidth || Width(text) <= maxWidth
  {
    if Width(text) > maxWidth {
      var head :| EndPart(text, maxWidth, result, head);
      WidthJoins(head, [ELLIPSIS]);
      assert [ELLIPSIS][1..] == [];
    }
  }

  /** Every character takes one column. */
  predicate Narrow(text: Text) {
    forall i :: 0 <= i < |text| ==> CharWidth(text[i]) == 1
  }

  lemma {:induction false} NarrowWidth(text: Text)
    requires Narrow(text)
    ensures Width(text) == |text|
  {
    if text != [] { NarrowWidth(text[1..]); }
  }

  lemma NarrowHead(text: Text, budget: nat, head: Text)
    requires Narrow(text) && budget <= |text| && IsHead(text, budget, head)
    ensures head == text[..budget]
  {
    NarrowWidth(text[..budget]);
    NarrowWidth(text[..|head|]);
    assert head == text[..|head|];
  }

  lemma NarrowTail(text: Text, budget: nat, tail: Text)
    requires Narrow(text) && budget <= |text| && IsTail(text, budget, tail)
    ensures tail == text[|text| - budget..]
  {
    NarrowWidth(text[|text| - budget..]);
    NarrowWidth(text[|text| - |tail|..]);
  }

  /** In text of one column a character, cutting the middle to `maxWidth` columns keeps that
      many characters in all, one of them the ellipsis; of an odd number of others the head
      gets one more than the tail. */
  lemma NarrowMiddleCut(text: Text, maxWidth: nat, result: Text)
    requires Narrow(text) && 1 <= maxWidth < |text| && IsMiddleCut(text, maxWidth, result)
    ensures result == text[..maxWidth / 2] + [0x2026] + text[|text| - (maxWidth - 1 - maxWidth / 2)..]
  {
    NarrowWidth(text);
    var head, tail :| MiddleParts(text, maxWidth, result, head, tail);
    NarrowHead(text, maxWidth / 2, head);
    NarrowWidth(head);
    NarrowTail(text, maxWidth - 1 - maxWidth / 2, tail);
  }

  /** Cutting the end keeps all the others in front. */
  lemma NarrowEndCut(text: Text, maxWidth: nat, result: Text)
    requires Narrow(text) && 1 <= maxWidth < |text| && IsEndCut(text, maxWidth, result)
    ensures result == text[..maxWidth - 1] + [0x2026]
  {
    NarrowWidth(text);
    var head :| EndPart(text, maxWidth, result, head);
    NarrowHead(text, maxWidth - 1, head);
  }

  lemma NothingFits(text: Text, head: Text)
    requires IsHead(text, 0, head)
    ensures head == []
  {
    WidthBounds(head);
  }

  /** Cutting what was cut changes nothing, for every width. */
  lemma MiddleCutIsIdempotent(text: Text, maxWidth: int, once: Text, twice: Text)
    requires IsMiddleCut(text, maxWidth, once) && IsMiddleCut(once, maxWidth, twice)
    ensures twice == once
  {
    if 1 <= maxWidth {
      MiddleCutFits(text, maxWidth, once);
    } else if Width(text) > maxWidth {
      var head, tail :| MiddleParts(text, maxWidth, once, head, tail);
      NothingIsKept(text, maxWidth, once, head, tail);
      assert [ELLIPSIS][1..] == [];
      var h, t :| MiddleParts(once, maxWidth, twice, h, t);
      NothingIsKept(once, maxWidth, twice, h, t);
    }
  }

  lemma NothingIsKept(text: Text, maxWidth: int, result: Text, head: Text, tail: Text)
    requires maxWidth <= 0 && MiddleParts(text, maxWidth, result, head, tail)
    ensures result == [ELLIPSIS]
  {
    WidthBounds(head);
    WidthBounds(tail);
  }

  lemma {:induction false} EndCutIsIdempotent(text: Text, maxWidth: int, once: Text, twice: Text)
    requires IsEndCut(text, maxWidth, once) && IsEndCut(once, maxWidth, twice)
    ensures twice == once
  {
    if 1 <= maxWidth {
      EndCutFits(text, maxWidth, once);
    } else if Width(text) > maxWidth {
      var head :| EndPart(text, maxWidth, once, head);
      NothingFits(text, head);
      assert [ELLIPSIS][1..] == [];
      var h :| EndPart(once, maxWidth, twice, h);
      NothingFits(once, h);
    }
  }
}

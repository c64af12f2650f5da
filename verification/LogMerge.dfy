/** Merging batches of log entries into a bounded buffer. */
module LogMerge {
  import opened Wrappers
  import opened Backoff
  import opened FirstOccurrences

  const BUFFER_LIMIT: nat := 10000
  const FETCH_BATCH_LIMIT: nat := 1000
  const MAX_CATCH_UP_BATCHES: nat := 5
  const REFRESH_INTERVAL_MS: nat := 3000
  const MAX_RETRY_DELAY_MS: nat := 30000

  datatype Entry = Entry(id: nat, text: string)

  /** A server position. */
  type Cursor = nat

  /** What the server says about its storage beside the entries. */
  datatype Storage = Storage(bytes: nat, maxBytes: nat, failedWrites: nat)

  datatype Snapshot = Snapshot(
    entries: seq<Entry>,
    matched: nat,
    storage: Storage,
    nextCursor: Option<Cursor>,
    reset: bool,
    hasMore: bool)

  predicate Increasing(s: seq<Entry>) {
    forall i, j :: 0 <= i < j < |s| ==> s[i].id < s[j].id
  }

  function IdOf(e: Entry): nat { e.id }

  /** `s.length > limit ? s.slice(-limit) : s`, where slice(-0) is the whole array. */
  function Suffix(s: seq<Entry>, limit: nat): seq<Entry> {
    if |s| > limit && limit > 0 then s[|s| - limit..] else s
  }

  /** The entries of `incoming` that a buffer holding `current` does not know yet. */
  function News(current: seq<Entry>, incoming: seq<Entry>): seq<Entry> {
    Fresh(IdOf, Keys(IdOf, current), incoming)
  }

  function Merged(current: seq<Entry>, incoming: seq<Entry>, limit: nat): seq<Entry> {
    Suffix(current + News(current, incoming), limit)
  }

  method MergeRuntimeLogEntries(current: seq<Entry>, incoming: seq<Entry>, limit: nat) returns (result: seq<Entry>)
    ensures result == Merged(current, incoming, limit)
  {
    if |incoming| == 0 {
      assert current + [] == current;
      return if |current| > limit then SliceLast(current, limit) else current;
    }
    var known := Keys(IdOf, current);
    var merged := current;
    for i := 0 to |incoming|
      invariant current + News(current, incoming) == merged + Fresh(IdOf, known, incoming[i..])
      invariant |merged| >= |current|
      invariant |merged| == |current| ==> merged == current
    {
      assert incoming[i..][1..] == incoming[i + 1..];
      if incoming[i].id !in known {
        assert merged + ([incoming[i]] + Fresh(IdOf, known + {incoming[i].id}, incoming[i + 1..]))
            == (merged + [incoming[i]]) + Fresh(IdOf, known + {incoming[i].id}, incoming[i + 1..]);
        known := known + {incoming[i].id};
        merged := merged + [incoming[i]];
      }
    }
    if |merged| == |current| && |current| <= limit { return current; }
    return if |merged| > limit then SliceLast(merged, limit) else merged;
  }

  function SliceLast(s: seq<Entry>, limit: nat): seq<Entry>
    requires |s| > limit
  {
    if limit == 0 then s else s[|s| - limit..]
  }

  // ----- Algebra -------------------------------------------------------------

  lemma SuffixAbsorbs(a: seq<Entry>, b: seq<Entry>, limit: nat)
    ensures Suffix(Suffix(a, limit) + b, limit) == Suffix(a + b, limit)
    ensures Suffix(a + Suffix(b, limit), limit) == Suffix(a + b, limit)
  {
    SuffixAbsorbsLeft(a, b, limit);
    SuffixAbsorbsRight(a, b, limit);
  }

  lemma SuffixAbsorbsLeft(a: seq<Entry>, b: seq<Entry>, limit: nat)
    ensures Suffix(Suffix(a, limit) + b, limit) == Suffix(a + b, limit)
  {
    if |a| > limit && limit > 0 {
      var cut := |a| - limit;
      assert a[cut..] + b == (a + b)[cut..];
      assert (a + b)[cut..][|b|..] == (a + b)[|a + b| - limit..];
    }
  }

  lemma SuffixAbsorbsRight(a: seq<Entry>, b: seq<Entry>, limit: nat)
    ensures Suffix(a + Suffix(b, limit), limit) == Suffix(a + b, limit)
  {
    if |b| > limit && limit > 0 {
      var kept := b[|b| - limit..];
      assert (a + kept)[|a|..] == kept;
      assert (a + b)[|a + b| - limit..] == kept;
      assert a != [] ==> |a + kept| > limit;
      assert a == [] ==> a + kept == kept;
    }
  }

  lemma PartOfWindow(log: seq<Entry>, i: nat, k: nat, j: nat)
    requires i <= k <= j <= |log|
    ensures Keys(IdOf, log[k..j]) <= Keys(IdOf, log[i..j])
  {
    forall e | e in log[k..j] ensures e in log[i..j] {
      var n :| 0 <= n < j - k && log[k..j][n] == e;
      assert log[i..j][k - i + n] == e;
    }
  }

  lemma WindowsApart(log: seq<Entry>, i: nat, j: nat, l: nat)
    requires Increasing(log) && i <= j <= l <= |log|
    ensures Keys(IdOf, log[j..l]) !! Keys(IdOf, log[i..j])
  {
    forall e, d | e in log[j..l] && d in log[i..j] ensures e.id != d.id {
      var n :| 0 <= n < l - j && log[j..l][n] == e;
      var m :| 0 <= m < j - i && log[i..j][m] == d;
      assert e == log[j + n] && d == log[i + m];
    }
  }

  lemma WindowKeys(log: seq<Entry>, i: nat, k: nat, j: nat, l: nat)
    requires Increasing(log) && i <= k <= j <= l <= |log|
    ensures Keys(IdOf, log[k..j]) <= Keys(IdOf, log[i..j])
    ensures Keys(IdOf, log[j..l]) !! Keys(IdOf, log[i..j])
    ensures DistinctBy(IdOf, log[j..l])
  {
    PartOfWindow(log, i, k, j);
    WindowsApart(log, i, j, l);
  }

  /** Two windows of one log that overlap or touch merge to the joint window. */
  lemma MergeWindows(log: seq<Entry>, i: nat, j: nat, k: nat, l: nat, limit: nat)
    requires Increasing(log) && i <= k <= j <= l <= |log|
    ensures Merged(log[i..j], log[k..l], limit) == Suffix(log[i..l], limit)
  {
    assert log[k..l] == log[k..j] + log[j..l];
    WindowKeys(log, i, k, j, l);
    FreshSkips(IdOf, Keys(IdOf, log[i..j]), log[k..j], log[j..l]);
    assert log[i..j] + log[j..l] == log[i..l];
  }

  /** Fresh batches: merging appends, and the limit keeps the newest. */
  lemma MergeAppends(current: seq<Entry>, incoming: seq<Entry>, limit: nat)
    requires Increasing(current + incoming)
    ensures Merged(current, incoming, limit) == Suffix(current + incoming, limit)
  {
    var log := current + incoming;
    assert log[0..|current|] == current && log[|current|..|log|] == incoming && log[0..|log|] == log;
    MergeWindows(log, 0, |current|, |current|, |log|, limit);
  }

  lemma IncreasingPart(s: seq<Entry>, from: nat, to: nat)
    requires Increasing(s) && from <= to <= |s|
    ensures Increasing(s[from..to])
  {}

  /** Bounding either side before a merge changes nothing. */
  lemma MergeBounded(first: seq<Entry>, second: seq<Entry>, limit: nat)
    requires Increasing(first + second)
    ensures Merged(Suffix(first, limit), second, limit) == Suffix(first + second, limit)
    ensures Merged(Suffix(first, limit), Suffix(second, limit), limit) == Suffix(first + second, limit)
  {
    var kept := Suffix(first, limit);
    var from := |first| - |kept|;
    assert kept + second == (first + second)[from..|first + second|];
    IncreasingPart(first + second, from, |first + second|);
    MergeAppends(kept, second, limit);
    SuffixAbsorbs(first, second, limit);
    MergeTail(kept, second, limit);
  }

  lemma MergeTail(kept: seq<Entry>, second: seq<Entry>, limit: nat)
    requires Increasing(kept + second)
    ensures Merged(kept, Suffix(second, limit), limit) == Suffix(kept + second, limit)
  {
    var last := Suffix(second, limit);
    var skipped := |second| - |last|;
    forall i, j | 0 <= i < j < |kept + last| ensures (kept + last)[i].id < (kept + last)[j].id {
      var position := (n: int) => if n < |kept| then n else n + skipped;
      assert (kept + last)[i] == (kept + second)[position(i)];
      assert (kept + last)[j] == (kept + second)[position(j)];
    }
    MergeAppends(kept, last, limit);
    SuffixAbsorbs(kept, second, limit);
  }

  function Flatten(batches: seq<seq<Entry>>): seq<Entry> {
    if batches == [] then [] else Flatten(batches[..|batches| - 1]) + batches[|batches| - 1]
  }

  function MergeAll(current: seq<Entry>, batches: seq<seq<Entry>>, limit: nat): seq<Entry> {
    if batches == [] then Suffix(current, limit)
    else Merged(MergeAll(current, batches[..|batches| - 1], limit), batches[|batches| - 1], limit)
  }

  /** Merging batch after batch is merging their concatenation at once, and both
      keep exactly the last `limit` entries in order. */
  lemma {:induction false} MergingBatchByBatch(current: seq<Entry>, batches: seq<seq<Entry>>, limit: nat)
    requires Increasing(current + Flatten(batches))
    ensures MergeAll(current, batches, limit) == Merged(current, Flatten(batches), limit)
    ensures MergeAll(current, batches, limit) == Suffix(current + Flatten(batches), limit)
  {
    MergeAppends(current, Flatten(batches), limit);
    if batches == [] {
      assert current + Flatten(batches) == current;
    } else {
      var head, last := Flatten(batches[..|batches| - 1]), batches[|batches| - 1];
      MergeOneMore(current, head, last, limit);
      MergingBatchByBatch(current, batches[..|batches| - 1], limit);
    }
  }

  lemma MergeOneMore(current: seq<Entry>, head: seq<Entry>, last: seq<Entry>, limit: nat)
    requires Increasing(current + (head + last))
    ensures Increasing(current + head)
    ensures Merged(Suffix(current + head, limit), last, limit) == Suffix(current + (head + last), limit)
  {
    assert current + (head + last) == (current + head) + last;
    assert current + head == (current + (head + last))[0..|current + head|];
    IncreasingPart(current + (head + last), 0, |current + head|);
    MergeBounded(current + head, last, limit);
  }

  lemma MergedLength(current: seq<Entry>, incoming: seq<Entry>, limit: nat)
    ensures |Merged(current, incoming, limit)| <= |current| + |incoming|
  {
    FreshIsShorter(IdOf, Keys(IdOf, current), incoming);
  }

  // ----- Snapshots -----------------------------------------------------------

  function Bounded(s: Snapshot): Snapshot { s.(entries := Suffix(s.entries, BUFFER_LIMIT)) }

  function MergedSnapshot(current: Option<Snapshot>, latest: Snapshot, incoming: seq<Entry>): Snapshot {
    if current.None? || latest.reset then Bounded(latest)
    else
      var c := current.value;
      var entries := Merged(c.entries, incoming, BUFFER_LIMIT);
      var hasMore := c.hasMore || (|entries| == BUFFER_LIMIT && (c.entries == [] || entries[0].id != c.entries[0].id));
      if entries == c.entries && c.matched == latest.matched && c.storage == latest.storage && c.hasMore == hasMore
      then c
      else latest.(entries := entries, hasMore := hasMore)
  }

  predicate Evicts(current: seq<Entry>, incoming: seq<Entry>) {
    |current + News(current, incoming)| > BUFFER_LIMIT
  }

  /** After a merge, older entries exist exactly if they did before, if an entry
      was evicted, or if the merge filled an empty buffer to the brim. */
  lemma HasMoreExactly(current: Snapshot, latest: Snapshot, incoming: seq<Entry>)
    requires DistinctBy(IdOf, current.entries) && !latest.reset
    ensures MergedSnapshot(Some(current), latest, incoming).hasMore <==>
      || current.hasMore
      || Evicts(current.entries, incoming)
      || (current.entries == [] && |Unique(IdOf, incoming)| == BUFFER_LIMIT)
  {
    var added := News(current.entries, incoming);
    FreshKeys(IdOf, Keys(IdOf, current.entries), incoming);
    var all := current.entries + added;
    if current.entries == [] {
      assert Keys(IdOf, current.entries) == {};
    } else if Evicts(current.entries, incoming) {
      var k := |all| - BUFFER_LIMIT;
      assert Suffix(all, BUFFER_LIMIT)[0] == all[k];
      assert all[k].id != current.entries[0].id by {
        if k >= |current.entries| {
          assert IdOf(all[k]) in Keys(IdOf, added);
          assert IdOf(current.entries[0]) in Keys(IdOf, current.entries);
        } else {
          assert IdOf(current.entries[0]) != IdOf(current.entries[k]);
        }
      }
    }
  }

  /** Merging less than a bufferful leaves the two cases that are meant. */
  lemma HasMoreOfSmallBatches(current: Snapshot, latest: Snapshot, incoming: seq<Entry>)
    requires Increasing(current.entries) && !latest.reset && |incoming| < BUFFER_LIMIT
    ensures MergedSnapshot(Some(current), latest, incoming).hasMore <==>
      current.hasMore || Evicts(current.entries, incoming)
  {
    assert forall i, j :: 0 <= i < j < |current.entries| ==> IdOf(current.entries[i]) != IdOf(current.entries[j]);
    FreshIsShorter(IdOf, {}, incoming);
    HasMoreExactly(current, latest, incoming);
  }

  /** The last case of the bare function: nothing was evicted, yet older entries are
      announced.  It takes more new entries than a poll ever collects. */
  lemma HasMoreWithoutEviction(storage: Storage)
    ensures var incoming := seq(BUFFER_LIMIT, (i: nat) => Entry(i, ""));
      var current := Snapshot([], 0, storage, None, false, false);
      && !current.hasMore && !Evicts(current.entries, incoming)
      && MergedSnapshot(Some(current), current, incoming).hasMore
  {
    var incoming := seq(BUFFER_LIMIT, (i: nat) => Entry(i, ""));
    var current := Snapshot([], 0, storage, None, false, false);
    assert Keys(IdOf, current.entries) == {};
    FreshOfNew(IdOf, {}, incoming);
    HasMoreExactly(current, current, incoming);
  }

  /** A merged snapshot reports the latest counts and storage, and holds the merged entries;
      a reset, or the first snapshot, is taken over with the newest entries it brings. */
  lemma MergedReportsLatest(current: Option<Snapshot>, latest: Snapshot, incoming: seq<Entry>)
    ensures var merged := MergedSnapshot(current, latest, incoming);
      && merged.matched == latest.matched && merged.storage == latest.storage
      && merged.entries == (if current.None? || latest.reset then Suffix(latest.entries, BUFFER_LIMIT)
                            else Merged(current.value.entries, incoming, BUFFER_LIMIT))
      && (current.None? || latest.reset ==> merged.hasMore == latest.hasMore)
  {}

  // ----- Back-off --------------------------------------------------------------

  function LogRefreshRetryDelay(failures: nat): nat {
    Doubled(REFRESH_INTERVAL_MS, if failures == 0 then 0 else Min(failures - 1, 10), MAX_RETRY_DELAY_MS)
  }

  lemma LogRefreshRetryDelayBounds(a: nat, b: nat)
    requires a <= b
    ensures REFRESH_INTERVAL_MS <= LogRefreshRetryDelay(a) <= LogRefreshRetryDelay(b) <= MAX_RETRY_DELAY_MS
    ensures LogRefreshRetryDelay(1) == 3_000
    ensures 5 <= a ==> LogRefreshRetryDelay(a) == 30_000
    ensures 1 <= a < 11 ==> LogRefreshRetryDelay(a + 1) == Min(30_000, 2 * LogRefreshRetryDelay(a))
  {
    var exponent := (n: nat) => if n == 0 then 0 else Min(n - 1, 10);
    DoubledGrows(REFRESH_INTERVAL_MS, 0, exponent(a), MAX_RETRY_DELAY_MS);
    DoubledGrows(REFRESH_INTERVAL_MS, exponent(a), exponent(b), MAX_RETRY_DELAY_MS);
    if 5 <= a {
      assert Pow2(4) == 16;
      DoubledGrows(REFRESH_INTERVAL_MS, 4, exponent(a), MAX_RETRY_DELAY_MS);
    }
  }
}

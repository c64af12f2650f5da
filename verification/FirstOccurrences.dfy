/** Keeping the first element of each key, in order: the idiom of a `seen` set
    that a loop or a filter fills as it goes. */
module FirstOccurrences {
  function Keys<T(==), K>(key: T -> K, s: seq<T>): set<K> {
    set x | x in s :: key(x)
  }

  /** The first elements of `s` whose keys are not in `known`. */
  function Fresh<T, K(==)>(key: T -> K, known: set<K>, s: seq<T>): seq<T>
    decreases |s|
  {
    if s == [] then []
    else if key(s[0]) in known then Fresh(key, known, s[1..])
    else [s[0]] + Fresh(key, known + {key(s[0])}, s[1..])
  }

  function Unique<T, K(==)>(key: T -> K, s: seq<T>): seq<T> {
    Fresh(key, {}, s)
  }

  predicate DistinctBy<T, K(==)>(key: T -> K, s: seq<T>) {
    forall i, j :: 0 <= i < j < |s| ==> key(s[i]) != key(s[j])
  }

  lemma KeysOfCons<T, K>(key: T -> K, s: seq<T>)
    requires s != []
    ensures Keys(key, s) == {key(s[0])} + Keys(key, s[1..])
  {
    assert s == [s[0]] + s[1..];
  }

  lemma KeysJoin<T, K>(key: T -> K, a: seq<T>, b: seq<T>)
    ensures Keys(key, a + b) == Keys(key, a) + Keys(key, b)
  {}

  lemma {:induction false} FreshJoins<T, K>(key: T -> K, known: set<K>, a: seq<T>, b: seq<T>)
    ensures Fresh(key, known, a + b) == Fresh(key, known, a) + Fresh(key, known + Keys(key, a), b)
    decreases |a|
  {
    if a == [] {
      assert a + b == b && known + Keys(key, a) == known;
    } else {
      assert (a + b)[1..] == a[1..] + b;
      KeysOfCons(key, a);
      var first := key(a[0]);
      if first in known {
        FreshJoins(key, known, a[1..], b);
        assert known + Keys(key, a[1..]) == known + Keys(key, a);
      } else {
        FreshJoins(key, known + {first}, a[1..], b);
        assert known + {first} + Keys(key, a[1..]) == known + Keys(key, a);
      }
    }
  }

  lemma {:induction false} FreshOfNew<T, K>(key: T -> K, known: set<K>, s: seq<T>)
    requires DistinctBy(key, s) && Keys(key, s) !! known
    ensures Fresh(key, known, s) == s
    decreases |s|
  {
    if s != [] {
      KeysOfCons(key, s);
      forall x | x in s[1..] ensures key(x) != key(s[0]) {
        var k :| 0 <= k < |s[1..]| && s[1..][k] == x;
        assert s[k + 1] == x;
      }
      FreshOfNew(key, known + {key(s[0])}, s[1..]);
    }
  }

  lemma {:induction false} FreshOfKnown<T, K>(key: T -> K, known: set<K>, s: seq<T>)
    requires Keys(key, s) <= known
    ensures Fresh(key, known, s) == []
    decreases |s|
  {
    if s != [] {
      KeysOfCons(key, s);
      FreshOfKnown(key, known, s[1..]);
    }
  }

  lemma FreshSkips<T, K>(key: T -> K, known: set<K>, a: seq<T>, b: seq<T>)
    requires Keys(key, a) <= known && Keys(key, b) !! known && DistinctBy(key, b)
    ensures Fresh(key, known, a + b) == b
  {
    FreshJoins(key, known, a, b);
    FreshOfKnown(key, known, a);
    assert known + Keys(key, a) == known;
    FreshOfNew(key, known, b);
  }

  lemma {:induction false} FreshKeys<T, K>(key: T -> K, known: set<K>, s: seq<T>)
    ensures Keys(key, Fresh(key, known, s)) == Keys(key, s) - known
    ensures DistinctBy(key, Fresh(key, known, s))
    decreases |s|
  {
    if s != [] {
      KeysOfCons(key, s);
      var first := key(s[0]);
      if first in known {
        FreshKeys(key, known, s[1..]);
      } else {
        var rest := Fresh(key, known + {first}, s[1..]);
        FreshKeys(key, known + {first}, s[1..]);
        assert forall k :: 0 <= k < |rest| ==> key(rest[k]) in Keys(key, rest);
        KeysOfCons(key, Fresh(key, known, s));
      }
    }
  }

  lemma {:induction false} FreshIsShorter<T, K>(key: T -> K, known: set<K>, s: seq<T>)
    ensures |Fresh(key, known, s)| <= |s|
    decreases |s|
  {
    if s != [] {
      FreshIsShorter(key, known, s[1..]);
      FreshIsShorter(key, known + {key(s[0])}, s[1..]);
    }
  }

  /** Uniqueness is reached once and for all, and piecewise is as good as at once. */
  lemma UniqueJoins<T, K>(key: T -> K, a: seq<T>, b: seq<T>)
    ensures Unique(key, a + b) == Unique(key, a) + Fresh(key, Keys(key, Unique(key, a)), b)
    ensures Unique(key, Unique(key, a)) == Unique(key, a)
  {
    FreshJoins(key, {}, a, b);
    FreshKeys(key, {}, a);
    assert {} + Keys(key, a) == Keys(key, Unique(key, a));
    FreshOfNew(key, {}, Unique(key, a));
  }
}

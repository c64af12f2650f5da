/** Drive ids: slugs, and the search for one that is not taken. */
module DriveId {
  predicate SlugChar(c: char) {
    'a' <= c <= 'z' || '0' <= c <= '9'
  }

  /** Every run of other characters becomes one hyphen. */
  function Hyphenated(s: string): string {
    if s == "" then ""
    else if SlugChar(s[|s| - 1]) then Hyphenated(s[..|s| - 1]) + [s[|s| - 1]]
    else
      var before := Hyphenated(s[..|s| - 1]);
      if |s| > 1 && !SlugChar(s[|s| - 2]) then before else before + "-"
  }

  function TrimLeft(s: string): string {
    if s != "" && s[0] == '-' then TrimLeft(s[1..]) else s
  }

  function TrimRight(s: string): string {
    if s != "" && s[|s| - 1] == '-' then TrimRight(s[..|s| - 1]) else s
  }

  function Slug(s: string): string {
    TrimRight(TrimLeft(Hyphenated(s)))
  }

  /** `fold` stands for trimming and lower-casing. */
  function NormalizeName(fold: string -> string, name: string): string {
    Slug(fold(name))
  }

  /** Letters, digits and single hyphens between them. */
  predicate IsSlug(s: string) {
    && (forall i :: 0 <= i < |s| ==> SlugChar(s[i]) || s[i] == '-')
    && (forall i :: 0 <= i < |s| - 1 ==> SlugChar(s[i]) || SlugChar(s[i + 1]))
    && (s != "" ==> SlugChar(s[0]) && SlugChar(s[|s| - 1]))
  }

  predicate SingleHyphens(s: string) {
    && (forall i :: 0 <= i < |s| ==> SlugChar(s[i]) || s[i] == '-')
    && (forall i :: 0 <= i < |s| - 1 ==> SlugChar(s[i]) || SlugChar(s[i + 1]))
  }

  lemma {:induction false} HyphenatedIsSingle(s: string)
    ensures SingleHyphens(Hyphenated(s))
    ensures (Hyphenated(s) == "" <==> s == "")
    ensures s != "" ==> (SlugChar(Hyphenated(s)[|Hyphenated(s)| - 1]) <==> SlugChar(s[|s| - 1]))
  {
    if s != "" { HyphenatedIsSingle(s[..|s| - 1]); }
  }

  lemma {:induction false} TrimmedIsSlug(s: string)
    requires SingleHyphens(s)
    ensures IsSlug(TrimRight(TrimLeft(s)))
  {
    var left := TrimLeft(s);
    TrimLeftStarts(s);
    TrimRightEnds(left);
  }

  lemma {:induction false} TrimLeftStarts(s: string)
    requires SingleHyphens(s)
    ensures SingleHyphens(TrimLeft(s)) && (TrimLeft(s) != "" ==> SlugChar(TrimLeft(s)[0]))
  {
    if s != "" && s[0] == '-' { TrimLeftStarts(s[1..]); }
  }

  lemma {:induction false} TrimRightEnds(s: string)
    requires SingleHyphens(s) && (s != "" ==> SlugChar(s[0]))
    ensures IsSlug(TrimRight(s))
  {
    if s != "" && s[|s| - 1] == '-' { TrimRightEnds(s[..|s| - 1]); }
  }

  lemma {:induction false} HyphenatedKeepsSlugs(s: string)
    requires SingleHyphens(s)
    ensures Hyphenated(s) == s
  {
    if s != "" {
      HyphenatedKeepsSlugs(s[..|s| - 1]);
      assert s == s[..|s| - 1] + [s[|s| - 1]];
    }
  }

  /** Normal names are slugs, and normalizing them again changes nothing, for every
      way of folding that leaves slugs alone. */
  lemma NormalizeIsIdempotent(fold: string -> string, name: string)
    requires forall s :: IsSlug(s) ==> fold(s) == s
    ensures IsSlug(NormalizeName(fold, name))
    ensures NormalizeName(fold, NormalizeName(fold, name)) == NormalizeName(fold, name)
  {
    HyphenatedIsSingle(fold(name));
    TrimmedIsSlug(Hyphenated(fold(name)));
    var slug := NormalizeName(fold, name);
    HyphenatedKeepsSlugs(slug);
  }

  /** A name of small letters and digits stays as it is. */
  lemma {:induction false} LettersAndDigitsStay(s: string)
    requires forall i :: 0 <= i < |s| ==> 'a' <= s[i] <= 'z' || '0' <= s[i] <= '9'
    ensures Slug(s) == s
  {
    HyphenatedKeepsSlugs(s);
  }

  /** Anything else between two of them is one hyphen, however much it is. */
  lemma {:induction false} OthersAreOneHyphen(a: char, others: string, b: char)
    requires ('a' <= a <= 'z' || '0' <= a <= '9') && ('a' <= b <= 'z' || '0' <= b <= '9')
    requires others != "" && forall i :: 0 <= i < |others| ==> !('a' <= others[i] <= 'z' || '0' <= others[i] <= '9')
    ensures Slug([a] + others + [b]) == [a] + "-" + [b]
  {
    OthersHyphenated(a, others);
    var s := [a] + others + [b];
    assert s[..|s| - 1] == [a] + others;
    assert Hyphenated(s) == [a] + "-" + [b];
  }

  lemma {:induction false} OthersHyphenated(a: char, others: string)
    requires SlugChar(a) && others != "" && forall i :: 0 <= i < |others| ==> !SlugChar(others[i])
    ensures Hyphenated([a] + others) == [a] + "-"
  {
    var s := [a] + others;
    assert s[..|s| - 1] == [a] + others[..|others| - 1];
    if |others| == 1 {
      assert s[..1] == [a] && [a][..0] == "";
      assert Hyphenated([a]) == [a];
    } else {
      OthersHyphenated(a, others[..|others| - 1]);
    }
  }

  /** Nothing readable is lost: the letters and digits are those of the folded name. */
  lemma {:induction false} SlugKeepsCharacters(s: string)
    ensures Kept(Slug(s)) == Kept(s)
  {
    HyphenatedKeeps(s);
    TrimLeftKeeps(Hyphenated(s));
    TrimRightKeeps(TrimLeft(Hyphenated(s)));
  }

  function Kept(s: string): string {
    if s == "" then "" else Kept(s[..|s| - 1]) + if SlugChar(s[|s| - 1]) then [s[|s| - 1]] else ""
  }

  lemma {:induction false} KeptJoins(a: string, b: string)
    ensures Kept(a + b) == Kept(a) + Kept(b)
  {
    if b == "" {
      assert a + b == a;
    } else {
      assert (a + b)[..|a + b| - 1] == a + b[..|b| - 1];
      KeptJoins(a, b[..|b| - 1]);
    }
  }

  lemma {:induction false} HyphenatedKeeps(s: string)
    ensures Kept(Hyphenated(s)) == Kept(s)
  {
    if s != "" {
      HyphenatedKeeps(s[..|s| - 1]);
      KeptJoins(Hyphenated(s[..|s| - 1]), [s[|s| - 1]]);
      KeptJoins(Hyphenated(s[..|s| - 1]), "-");
      assert [s[|s| - 1]][..0] == "" && "-"[..0] == "";
    }
  }

  lemma {:induction false} TrimLeftKeeps(s: string)
    ensures Kept(TrimLeft(s)) == Kept(s)
  {
    if s != "" && s[0] == '-' {
      TrimLeftKeeps(s[1..]);
      assert s == "-" + s[1..] && "-"[..0] == "";
      KeptJoins("-", s[1..]);
    }
  }

  lemma {:induction false} TrimRightKeeps(s: string)
    ensures Kept(TrimRight(s)) == Kept(s)
  {
    if s != "" && s[|s| - 1] == '-' { TrimRightKeeps(s[..|s| - 1]); }
  }

  // ----- The search --------------------------------------------------------------------

  function Digit(n: nat): char
    requires n < 10
  {
    '0' + n as char
  }

  function Decimal(n: nat): string {
    if n < 10 then [Digit(n)] else Decimal(n / 10) + [Digit(n % 10)]
  }

  lemma {:induction false} DecimalIsInjective(a: nat, b: nat)
    requires Decimal(a) == Decimal(b)
    ensures a == b
    decreases a
  {
    var s, t := Decimal(a), Decimal(b);
    DecimalNonEmpty(a / 10);
    DecimalNonEmpty(b / 10);
    assert s[|s| - 1] == Digit(a % 10) && t[|t| - 1] == Digit(b % 10);
    assert (a >= 10 <==> |s| > 1) && (b >= 10 <==> |t| > 1);
    if a >= 10 {
      assert s[..|s| - 1] == Decimal(a / 10) && t[..|t| - 1] == Decimal(b / 10);
      DecimalIsInjective(a / 10, b / 10);
    }
  }

  /** The number a string of digits writes. */
  function Reads(s: string): int {
    if s == "" then 0 else 10 * Reads(s[..|s| - 1]) + (s[|s| - 1] as int - '0' as int)
  }

  /** Numbers are written in decimal, without a leading zero. */
  lemma {:induction false} DecimalReads(n: nat)
    ensures Reads(Decimal(n)) == n && (forall c :: c in Decimal(n) ==> '0' <= c <= '9')
    ensures 0 < n ==> Decimal(n)[0] != '0'
  {
    var s := Decimal(n);
    if n < 10 {
      assert s[..0] == "";
    } else {
      DecimalReads(n / 10);
      DecimalNonEmpty(n / 10);
      assert s[..|s| - 1] == Decimal(n / 10);
    }
  }

  /** Taken bases are numbered from two on. */
  lemma CandidatesCountFromTwo(base: string, k: nat)
    ensures Candidate(base, 0) == base && Candidate(base, 1) == base + "-2" && Candidate(base, 9) == base + "-10"
    ensures 0 < k ==> base + "-" <= Candidate(base, k) && Reads(Candidate(base, k)[|base| + 1..]) == k + 1
  {
    assert Decimal(2) == "2" && Decimal(10) == Decimal(1) + "0" && Decimal(1) == "1";
    if 0 < k {
      DecimalReads(k + 1);
      assert Candidate(base, k)[|base| + 1..] == Decimal(k + 1);
    }
  }

  lemma {:induction false} DecimalNonEmpty(n: nat)
    ensures |Decimal(n)| >= 1
  {}

  /** The candidates in the order of the loop: the base, then base-2, base-3, ... */
  function Candidate(base: string, k: nat): string {
    if k == 0 then base else base + "-" + Decimal(k + 1)
  }

  lemma CandidatesDiffer(base: string, i: nat, j: nat)
    requires i < j
    ensures Candidate(base, i) != Candidate(base, j)
  {
    var prefix := base + "-";
    assert Candidate(base, j)[|prefix|..] == Decimal(j + 1);
    DecimalNonEmpty(j + 1);
    if i > 0 && Candidate(base, i) == Candidate(base, j) {
      assert Candidate(base, i)[|prefix|..] == Decimal(i + 1);
      DecimalIsInjective(i + 1, j + 1);
    }
  }

  ghost function Tried(base: string, n: nat): set<string> {
    set k: nat | k < n :: Candidate(base, k)
  }

  lemma {:induction false} TriedCount(base: string, n: nat)
    ensures |Tried(base, n)| == n
  {
    if n == 0 {
      assert Tried(base, n) == {};
    } else {
      TriedCount(base, n - 1);
      assert Tried(base, n) == Tried(base, n - 1) + {Candidate(base, n - 1)};
      forall k: nat | k < n - 1 ensures Candidate(base, k) != Candidate(base, n - 1) {
        CandidatesDiffer(base, k, n - 1);
      }
    }
  }

  /** By the pigeonhole: candidates that are all taken are no more than what is taken. */
  lemma TriedFits(base: string, used: set<string>, n: nat)
    requires forall k: nat :: k < n ==> Candidate(base, k) in used
    ensures n <= |used|
  {
    TriedCount(base, n);
    SubsetCount(Tried(base, n), used);
  }

  lemma SubsetCount(a: set<string>, b: set<string>)
    requires a <= b
    ensures |a| <= |b|
  {
    assert b == a + (b - a);
  }

  /** The kind stands in for a name of which nothing is left. */
  function Base(fold: string -> string, kind: string, name: string): string {
    var slug := NormalizeName(fold, name);
    if slug != "" then slug else kind
  }

  /** The search for a free candidate, counted from the base. */
  ghost predicate FirstFree(base: string, used: set<string>, id: string, k: nat) {
    && id == Candidate(base, k) && id !in used
    && forall j: nat :: j < k ==> Candidate(base, j) in used
  }

  /** The first candidate that is not taken, after at most as many as there are ids. */
  method MakeUniqueDriveId(fold: string -> string, kind: string, name: string, existing: seq<string>)
    returns (id: string)
    ensures id !in existing
    ensures var used := set drive | drive in existing;
      exists k: nat :: k <= |used| && FirstFree(Base(fold, kind, name), used, id, k)
  {
    var used := set drive | drive in existing;
    var base := Base(fold, kind, name);
    id := base;
    ghost var k := 0;
    var suffix: nat := 2;
    while id in used
      invariant suffix == k + 2 && id == Candidate(base, k)
      invariant forall j: nat :: j < k ==> Candidate(base, j) in used
      decreases |used| - k
    {
      TriedFits(base, used, k + 1);
      id := base + "-" + Decimal(suffix);
      suffix := suffix + 1;
      k := k + 1;
    }
    TriedFits(base, used, k);
    assert FirstFree(base, used, id, k);
  }
}

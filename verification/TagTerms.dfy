/** The tag-rule editor: a list of terms kept as one string, edited as pills. */
module TagTerms {
  import opened FirstOccurrences

  /** `Keywords` go through `splitRuleTerms`, `Prefixes` through `splitPrefixTerms`. */
  datatype Kind = Keywords | Prefixes

  /** White space and the two case mappings are Unicode's. */
  datatype Text = Text(space: char -> bool, upper: string -> string, lower: string -> string)

  predicate Separator(text: Text, kind: Kind, c: char) {
    || c == '\n' || c == ',' || c == '\U{FF0C}' || c == '\U{3001}' || c == ';' || c == '\U{FF1B}'
    || (kind == Prefixes && text.space(c))
  }

  predicate Whole(text: Text, kind: Kind, s: string) {
    forall i :: 0 <= i < |s| ==> !Separator(text, kind, s[i])
  }

  /** What the theorems need of upper-casing: it is idempotent and makes nothing of
      nothing and no separator. */
  ghost predicate WellBehaved(text: Text) {
    && text.upper("") == ""
    && (forall s :: text.upper(text.upper(s)) == text.upper(s))
    && (forall s :: Whole(text, Prefixes, s) ==> Whole(text, Prefixes, text.upper(s)))
  }

  // ----- Splitting at runs of separators ---------------------------------------------

  /** How far `s` goes on being separators, or being none. */
  function RunLength(text: Text, kind: Kind, separators: bool, s: string): (n: nat)
    ensures n <= |s|
  {
    if s != "" && Separator(text, kind, s[0]) == separators
    then 1 + RunLength(text, kind, separators, s[1..]) else 0
  }

  /** `value.split(/[...]+/)`: a leading or trailing run leaves an empty piece. */
  function Pieces(text: Text, kind: Kind, s: string): (pieces: seq<string>)
    ensures pieces != []
    decreases |s|
  {
    var n := RunLength(text, kind, false, s);
    if n == |s| then [s]
    else
      var gap := RunLength(text, kind, true, s[n..]);
      [s[..n]] + if gap == 0 then [s[n..]] else Pieces(text, kind, s[n..][gap..])
  }

  lemma {:induction false} RunIsMaximal(text: Text, kind: Kind, separators: bool, s: string)
    ensures var n := RunLength(text, kind, separators, s);
      && (forall i :: 0 <= i < n ==> Separator(text, kind, s[i]) == separators)
      && (n < |s| ==> Separator(text, kind, s[n]) != separators)
  {
    if s != "" { RunIsMaximal(text, kind, separators, s[1..]); }
  }

  /** `pieces` with one gap after each but the last. */
  function Interleaved(pieces: seq<string>, gaps: seq<string>): string
    requires |pieces| == |gaps| + 1
  {
    if gaps == [] then pieces[0] else pieces[0] + gaps[0] + Interleaved(pieces[1..], gaps[1..])
  }

  predicate Gap(text: Text, kind: Kind, s: string) {
    s != "" && forall i :: 0 <= i < |s| ==> Separator(text, kind, s[i])
  }

  lemma InterleavedCons(piece: string, gap: string, pieces: seq<string>, gaps: seq<string>)
    requires |pieces| == |gaps| + 1
    ensures Interleaved([piece] + pieces, [gap] + gaps) == piece + gap + Interleaved(pieces, gaps)
  {
    assert ([piece] + pieces)[1..] == pieces && ([gap] + gaps)[1..] == gaps;
  }

  lemma CutTwice(s: string, n: nat, gap: nat)
    requires n <= |s| && gap <= |s[n..]|
    ensures s == s[..n] + s[n..][..gap] + s[n..][gap..]
  {}

  lemma FirstCut(text: Text, kind: Kind, s: string) returns (n: nat, gap: nat)
    ensures n <= |s| && gap <= |s[n..]| && Whole(text, kind, s[..n])
    ensures n == |s| ==> Pieces(text, kind, s) == [s]
    ensures n < |s| ==> Gap(text, kind, s[n..][..gap])
    ensures n < |s| ==> Pieces(text, kind, s) == [s[..n]] + Pieces(text, kind, s[n..][gap..])
  {
    n := RunLength(text, kind, false, s);
    gap := RunLength(text, kind, true, s[n..]);
    RunIsMaximal(text, kind, false, s);
    RunIsMaximal(text, kind, true, s[n..]);
  }

  lemma {:induction false} PiecesAreWhole(text: Text, kind: Kind, s: string)
    ensures forall piece :: piece in Pieces(text, kind, s) ==> Whole(text, kind, piece)
    decreases |s|
  {
    var n, gap := FirstCut(text, kind, s);
    if n < |s| {
      PiecesAreWhole(text, kind, s[n..][gap..]);
    } else {
      assert s[..n] == s;
    }
  }

  /** The pieces hold no separator, and what was cut away between them is nothing else. */
  lemma {:induction false} PiecesCutAtSeparators(text: Text, kind: Kind, s: string) returns (gaps: seq<string>)
    ensures forall piece :: piece in Pieces(text, kind, s) ==> Whole(text, kind, piece)
    ensures forall gap :: gap in gaps ==> Gap(text, kind, gap)
    ensures |Pieces(text, kind, s)| == |gaps| + 1 && s == Interleaved(Pieces(text, kind, s), gaps)
    decreases |s|
  {
    PiecesAreWhole(text, kind, s);
    var n, gap := FirstCut(text, kind, s);
    gaps := [];
    if n < |s| {
      var rest := s[n..][gap..];
      var more := PiecesCutAtSeparators(text, kind, rest);
      gaps := [s[n..][..gap]] + more;
      InterleavedCons(s[..n], s[n..][..gap], Pieces(text, kind, rest), more);
      CutTwice(s, n, gap);
    }
  }

  // ----- Cleaning and uniqueness ----------------------------------------------------------

  function TrimStart(text: Text, s: string): string {
    if s != "" && text.space(s[0]) then TrimStart(text, s[1..]) else s
  }

  function TrimEnd(text: Text, s: string): string {
    if s != "" && text.space(s[|s| - 1]) then TrimEnd(text, s[..|s| - 1]) else s
  }

  function Trim(text: Text, s: string): string {
    TrimEnd(text, TrimStart(text, s))
  }

  predicate Trimmed(text: Text, s: string) {
    s != "" ==> !text.space(s[0]) && !text.space(s[|s| - 1])
  }

  predicate Clean(text: Text, t: string) {
    t != "" && Trimmed(text, t)
  }

  lemma {:induction false} TrimStartCuts(text: Text, kind: Kind, s: string)
    ensures var t := TrimStart(text, s); t != "" ==> !text.space(t[0])
    ensures Whole(text, kind, s) ==> Whole(text, kind, TrimStart(text, s))
  {
    if s != "" && text.space(s[0]) { TrimStartCuts(text, kind, s[1..]); }
  }

  lemma {:induction false} TrimEndCuts(text: Text, kind: Kind, s: string)
    requires s != "" ==> !text.space(s[0])
    ensures Trimmed(text, TrimEnd(text, s))
    ensures Whole(text, kind, s) ==> Whole(text, kind, TrimEnd(text, s))
  {
    if s != "" && text.space(s[|s| - 1]) { TrimEndCuts(text, kind, s[..|s| - 1]); }
  }

  lemma TrimCuts(text: Text, kind: Kind, s: string)
    ensures Trimmed(text, Trim(text, s)) && (Trimmed(text, s) ==> Trim(text, s) == s)
    ensures Whole(text, kind, s) ==> Whole(text, kind, Trim(text, s))
  {
    TrimStartCuts(text, kind, s);
    TrimEndCuts(text, kind, TrimStart(text, s));
  }

  /** Trimmed, and dropped when nothing is left. */
  function Cleaned(text: Text, terms: seq<string>): seq<string> {
    if terms == [] then []
    else
      var first := Trim(text, terms[0]);
      (if first == "" then [] else [first]) + Cleaned(text, terms[1..])
  }

  lemma {:induction false} CleanedJoins(text: Text, a: seq<string>, b: seq<string>)
    ensures Cleaned(text, a + b) == Cleaned(text, a) + Cleaned(text, b)
  {
    if a == [] {
      assert a + b == b;
    } else {
      assert (a + b)[1..] == a[1..] + b;
      CleanedJoins(text, a[1..], b);
    }
  }

  /** The first spelling of each term, whatever its case. */
  method UniqueTerms(text: Text, terms: seq<string>) returns (out: seq<string>)
    ensures out == Unique(text.lower, Cleaned(text, terms))
    ensures DistinctBy(text.lower, out)
  {
    var seen := {};
    out := [];
    for i := 0 to |terms|
      invariant out == Unique(text.lower, Cleaned(text, terms[..i]))
      invariant seen == Keys(text.lower, out)
    {
      var clean := Trim(text, terms[i]);
      var key := text.lower(clean);
      assert terms[..i + 1] == terms[..i] + [terms[i]];
      CleanedJoins(text, terms[..i], [terms[i]]);
      assert Cleaned(text, [terms[i]]) == if clean == "" then [] else [clean];
      UniqueJoins(text.lower, Cleaned(text, terms[..i]), Cleaned(text, [terms[i]]));
      KeysJoin(text.lower, out, [clean]);
      if clean != "" && key !in seen {
        seen := seen + {key};
        out := out + [clean];
      }
    }
    assert terms[..|terms|] == terms;
    FreshKeys(text.lower, {}, Cleaned(text, terms));
  }

  function Shaped(text: Text, kind: Kind, piece: string): string {
    if kind == Prefixes then text.upper(piece) else piece
  }

  function SplitTerms(text: Text, kind: Kind, value: string): seq<string> {
    var pieces := Pieces(text, kind, value);
    Unique(text.lower, Cleaned(text, seq(|pieces|, i requires 0 <= i < |pieces| => Shaped(text, kind, pieces[i]))))
  }

  function JoinTerms(terms: seq<string>): string {
    if terms == [] then ""
    else if |terms| == 1 then terms[0]
    else terms[0] + "\n" + JoinTerms(terms[1..])
  }

  // ----- Which lists the editor can hold --------------------------------------------------

  predicate Term(text: Text, kind: Kind, t: string) {
    Clean(text, t) && Whole(text, kind, t) && Shaped(text, kind, t) == t
  }

  predicate TermList(text: Text, kind: Kind, terms: seq<string>) {
    (forall t :: t in terms ==> Term(text, kind, t)) && DistinctBy(text.lower, terms)
  }

  lemma {:induction false} CleanedTerms(text: Text, kind: Kind, terms: seq<string>)
    requires forall t :: t in terms ==>
      Whole(text, kind, t) && (kind == Prefixes ==> text.upper(t) == t)
    ensures forall t :: t in Cleaned(text, terms) ==> Term(text, kind, t)
  {
    if terms != [] {
      var first := terms[0];
      assert first in terms;
      CleanedTerms(text, kind, terms[1..]);
      TrimCuts(text, kind, first);
      if kind == Prefixes { NothingToTrim(text, first); }
    }
  }

  lemma NothingToTrim(text: Text, s: string)
    requires Whole(text, Prefixes, s)
    ensures Trim(text, s) == s
  {}

  lemma {:induction false} FreshAreThere<K>(key: string -> K, known: set<K>, s: seq<string>)
    ensures forall t :: t in Fresh(key, known, s) ==> t in s
    decreases |s|
  {
    if s != [] {
      FreshAreThere(key, known, s[1..]);
      FreshAreThere(key, known + {key(s[0])}, s[1..]);
    }
  }

  lemma SplitMakesTermLists(text: Text, kind: Kind, value: string)
    requires WellBehaved(text)
    ensures TermList(text, kind, SplitTerms(text, kind, value))
  {
    var pieces := Pieces(text, kind, value);
    PiecesAreWhole(text, kind, value);
    var shaped := seq(|pieces|, i requires 0 <= i < |pieces| => Shaped(text, kind, pieces[i]));
    forall t | t in shaped ensures Whole(text, kind, t) && (kind == Prefixes ==> text.upper(t) == t) {
      var i :| 0 <= i < |shaped| && t == shaped[i];
      assert pieces[i] in pieces;
    }
    CleanedTerms(text, kind, shaped);
    FreshKeys(text.lower, {}, Cleaned(text, shaped));
    FreshAreThere(text.lower, {}, Cleaned(text, shaped));
  }

  lemma {:induction false} RunStopsAt(text: Text, kind: Kind, separators: bool, a: string, b: string)
    requires forall i :: 0 <= i < |a| ==> Separator(text, kind, a[i]) == separators
    requires b != "" ==> Separator(text, kind, b[0]) != separators
    ensures RunLength(text, kind, separators, a + b) == |a|
  {
    if a != "" {
      assert (a + b)[1..] == a[1..] + b;
      RunStopsAt(text, kind, separators, a[1..], b);
    } else {
      assert a + b == b;
    }
  }

  lemma FirstPiece(text: Text, kind: Kind, t: string, rest: string)
    requires Whole(text, kind, t) && rest != "" && !Separator(text, kind, rest[0])
    ensures Pieces(text, kind, t + ("\n" + rest)) == [t] + Pieces(text, kind, rest)
  {
    var all := t + ("\n" + rest);
    RunStopsAt(text, kind, false, t, "\n" + rest);
    RunStopsAt(text, kind, true, "\n", rest);
    assert all[|t|..] == "\n" + rest && all[..|t|] == t && ("\n" + rest)[1..] == rest;
  }

  lemma {:induction false} JoinedPieces(text: Text, kind: Kind, terms: seq<string>)
    requires terms != [] && forall t :: t in terms ==> Term(text, kind, t)
    ensures JoinTerms(terms) != "" && !Separator(text, kind, JoinTerms(terms)[0])
    ensures Pieces(text, kind, JoinTerms(terms)) == terms
    decreases |terms|
  {
    var t := terms[0];
    assert t in terms;
    if |terms| == 1 {
      RunStopsAt(text, kind, false, t, "");
      assert t + "" == t;
    } else {
      var rest := JoinTerms(terms[1..]);
      JoinedPieces(text, kind, terms[1..]);
      FirstPiece(text, kind, t, rest);
      Regroup(t, "\n", rest);
      assert terms == [t] + terms[1..];
    }
  }

  lemma Regroup(a: string, b: string, c: string)
    ensures a + b + c == a + (b + c)
  {}

  lemma {:induction false} CleanedKeeps(text: Text, terms: seq<string>)
    requires forall t :: t in terms ==> Clean(text, t)
    ensures Cleaned(text, terms) == terms
  {
    if terms != [] {
      assert Clean(text, terms[0]);
      TrimCuts(text, Keywords, terms[0]);
      CleanedKeeps(text, terms[1..]);
    }
  }

  lemma {:induction false} CleanedAreTrimmed(text: Text, terms: seq<string>)
    ensures forall t :: t in Cleaned(text, terms) ==> Clean(text, t)
  {
    if terms != [] {
      CleanedAreTrimmed(text, terms[1..]);
      TrimCuts(text, Keywords, terms[0]);
    }
  }

  /** `UniqueTerms` has nothing left to do on its own results. */
  lemma UniqueTermsIsIdempotent(text: Text, terms: seq<string>)
    ensures var once := Unique(text.lower, Cleaned(text, terms));
      Unique(text.lower, Cleaned(text, once)) == once
  {
    CleanedAreTrimmed(text, terms);
    FreshAreThere(text.lower, {}, Cleaned(text, terms));
    CleanedKeeps(text, Unique(text.lower, Cleaned(text, terms)));
    UniqueJoins(text.lower, Cleaned(text, terms), []);
  }

  /** A term list survives being written down as a string and read back. */
  lemma RoundTrip(text: Text, kind: Kind, terms: seq<string>)
    requires WellBehaved(text) && TermList(text, kind, terms)
    ensures SplitTerms(text, kind, JoinTerms(terms)) == terms
  {
    var pieces := Pieces(text, kind, JoinTerms(terms));
    var shaped := seq(|pieces|, i requires 0 <= i < |pieces| => Shaped(text, kind, pieces[i]));
    if terms == [] {
      assert shaped == [""] && [""][..0] == [];
      assert Cleaned(text, [""]) == [];
    } else {
      JoinedPieces(text, kind, terms);
      assert forall i :: 0 <= i < |terms| ==> terms[i] in terms;
      assert forall i :: 0 <= i < |terms| ==> Shaped(text, kind, terms[i]) == terms[i];
      assert shaped == terms;
      CleanedKeeps(text, terms);
      FreshOfNew(text.lower, {}, terms);
    }
  }

  /** The lists the splitter can produce are exactly the term lists. */
  lemma TermListsAreWhatSplittingGives(text: Text, kind: Kind, terms: seq<string>)
    requires WellBehaved(text)
    ensures TermList(text, kind, terms) <==> exists value :: SplitTerms(text, kind, value) == terms
  {
    if TermList(text, kind, terms) {
      RoundTrip(text, kind, terms);
    }
    forall value | SplitTerms(text, kind, value) == terms ensures TermList(text, kind, terms) {
      SplitMakesTermLists(text, kind, value);
    }
  }

  /** Terms hold none of the separators written out here, and prefixes are upper case. */
  lemma {:induction false} TermsAreClean(text: Text, kind: Kind, value: string, t: string)
    requires WellBehaved(text) && t in SplitTerms(text, kind, value)
    ensures t != "" && !text.space(t[0]) && !text.space(t[|t| - 1])
    ensures ',' !in t && ';' !in t && '\n' !in t && '\U{FF0C}' !in t && '\U{3001}' !in t && '\U{FF1B}' !in t
    ensures kind == Prefixes ==> text.upper(t) == t && forall c :: c in t ==> !text.space(c)
  {
    SplitMakesTermLists(text, kind, value);
    assert Term(text, kind, t);
    forall c | c in t ensures !Separator(text, kind, c) {
      var i :| 0 <= i < |t| && t[i] == c;
    }
    assert Separator(text, kind, ',') && Separator(text, kind, ';') && Separator(text, kind, '\n');
    assert Separator(text, kind, '\U{FF0C}') && Separator(text, kind, '\U{3001}') && Separator(text, kind, '\U{FF1B}');
  }

  /** And nothing else separates keywords: a text without any of the six is one keyword. */
  lemma {:induction false} NothingElseSeparates(text: Text, value: string)
    requires forall c :: c in value ==>
      c != ',' && c != ';' && c != '\n' && c != '\U{FF0C}' && c != '\U{3001}' && c != '\U{FF1B}'
    ensures SplitTerms(text, Keywords, value) == if Trim(text, value) == "" then [] else [Trim(text, value)]
  {
    assert forall i :: 0 <= i < |value| ==> value[i] in value && !Separator(text, Keywords, value[i]);
    RunStopsAt(text, Keywords, false, value, "");
    assert value + "" == value;
    assert Pieces(text, Keywords, value) == [value];
    var pieces := Pieces(text, Keywords, value);
    var shaped := seq(|pieces|, i requires 0 <= i < |pieces| => Shaped(text, Keywords, pieces[i]));
    assert shaped == [value] && [value][1..] == [];
    assert Cleaned(text, [value]) == if Trim(text, value) == "" then [] else [Trim(text, value)];
    FreshOfNew(text.lower, {}, Cleaned(text, [value]));
  }

  // ----- The pills --------------------------------------------------------------------------

  function CommitTerms(text: Text, kind: Kind, next: seq<string>): string {
    JoinTerms(SplitTerms(text, kind, JoinTerms(next)))
  }

  /** What is typed counts up to its first separator. */
  function PendingTerm(text: Text, kind: Kind, input: string): string {
    var terms := SplitTerms(text, kind, input);
    if terms == [] then "" else terms[0]
  }

  predicate Present(text: Text, terms: seq<string>, t: string) {
    exists i :: 0 <= i < |terms| && text.lower(terms[i]) == text.lower(t)
  }

  function AddInputTerm(text: Text, kind: Kind, value: string, input: string): string {
    var terms := SplitTerms(text, kind, value);
    var pending := PendingTerm(text, kind, input);
    if pending == "" || Present(text, terms, pending) then value
    else CommitTerms(text, kind, terms + [pending])
  }

  function Without(terms: seq<string>, t: string): seq<string> {
    if terms == [] then []
    else (if terms[0] == t then [] else [terms[0]]) + Without(terms[1..], t)
  }

  function RemoveTerm(text: Text, kind: Kind, allowEmpty: bool, value: string, t: string): string {
    var terms := SplitTerms(text, kind, value);
    if allowEmpty || |terms| > 1 then CommitTerms(text, kind, Without(terms, t)) else value
  }

  /** Through the string, adding a pill is appending to the list, and a term that is there
      in any case is not added again. */
  lemma AddAppends(text: Text, kind: Kind, value: string, input: string)
    requires WellBehaved(text)
    ensures var terms := SplitTerms(text, kind, value);
      var pending := PendingTerm(text, kind, input);
      SplitTerms(text, kind, AddInputTerm(text, kind, value, input))
        == if pending == "" || Present(text, terms, pending) then terms else terms + [pending]
  {
    var terms := SplitTerms(text, kind, value);
    var pending := PendingTerm(text, kind, input);
    SplitMakesTermLists(text, kind, value);
    SplitMakesTermLists(text, kind, input);
    if pending != "" && !Present(text, terms, pending) {
      assert pending in SplitTerms(text, kind, input);
      assert TermList(text, kind, terms + [pending]);
      RoundTrip(text, kind, terms + [pending]);
    }
  }

  lemma {:induction false} WithoutIsFilter(terms: seq<string>, t: string)
    ensures forall x :: x in Without(terms, t) <==> x in terms && x != t
    ensures t !in terms ==> Without(terms, t) == terms
  {
    if terms != [] {
      assert terms == [terms[0]] + terms[1..];
      WithoutIsFilter(terms[1..], t);
    }
  }

  lemma {:induction false} WithoutStaysDistinct<K>(key: string -> K, terms: seq<string>, t: string)
    requires DistinctBy(key, terms)
    ensures DistinctBy(key, Without(terms, t))
    ensures |Without(terms, t)| == |terms| - if t in terms then 1 else 0
  {
    if terms != [] {
      var rest := Without(terms[1..], t);
      assert terms == [terms[0]] + terms[1..];
      WithoutStaysDistinct(key, terms[1..], t);
      WithoutIsFilter(terms[1..], t);
      forall x | x in terms[1..] ensures key(x) != key(terms[0]) {
        var i :| 0 <= i < |terms[1..]| && terms[1..][i] == x;
        assert terms[i + 1] == x;
      }
      assert forall i :: 0 <= i < |rest| ==> rest[i] in rest;
    }
  }

  /** Removing a pill is filtering the list; the last term of a list that may not be empty stays. */
  lemma RemoveFilters(text: Text, kind: Kind, allowEmpty: bool, value: string, t: string)
    requires WellBehaved(text)
    ensures var terms := SplitTerms(text, kind, value);
      var left := SplitTerms(text, kind, RemoveTerm(text, kind, allowEmpty, value, t));
      && left == (if allowEmpty || |terms| > 1 then Without(terms, t) else terms)
      && (!allowEmpty && terms != [] ==> left != [])
  {
    var terms := SplitTerms(text, kind, value);
    SplitMakesTermLists(text, kind, value);
    if allowEmpty || |terms| > 1 {
      WithoutIsFilter(terms, t);
      WithoutStaysDistinct(text.lower, terms, t);
      RoundTrip(text, kind, Without(terms, t));
    }
  }

  /** Removing the pill that was just added gives the list there was. */
  lemma RemoveUndoesAdd(text: Text, kind: Kind, allowEmpty: bool, value: string, input: string)
    requires WellBehaved(text)
    requires var pending := PendingTerm(text, kind, input);
      pending != "" && !Present(text, SplitTerms(text, kind, value), pending)
    requires allowEmpty || SplitTerms(text, kind, value) != []
    ensures var added := AddInputTerm(text, kind, value, input);
      SplitTerms(text, kind, RemoveTerm(text, kind, allowEmpty, added, PendingTerm(text, kind, input)))
        == SplitTerms(text, kind, value)
  {
    var terms := SplitTerms(text, kind, value);
    var pending := PendingTerm(text, kind, input);
    AddAppends(text, kind, value, input);
    RemoveFilters(text, kind, allowEmpty, AddInputTerm(text, kind, value, input), pending);
    assert forall i :: 0 <= i < |terms| ==> terms[i] != pending;
    WithoutIsFilter(terms, pending);
    WithoutJoins(terms, [pending], pending);
  }

  lemma {:induction false} WithoutJoins(a: seq<string>, b: seq<string>, t: string)
    ensures Without(a + b, t) == Without(a, t) + Without(b, t)
  {
    if a == [] {
      assert a + b == b;
    } else {
      assert (a + b)[1..] == a[1..] + b;
      WithoutJoins(a[1..], b, t);
    }
  }
}

/** Escaping: five replacements in a row, one substitution per character, and the
    decoder that undoes them. */
module EscapeHtml {
  import opened Wrappers

  /** `value.replace(/c/g, by)` for one character. */
  function ReplaceAll(s: string, c: char, with: string): string {
    if s == "" then ""
    else (if s[0] == c then with else [s[0]]) + ReplaceAll(s[1..], c, with)
  }

  const PASSES: nat := 5

  /** The characters in the order of the replacements. */
  function Special(k: nat): char
    requires k < PASSES
  {
    if k == 0 then '&' else if k == 1 then '<' else if k == 2 then '>' else if k == 3 then '"' else '\''
  }

  function Named(k: nat): string
    requires k < PASSES
  {
    if k == 0 then "&amp;" else if k == 1 then "&lt;" else if k == 2 then "&gt;"
    else if k == 3 then "&quot;" else "&#39;"
  }

  /** The replacements from the k-th on, each over the result of the one before. */
  function EscapeFrom(s: string, k: nat): string
    requires k <= PASSES
    decreases PASSES - k
  {
    if k == PASSES then s else EscapeFrom(ReplaceAll(s, Special(k), Named(k)), k + 1)
  }

  function Escape(s: string): string { EscapeFrom(s, 0) }

  function EntityFrom(c: char, k: nat): string
    requires k <= PASSES
    decreases PASSES - k
  {
    if k == PASSES then [c] else if c == Special(k) then Named(k) else EntityFrom(c, k + 1)
  }

  function Entity(c: char): string { EntityFrom(c, 0) }

  /** One pass, one character at a time. */
  function Substituted(s: string): string {
    if s == "" then "" else Entity(s[0]) + Substituted(s[1..])
  }

  lemma {:induction false} ReplaceJoins(a: string, b: string, c: char, with: string)
    ensures ReplaceAll(a + b, c, with) == ReplaceAll(a, c, with) + ReplaceAll(b, c, with)
  {
    if a == "" {
      assert a + b == b;
    } else {
      assert (a + b)[1..] == a[1..] + b;
      ReplaceJoins(a[1..], b, c, with);
    }
  }

  lemma {:induction false} ReplaceAbsent(s: string, c: char, with: string)
    requires c !in s
    ensures ReplaceAll(s, c, with) == s
  {
    if s != "" { ReplaceAbsent(s[1..], c, with); }
  }

  lemma ReplaceOne(d: char, c: char, with: string)
    ensures ReplaceAll([d], c, with) == if d == c then with else [d]
  {
    assert [d][1..] == "";
  }

  lemma {:induction false} EscapeFromJoins(a: string, b: string, k: nat)
    requires k <= PASSES
    ensures EscapeFrom(a + b, k) == EscapeFrom(a, k) + EscapeFrom(b, k)
    decreases PASSES - k
  {
    if k < PASSES {
      ReplaceJoins(a, b, Special(k), Named(k));
      EscapeFromJoins(ReplaceAll(a, Special(k), Named(k)), ReplaceAll(b, Special(k), Named(k)), k + 1);
    }
  }

  /** What a replacement inserts holds nothing a later one looks for. */
  lemma NamedIsSafe(k: nat, j: nat)
    requires k < j < PASSES
    ensures Special(j) !in Named(k)
  {
    assert forall i :: 0 <= i < |Named(k)| ==>
      Named(k)[i] != '<' && Named(k)[i] != '>' && Named(k)[i] != '"' && Named(k)[i] != '\'';
  }

  lemma {:induction false} LaterPassesKeep(s: string, k: nat)
    requires k <= PASSES && forall j :: k <= j < PASSES ==> Special(j) !in s
    ensures EscapeFrom(s, k) == s
    decreases PASSES - k
  {
    if k < PASSES {
      ReplaceAbsent(s, Special(k), Named(k));
      LaterPassesKeep(s, k + 1);
    }
  }

  lemma NamedStays(k: nat)
    requires k < PASSES
    ensures EscapeFrom(Named(k), k + 1) == Named(k)
  {
    forall j | k + 1 <= j < PASSES ensures Special(j) !in Named(k) { NamedIsSafe(k, j); }
    LaterPassesKeep(Named(k), k + 1);
  }

  lemma {:induction false} EscapeOne(c: char, k: nat)
    requires k <= PASSES
    ensures EscapeFrom([c], k) == EntityFrom(c, k)
    decreases PASSES - k
  {
    if k < PASSES {
      ReplaceOne(c, Special(k), Named(k));
      if c == Special(k) {
        NamedStays(k);
      } else {
        EscapeOne(c, k + 1);
      }
    }
  }

  lemma {:induction false} EmptyEscapes(k: nat)
    requires k <= PASSES
    ensures EscapeFrom("", k) == ""
    decreases PASSES - k
  {
    if k < PASSES { EmptyEscapes(k + 1); }
  }

  /** The five passes are one substitution. */
  lemma {:induction false} EscapeIsOnePass(s: string)
    ensures Escape(s) == Substituted(s)
  {
    if s == "" {
      EmptyEscapes(0);
    } else {
      assert s == [s[0]] + s[1..];
      EscapeIsOnePass(s[1..]);
      EscapeOne(s[0], 0);
      EscapeFromJoins([s[0]], s[1..], 0);
    }
  }

  predicate Inert(c: char) { c != '<' && c != '>' && c != '"' && c != '\'' }

  lemma {:induction false} EntityIsInert(c: char, k: nat)
    requires k <= PASSES && (k == PASSES ==> Inert(c)) && forall j :: 1 <= j < k ==> c != Special(j)
    ensures forall d :: d in EntityFrom(c, k) ==> Inert(d)
    decreases PASSES - k
  {
    if k < PASSES {
      if c == Special(k) {
        assert forall i :: 0 <= i < |Named(k)| ==> Inert(Named(k)[i]);
      } else {
        assert k + 1 == PASSES ==> c != Special(1) && c != Special(2) && c != Special(3) && c != Special(4);
        EntityIsInert(c, k + 1);
      }
    }
  }

  lemma {:induction false} SubstitutedIsInert(s: string)
    ensures forall c :: c in Substituted(s) ==> Inert(c)
  {
    if s != "" {
      SubstitutedIsInert(s[1..]);
      EntityIsInert(s[0], 0);
    }
  }

  /** No raw bracket or quote is left. */
  lemma EscapeIsInert(s: string)
    ensures forall c :: c in Escape(s) ==> c != '<' && c != '>' && c != '"' && c != '\''
  {
    EscapeIsOnePass(s);
    SubstitutedIsInert(s);
    forall c | c in Escape(s) ensures c != '<' && c != '>' && c != '"' && c != '\'' { assert Inert(c); }
  }

  // ----- Decoding ----------------------------------------------------------------------

  /** The entity a text starts with, and how long it is. */
  function EntityAt(s: string): Option<(char, nat)> {
    if "&amp;" <= s then Some(('&', 5))
    else if "&lt;" <= s then Some(('<', 4))
    else if "&gt;" <= s then Some(('>', 4))
    else if "&quot;" <= s then Some(('"', 6))
    else if "&#39;" <= s then Some(('\'', 5))
    else None
  }

  /** Left to right: an entity is its character, anything else is itself. */
  function Unescape(s: string): string
    decreases |s|
  {
    if s == "" then ""
    else if EntityAt(s).Some? then [EntityAt(s).value.0] + Unescape(s[EntityAt(s).value.1..])
    else [s[0]] + Unescape(s[1..])
  }

  lemma EntityIsRead(c: char, rest: string)
    ensures Unescape(Entity(c) + rest) == [c] + Unescape(rest)
  {
    var s := Entity(c) + rest;
    assert s[|Entity(c)|..] == rest;
    assert Entity(c) <= s;
    EntityCases(c);
    if Inert(c) && c != '&' {
      assert s[0] == c && s[1..] == rest;
    } else {
      EntityAtStart(c, rest);
    }
  }

  lemma EntityCases(c: char)
    ensures Entity(c) ==
      if c == '&' then "&amp;" else if c == '<' then "&lt;" else if c == '>' then "&gt;"
      else if c == '"' then "&quot;" else if c == '\'' then "&#39;" else [c]
  {
    assert EntityFrom(c, 0) == if c == '&' then "&amp;" else EntityFrom(c, 1);
    assert EntityFrom(c, 1) == if c == '<' then "&lt;" else EntityFrom(c, 2);
    assert EntityFrom(c, 2) == if c == '>' then "&gt;" else EntityFrom(c, 3);
    assert EntityFrom(c, 3) == if c == '"' then "&quot;" else EntityFrom(c, 4);
    assert EntityFrom(c, 4) == if c == '\'' then "&#39;" else EntityFrom(c, 5);
  }

  lemma EntityAtStart(c: char, rest: string)
    requires !Inert(c) || c == '&'
    ensures EntityAt(Entity(c) + rest) == Some((c, |Entity(c)|))
  {
    EntityCases(c);
    var s := Entity(c) + rest;
    assert s[1] == Entity(c)[1] && s[2] == Entity(c)[2];
  }

  lemma {:induction false} UnescapeSubstituted(s: string)
    ensures Unescape(Substituted(s)) == s
    decreases |s|
  {
    if s != "" {
      UnescapeSubstituted(s[1..]);
      EntityIsRead(s[0], Substituted(s[1..]));
      assert s == [s[0]] + s[1..];
    }
  }

  /** Decoding undoes escaping. */
  lemma UnescapeEscape(s: string)
    ensures Unescape(Escape(s)) == s
  {
    EscapeIsOnePass(s);
    UnescapeSubstituted(s);
  }

  /** So different texts stay different. */
  lemma EscapeIsInjective(a: string, b: string)
    requires Escape(a) == Escape(b)
    ensures a == b
  {
    UnescapeEscape(a);
    UnescapeEscape(b);
  }
}

/**
 * The fragment of Python's `re` syntax that the counterparty table uses,
 * with `re.search(pattern, text, re.IGNORECASE)` as a boolean.
 *
 * A regex is a tree of literals, zero-width word boundaries (`\b`),
 * whitespace classes (`\s`, `\s+`), the lazy wildcard (`.*?`),
 * concatenation and alternation; an optional group `(?:x)?` is the
 * alternation of `x` with the empty regex.  Only whether a match exists is
 * observable to the classifier, so the matcher decides existence: lazy and
 * greedy repetition, and the order of alternatives, cannot change it.
 */
module Regex {

  datatype Regex =
    | Empty                       // matches the empty string
    | Lit(s: string)              // the characters of s, compared case-insensitively
    | Boundary                    // \b
    | Space                       // \s
    | Spaces                      // \s+
    | AnyLazy                     // .*?
    | Cat(left: Regex, right: Regex)
    | Alt(left: Regex, right: Regex)

  /** `(?:r)?` */
  function Opt(r: Regex): Regex
  {
    Alt(r, Empty)
  }

  // ---------------------------------------------------------------------
  // Characters

  /** ASCII upper case to lower case; every other character is unchanged. */
  function Fold(c: char): (d: char)
    ensures 'A' <= c <= 'Z' ==> 'a' <= d <= 'z' && d as int - 'a' as int == c as int - 'A' as int
    ensures !('A' <= c <= 'Z') ==> d == c
  {
    if 'A' <= c <= 'Z' then (c as int + 32) as char else c
  }

  /**
   * The text lower-cased: no upper-case letter is left, and the matcher
   * cannot tell the result from the original.
   */
  function FoldAll(t: string): (u: string)
    ensures forall k :: 0 <= k < |u| ==> !('A' <= u[k] <= 'Z')
    ensures SameFold(t, u)
  {
    seq(|t|, k requires 0 <= k < |t| => Fold(t[k]))
  }

  /** `\w` restricted to ASCII: letters, digits and the underscore. */
  predicate IsWord(c: char)
  {
    ('a' <= c <= 'z') || ('A' <= c <= 'Z') || ('0' <= c <= '9') || c == '_'
  }

  /** `\s`: the characters Python's str.isspace accepts. */
  predicate IsSpace(c: char)
  {
    ('\t' <= c <= '\r') || ('\U{1C}' <= c <= ' ')
    || c == '\U{85}' || c == '\U{A0}' || c == '\U{1680}'
    || ('\U{2000}' <= c <= '\U{200A}') || c == '\U{2028}' || c == '\U{2029}'
    || c == '\U{202F}' || c == '\U{205F}' || c == '\U{3000}'
  }

  /** `\b` at position i: exactly one of the characters around i is a word character. */
  predicate IsBoundary(t: string, i: nat)
    requires i <= |t|
  {
    (i > 0 && IsWord(t[i - 1])) != (i < |t| && IsWord(t[i]))
  }

  /** s occurs at position i of t, ignoring ASCII case. */
  predicate LitAt(s: string, t: string, i: nat)
    ensures LitAt(s, t, i) ==> i + |s| <= |t|
    decreases |s|
  {
    i + |s| <= |t| && (|s| == 0 || (Fold(t[i]) == Fold(s[0]) && LitAt(s[1..], t, i + 1)))
  }

  lemma FoldIdempotent(c: char)
    ensures Fold(Fold(c)) == Fold(c)
    ensures IsWord(Fold(c)) == IsWord(c)
    ensures IsSpace(Fold(c)) == IsSpace(c)
    ensures (Fold(c) == '\n') == (c == '\n')
  {
  }

  // ---------------------------------------------------------------------
  // Matching

  function Size(r: Regex): nat
  {
    match r
    case Cat(a, b) => 1 + Size(a) + Size(b)
    case Alt(a, b) => 1 + Size(a) + Size(b)
    case _ => 1
  }

  /** The regexes still to be matched, innermost first. */
  datatype Stack = Done | Then(top: Regex, below: Stack)

  function StackSize(k: Stack): nat
  {
    match k
    case Done => 0
    case Then(r, below) => Size(r) + StackSize(below)
  }

  /**
   * The regexes of the stack, one after the other, match some prefix of
   * t[i..]; the characters before i are the context `\b` looks at.
   */
  predicate MatchStack(k: Stack, t: string, i: nat)
    requires i <= |t|
    decreases |t| - i, StackSize(k)
  {
    match k
    case Done => true
    case Then(r, rest) =>
      match r
      case Empty => MatchStack(rest, t, i)
      case Lit(s) => LitAt(s, t, i) && MatchStack(rest, t, i + |s|)
      case Boundary => IsBoundary(t, i) && MatchStack(rest, t, i)
      case Space => i < |t| && IsSpace(t[i]) && MatchStack(rest, t, i + 1)
      case Spaces =>
        i < |t| && IsSpace(t[i])
        && (MatchStack(rest, t, i + 1) || MatchStack(k, t, i + 1))
      case AnyLazy =>
        MatchStack(rest, t, i)
        || (i < |t| && t[i] != '\n' && MatchStack(k, t, i + 1))
      case Cat(a, b) =>
        assert StackSize(Then(a, Then(b, rest))) < StackSize(k);
        MatchStack(Then(a, Then(b, rest)), t, i)
      case Alt(a, b) => MatchStack(Then(a, rest), t, i) || MatchStack(Then(b, rest), t, i)
  }

  /** r matches some substring of t that begins at position i. */
  predicate MatchAt(r: Regex, t: string, i: nat)
    requires i <= |t|
  {
    MatchStack(Then(r, Done), t, i)
  }

  /** The search loop of re.search: try every start position from i to |t|. */
  predicate SearchFrom(r: Regex, t: string, i: nat)
    requires i <= |t|
    decreases |t| - i
  {
    MatchAt(r, t, i) || (i < |t| && SearchFrom(r, t, i + 1))
  }

  /** `re.search(r, t, re.IGNORECASE)` is not None. */
  predicate Search(r: Regex, t: string)
  {
    SearchFrom(r, t, 0)
  }

  // ---------------------------------------------------------------------
  // Properties of the matcher

  /** The search succeeds exactly when the regex matches at some start position. */
  lemma {:induction false} SearchFromSpec(r: Regex, t: string, i: nat)
    requires i <= |t|
    ensures SearchFrom(r, t, i) <==> exists j :: i <= j <= |t| && MatchAt(r, t, j)
    decreases |t| - i
  {
    if i < |t| {
      SearchFromSpec(r, t, i + 1);
      if SearchFrom(r, t, i + 1) {
        var j :| i + 1 <= j <= |t| && MatchAt(r, t, j);
        assert i <= j <= |t| && MatchAt(r, t, j);
      }
    }
  }

  lemma SearchSpec(r: Regex, t: string)
    ensures Search(r, t) <==> exists j :: 0 <= j <= |t| && MatchAt(r, t, j)
  {
    SearchFromSpec(r, t, 0);
  }

  /** Two texts that agree after folding. */
  predicate SameFold(t: string, u: string)
  {
    |t| == |u| && forall k :: 0 <= k < |t| ==> Fold(t[k]) == Fold(u[k])
  }

  /** re.IGNORECASE: matching only sees the folded text. */
  lemma {:induction false} MatchStackIgnoresCase(k: Stack, t: string, u: string, i: nat)
    requires SameFold(t, u) && i <= |t|
    ensures MatchStack(k, t, i) == MatchStack(k, u, i)
    decreases |t| - i, StackSize(k)
  {
    match k
    case Done =>
    case Then(r, rest) =>
      match r
      case Empty =>
        MatchStackIgnoresCase(rest, t, u, i);
      case Lit(s) =>
        LitAtIgnoresCase(s, t, u, i);
        if i + |s| <= |t| { MatchStackIgnoresCase(rest, t, u, i + |s|); }
      case Boundary =>
        if i > 0 { FoldIdempotent(t[i - 1]); FoldIdempotent(u[i - 1]); }
        if i < |t| { FoldIdempotent(t[i]); FoldIdempotent(u[i]); }
        MatchStackIgnoresCase(rest, t, u, i);
      case Space =>
        if i < |t| {
          FoldIdempotent(t[i]); FoldIdempotent(u[i]);
          MatchStackIgnoresCase(rest, t, u, i + 1);
        }
      case Spaces =>
        if i < |t| {
          FoldIdempotent(t[i]); FoldIdempotent(u[i]);
          MatchStackIgnoresCase(rest, t, u, i + 1);
          MatchStackIgnoresCase(k, t, u, i + 1);
        }
      case AnyLazy =>
        MatchStackIgnoresCase(rest, t, u, i);
        if i < |t| {
          FoldIdempotent(t[i]); FoldIdempotent(u[i]);
          MatchStackIgnoresCase(k, t, u, i + 1);
        }
      case Cat(a, b) =>
        assert StackSize(Then(a, Then(b, rest))) < StackSize(k);
        MatchStackIgnoresCase(Then(a, Then(b, rest)), t, u, i);
      case Alt(a, b) =>
        MatchStackIgnoresCase(Then(a, rest), t, u, i);
        MatchStackIgnoresCase(Then(b, rest), t, u, i);
  }

  lemma {:induction false} LitAtIgnoresCase(s: string, t: string, u: string, i: nat)
    requires SameFold(t, u)
    ensures LitAt(s, t, i) == LitAt(s, u, i)
    decreases |s|
  {
    if |s| > 0 && i < |t| {
      LitAtIgnoresCase(s[1..], t, u, i + 1);
    }
  }

  lemma {:induction false} SearchFromIgnoresCase(r: Regex, t: string, u: string, i: nat)
    requires SameFold(t, u) && i <= |t|
    ensures SearchFrom(r, t, i) == SearchFrom(r, u, i)
    decreases |t| - i
  {
    MatchStackIgnoresCase(Then(r, Done), t, u, i);
    if i < |t| { SearchFromIgnoresCase(r, t, u, i + 1); }
  }

  lemma SearchIgnoresCase(r: Regex, t: string, u: string)
    requires SameFold(t, u)
    ensures Search(r, t) == Search(r, u)
  {
    SearchFromIgnoresCase(r, t, u, 0);
  }

  /** LitAt against its pointwise reading: every character agrees with the literal's after folding. */
  lemma {:induction false} LitAtChars(s: string, t: string, i: nat)
    ensures LitAt(s, t, i) <==> i + |s| <= |t| && forall k :: 0 <= k < |s| ==> Fold(t[i + k]) == Fold(s[k])
    decreases |s|
  {
    if |s| > 0 && i + |s| <= |t| {
      LitAtChars(s[1..], t, i + 1);
      if LitAt(s, t, i) {
        forall k | 0 <= k < |s| ensures Fold(t[i + k]) == Fold(s[k]) {
          if k > 0 { assert s[k] == s[1..][k - 1]; }
        }
      } else if Fold(t[i]) == Fold(s[0]) {
        var k :| 0 <= k < |s| - 1 && Fold(t[i + 1 + k]) != Fold(s[1..][k]);
        assert Fold(t[i + (k + 1)]) != Fold(s[k + 1]);
      }
    }
  }

  /** A literal that occurs also has each of its prefixes occurring at the same place. */
  lemma LitAtPrefix(s: string, n: nat, t: string, i: nat)
    requires n <= |s| && LitAt(s, t, i)
    ensures LitAt(s[..n], t, i)
  {
    LitAtChars(s, t, i);
    LitAtChars(s[..n], t, i);
  }

  /** `.*?` followed by `\b` always succeeds right after a word character. */
  lemma {:induction false} LazyReachesBoundary(t: string, i: nat)
    requires 0 < i <= |t| && IsWord(t[i - 1])
    ensures MatchStack(Then(AnyLazy, Then(Boundary, Done)), t, i)
    decreases |t| - i
  {
    if !IsBoundary(t, i) {
      LazyReachesBoundary(t, i + 1);
    }
  }

  // One step of the matcher, for proofs about particular patterns.

  lemma MatchAlt(a: Regex, b: Regex, t: string, i: nat)
    requires i <= |t|
    ensures MatchAt(Alt(a, b), t, i) == (MatchAt(a, t, i) || MatchAt(b, t, i))
  {
  }

  lemma MatchLit(s: string, t: string, i: nat)
    requires i <= |t|
    ensures MatchAt(Lit(s), t, i) == LitAt(s, t, i)
  {
    if LitAt(s, t, i) {
      assert MatchStack(Done, t, i + |s|);
    }
  }

  lemma MatchLitThen(s: string, r: Regex, t: string, i: nat)
    requires i <= |t|
    ensures MatchAt(Cat(Lit(s), r), t, i) == (LitAt(s, t, i) && MatchAt(r, t, i + |s|))
  {
    assert MatchStack(Then(Cat(Lit(s), r), Done), t, i) == MatchStack(Then(Lit(s), Then(r, Done)), t, i);
  }

  lemma MatchBoundaryThen(r: Regex, t: string, i: nat)
    requires i <= |t|
    ensures MatchAt(Cat(Boundary, r), t, i) == (IsBoundary(t, i) && MatchAt(r, t, i))
  {
    assert MatchStack(Then(Cat(Boundary, r), Done), t, i) == MatchStack(Then(Boundary, Then(r, Done)), t, i);
  }

  lemma MatchLitBoundary(s: string, t: string, i: nat)
    requires i <= |t|
    ensures MatchAt(Cat(Lit(s), Boundary), t, i) == (LitAt(s, t, i) && IsBoundary(t, i + |s|))
  {
    MatchLitThen(s, Boundary, t, i);
    if LitAt(s, t, i) {
      assert MatchStack(Then(Boundary, Done), t, i + |s|) == IsBoundary(t, i + |s|);
    }
  }

  lemma MatchOptSkipped(r: Regex, rest: Regex, t: string, i: nat)
    requires i <= |t| && MatchAt(rest, t, i)
    ensures MatchAt(Cat(Opt(r), rest), t, i)
  {
    assert MatchStack(Then(Empty, Then(rest, Done)), t, i);
    assert MatchStack(Then(Opt(r), Then(rest, Done)), t, i);
  }

  /** `(?:s)?` before rest: rest right here, or s and then rest after it. */
  lemma MatchOptLitThen(s: string, rest: Regex, t: string, i: nat)
    requires i <= |t|
    ensures MatchAt(Cat(Opt(Lit(s)), rest), t, i)
            == (MatchAt(rest, t, i) || (LitAt(s, t, i) && MatchAt(rest, t, i + |s|)))
  {
    assert MatchStack(Then(Cat(Opt(Lit(s)), rest), Done), t, i)
        == MatchStack(Then(Opt(Lit(s)), Then(rest, Done)), t, i);
    assert MatchStack(Then(Opt(Lit(s)), Then(rest, Done)), t, i)
        == (MatchStack(Then(Lit(s), Then(rest, Done)), t, i) || MatchStack(Then(Empty, Then(rest, Done)), t, i));
    assert MatchStack(Then(Empty, Then(rest, Done)), t, i) == MatchStack(Then(rest, Done), t, i);
    assert MatchStack(Then(Lit(s), Then(rest, Done)), t, i)
        == (LitAt(s, t, i) && MatchStack(Then(rest, Done), t, i + |s|));
  }

  lemma MatchOptEmpty(r: Regex, t: string, i: nat)
    requires i <= |t|
    ensures MatchAt(Opt(r), t, i)
  {
    assert MatchStack(Then(Empty, Done), t, i);
  }

  /** A literal made of two pieces occurs where the first occurs followed by the second. */
  lemma {:induction false} LitAtConcat(a: string, b: string, t: string, i: nat)
    ensures LitAt(a + b, t, i) <==> LitAt(a, t, i) && LitAt(b, t, i + |a|)
    decreases |a|
  {
    if |a| == 0 {
      assert a + b == b;
    } else {
      assert (a + b)[0] == a[0];
      assert (a + b)[1..] == a[1..] + b;
      LitAtConcat(a[1..], b, t, i + 1);
    }
  }

  // ---------------------------------------------------------------------
  // Matching at the end of the text

  /** r can match without consuming a character (a `\b` counted as satisfiable). */
  predicate MayBeEmpty(r: Regex)
  {
    match r
    case Empty => true
    case Lit(s) => |s| == 0
    case Boundary => true
    case Space => false
    case Spaces => false
    case AnyLazy => true
    case Cat(a, b) => MayBeEmpty(a) && MayBeEmpty(b)
    case Alt(a, b) => MayBeEmpty(a) || MayBeEmpty(b)
  }

  predicate AllMayBeEmpty(k: Stack)
  {
    match k
    case Done => true
    case Then(r, rest) => MayBeEmpty(r) && AllMayBeEmpty(rest)
  }

  /** With no text left, only a regex that can match the empty string matches. */
  lemma {:induction false} MatchStackAtEnd(k: Stack, t: string)
    requires MatchStack(k, t, |t|)
    ensures AllMayBeEmpty(k)
    decreases StackSize(k)
  {
    match k
    case Done =>
    case Then(r, rest) =>
      match r
      case Empty => MatchStackAtEnd(rest, t);
      case Lit(s) => MatchStackAtEnd(rest, t);
      case Boundary => MatchStackAtEnd(rest, t);
      case AnyLazy => MatchStackAtEnd(rest, t);
      case Cat(a, b) =>
        assert StackSize(Then(a, Then(b, rest))) < StackSize(k);
        MatchStackAtEnd(Then(a, Then(b, rest)), t);
      case Alt(a, b) =>
        if MatchStack(Then(a, rest), t, |t|) {
          MatchStackAtEnd(Then(a, rest), t);
        } else {
          MatchStackAtEnd(Then(b, rest), t);
        }
  }

  lemma MatchAtEnd(r: Regex, t: string)
    ensures MatchAt(r, t, |t|) ==> MayBeEmpty(r)
  {
    if MatchAt(r, t, |t|) {
      MatchStackAtEnd(Then(r, Done), t);
    }
  }
}

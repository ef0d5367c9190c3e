/** The JavaScript string operations the route handlers rely on:
    `trim`, `split` on a one-character separator, and `join`. */
module JsString {

  /** The code points `String.prototype.trim` strips: the ECMAScript
      WhiteSpace and LineTerminator code points. */
  predicate IsWhiteSpace(c: char) {
    || c == '\t' || c == '\n' || c == '\U{000B}' || c == '\U{000C}' || c == '\r' || c == ' '
    || c == '\U{00A0}' || c == '\U{1680}' || ('\U{2000}' <= c <= '\U{200A}')
    || c == '\U{2028}' || c == '\U{2029}' || c == '\U{202F}' || c == '\U{205F}'
    || c == '\U{3000}' || c == '\U{FEFF}'
  }

  predicate AllWhiteSpace(s: string) {
    forall i :: 0 <= i < |s| ==> IsWhiteSpace(s[i])
  }

  /** Neither end of `s` is whitespace. */
  predicate Trimmed(s: string) {
    |s| == 0 || (!IsWhiteSpace(s[0]) && !IsWhiteSpace(s[|s| - 1]))
  }

  /** `s.trimStart()`: the suffix left after dropping leading whitespace. */
  function TrimStart(s: string): (r: string)
    ensures |r| <= |s| && r == s[|s| - |r|..]
    ensures AllWhiteSpace(s[..|s| - |r|])
    ensures |r| > 0 ==> !IsWhiteSpace(r[0])
  {
    if |s| > 0 && IsWhiteSpace(s[0]) then TrimStart(s[1..]) else s
  }

  /** `s.trimEnd()`: the prefix left after dropping trailing whitespace. */
  function TrimEnd(s: string): (r: string)
    ensures |r| <= |s| && r == s[..|r|]
    ensures AllWhiteSpace(s[|r|..])
    ensures |r| > 0 ==> !IsWhiteSpace(r[|r| - 1])
  {
    if |s| > 0 && IsWhiteSpace(s[|s| - 1]) then TrimEnd(s[..|s| - 1]) else s
  }

  /** `r` is `s` with `k` whitespace code points cut from the front and only
      whitespace cut from the back. */
  predicate CutFrom(s: string, k: nat, r: string) {
    && k + |r| <= |s|
    && r == s[k..k + |r|]
    && AllWhiteSpace(s[..k])
    && AllWhiteSpace(s[k + |r|..])
  }

  /** `r` has no whitespace at either end and is `s` with only whitespace cut
      away on either side. */
  ghost predicate IsTrimOf(s: string, r: string) {
    Trimmed(r) && exists k: nat | k <= |s| :: CutFrom(s, k, r)
  }

  /** `s.trim()`. */
  function Trim(s: string): (r: string)
    ensures IsTrimOf(s, r)
  {
    var t := TrimStart(s);
    var r := TrimEnd(t);
    TrimIsCut(s, t, r);
    r
  }

  lemma {:induction false} TrimIsCut(s: string, t: string, r: string)
    requires t == TrimStart(s) && r == TrimEnd(t)
    ensures Trimmed(r)
    ensures CutFrom(s, |s| - |t|, r)
  {
    CutOfPrefixOfSuffix(s, |s| - |t|, t, r);
  }

  /** Cutting leading whitespace and then trailing whitespace leaves a
      trimmed infix. */
  lemma {:induction false} CutOfPrefixOfSuffix(s: string, k: nat, t: string, r: string)
    requires k <= |s| && t == s[k..] && |r| <= |t| && r == t[..|r|]
    requires AllWhiteSpace(s[..k]) && AllWhiteSpace(t[|r|..])
    requires |t| > 0 ==> !IsWhiteSpace(t[0])
    requires |r| > 0 ==> !IsWhiteSpace(r[|r| - 1])
    ensures Trimmed(r) && CutFrom(s, k, r)
  {
    PrefixOfSuffix(s, k, t, r);
    WhiteSpaceAfterCut(s, k, t, r);
    assert |r| > 0 ==> r[0] == t[0];
  }

  lemma {:induction false} WhiteSpaceAfterCut(s: string, k: nat, t: string, r: string)
    requires k + |t| == |s| && |r| <= |t| && s[k + |r|..] == t[|r|..]
    requires AllWhiteSpace(t[|r|..])
    ensures AllWhiteSpace(s[k + |r|..])
  {
  }

  /** A prefix of a suffix is an infix, followed by the rest of the suffix. */
  lemma {:induction false} PrefixOfSuffix<T>(s: seq<T>, k: nat, t: seq<T>, r: seq<T>)
    requires k <= |s| && t == s[k..] && |r| <= |t| && r == t[..|r|]
    ensures k + |r| <= |s| && r == s[k..k + |r|] && s[k + |r|..] == t[|r|..]
  {
  }

  lemma {:induction false} TrimStartOfWhiteSpacePrefix(lead: string, x: string)
    requires AllWhiteSpace(lead)
    requires |x| == 0 || !IsWhiteSpace(x[0])
    ensures TrimStart(lead + x) == x
    decreases |lead|
  {
    if |lead| == 0 {
      assert lead + x == x;
    } else {
      assert (lead + x)[1..] == lead[1..] + x;
      TrimStartOfWhiteSpacePrefix(lead[1..], x);
    }
  }

  lemma {:induction false} TrimEndOfWhiteSpaceSuffix(x: string, trail: string)
    requires AllWhiteSpace(trail)
    requires |x| == 0 || !IsWhiteSpace(x[|x| - 1])
    ensures TrimEnd(x + trail) == x
    decreases |trail|
  {
    if |trail| == 0 {
      assert x + trail == x;
    } else {
      assert (x + trail)[..|x + trail| - 1] == x + trail[..|trail| - 1];
      TrimEndOfWhiteSpaceSuffix(x, trail[..|trail| - 1]);
    }
  }

  /** Trim is determined by its contract: whatever has no outer whitespace and
      is surrounded only by whitespace is exactly what `trim` returns. */
  lemma {:induction false} TrimCharacterization(lead: string, core: string, trail: string)
    requires AllWhiteSpace(lead) && AllWhiteSpace(trail) && Trimmed(core)
    ensures Trim(lead + core + trail) == core
  {
    if |core| == 0 {
      assert lead + core + trail == (lead + trail) + "";
      TrimStartOfWhiteSpacePrefix(lead + trail, "");
    } else {
      assert lead + core + trail == lead + (core + trail);
      TrimStartOfWhiteSpacePrefix(lead, core + trail);
      TrimEndOfWhiteSpaceSuffix(core, trail);
    }
  }

  /** A string with no whitespace at either end is its own trim. */
  lemma {:induction false} TrimOfTrimmed(s: string)
    requires Trimmed(s)
    ensures Trim(s) == s
  {
    assert TrimStart(s) == s;
  }

  lemma {:induction false} TrimIdempotent(s: string)
    ensures Trim(Trim(s)) == Trim(s)
  {
    TrimOfTrimmed(Trim(s));
  }

  /** An infix of a sequence avoiding `x` avoids `x` too. */
  lemma {:induction false} InfixAvoids<T>(s: seq<T>, k: nat, r: seq<T>, x: T)
    requires k + |r| <= |s| && r == s[k..k + |r|] && x !in s
    ensures x !in r
  {
    forall j | 0 <= j < |r|
      ensures r[j] != x
    {
      assert r[j] == s[k + j];
    }
  }

  /** `s.split(sep)` for a one-character separator: the pieces between
      consecutive separators, one more piece than there are separators. */
  function Split(s: string, sep: char): (parts: seq<string>)
    ensures |parts| == multiset(s)[sep] + 1
    ensures forall i :: 0 <= i < |parts| ==> sep !in parts[i]
  {
    if |s| == 0 then [""]
    else
      var rest := Split(s[1..], sep);
      assert s == [s[0]] + s[1..];
      if s[0] == sep then [""] + rest
      else [[s[0]] + rest[0]] + rest[1..]
  }

  /** `parts.join(sep)`. */
  function Join(parts: seq<string>, sep: char): string {
    if |parts| == 0 then ""
    else if |parts| == 1 then parts[0]
    else parts[0] + [sep] + Join(parts[1..], sep)
  }

  /** Joining the pieces of a split with the same separator gives back the string. */
  lemma {:induction false} JoinSplit(s: string, sep: char)
    ensures Join(Split(s, sep), sep) == s
  {
    if |s| > 0 {
      var rest := Split(s[1..], sep);
      JoinSplit(s[1..], sep);
      SplitStep(s, sep);
      if s[0] == sep {
        JoinAfterEmpty(rest, sep);
      } else {
        JoinExtendFirst(s[0], rest, sep);
      }
      assert Join(Split(s, sep), sep) == [s[0]] + Join(rest, sep);
      assert [s[0]] + s[1..] == s;
    }
  }

  /** One step of the split: the first character either ends the first piece
      or joins it. */
  lemma {:induction false} SplitStep(s: string, sep: char)
    requires |s| > 0
    ensures s[0] == sep ==> Split(s, sep) == [""] + Split(s[1..], sep)
    ensures s[0] != sep ==> Split(s, sep) == [[s[0]] + Split(s[1..], sep)[0]] + Split(s[1..], sep)[1..]
  {
  }

  /** A leading empty piece contributes just one separator. */
  lemma {:induction false} JoinAfterEmpty(rest: seq<string>, sep: char)
    requires |rest| > 0
    ensures Join([""] + rest, sep) == [sep] + Join(rest, sep)
  {
    assert ([""] + rest)[1..] == rest;
  }

  /** Prepending a character to the first piece prepends it to the join. */
  lemma {:induction false} JoinExtendFirst(c: char, rest: seq<string>, sep: char)
    requires |rest| > 0
    ensures Join([[c] + rest[0]] + rest[1..], sep) == [c] + Join(rest, sep)
  {
    var parts := [[c] + rest[0]] + rest[1..];
    assert parts[1..] == rest[1..];
    if |rest| > 1 {
      assert ([c] + rest[0]) + [sep] + Join(rest[1..], sep) == [c] + (rest[0] + [sep] + Join(rest[1..], sep));
    }
  }

  lemma {:induction false} SplitSeparatorFree(p: string, sep: char)
    requires sep !in p
    ensures Split(p, sep) == [p]
  {
    if |p| > 0 {
      SplitSeparatorFree(p[1..], sep);
      assert [p[0]] + p[1..] == p;
    }
  }

  lemma {:induction false} SplitAfterPiece(p: string, sep: char, t: string)
    requires sep !in p
    ensures Split(p + [sep] + t, sep) == [p] + Split(t, sep)
  {
    if |p| == 0 {
      assert p + [sep] + t == [sep] + t;
      assert ([sep] + t)[1..] == t;
    } else {
      var s := p + [sep] + t;
      assert s[1..] == p[1..] + [sep] + t;
      SplitAfterPiece(p[1..], sep, t);
      assert [p[0]] + p[1..] == p;
    }
  }

  /** Splitting a join of separator-free pieces gives back the pieces. */
  lemma {:induction false} SplitJoin(parts: seq<string>, sep: char)
    requires |parts| > 0
    requires forall i :: 0 <= i < |parts| ==> sep !in parts[i]
    ensures Split(Join(parts, sep), sep) == parts
  {
    if |parts| == 1 {
      SplitSeparatorFree(parts[0], sep);
    } else {
      SplitJoin(parts[1..], sep);
      SplitAfterPiece(parts[0], sep, Join(parts[1..], sep));
      assert [parts[0]] + parts[1..] == parts;
    }
  }
}

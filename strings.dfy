/**
 * The JavaScript string operations the extension relies on, stated over `seq<char>`:
 * literal global replacement (`s.replace(/tok/g, v)`), `split`/`join`, `trim`, and the
 * decimal rendering of a non-negative integer (`String(n)`).
 */
module Strings {

  /** `t` occurs in `s` as a contiguous piece. */
  predicate Contains(s: string, t: string)
    decreases |s|
  {
    |t| <= |s| && (s[..|t|] == t || (0 < |s| && Contains(s[1..], t)))
  }

  /**
   * `s.replace(/tok/g, v)` for a literal, non-empty pattern whose replacement is taken
   * literally: scan left to right, replace each occurrence and resume after it.
   */
  function ReplaceAll(s: string, tok: string, v: string): string
    requires tok != []
    decreases |s|
  {
    if |s| < |tok| then s
    else if s[..|tok|] == tok then v + ReplaceAll(s[|tok|..], tok, v)
    else [s[0]] + ReplaceAll(s[1..], tok, v)
  }

  /** `s.split(tok)`: the pieces between the occurrences that `ReplaceAll` finds. */
  function SplitOn(s: string, tok: string): (pieces: seq<string>)
    requires tok != []
    ensures |pieces| > 0
    decreases |s|
  {
    if |s| < |tok| then [s]
    else if s[..|tok|] == tok then [[]] + SplitOn(s[|tok|..], tok)
    else
      var rest := SplitOn(s[1..], tok);
      [[s[0]] + rest[0]] + rest[1..]
  }

  /** `parts.join(sep)`; the empty array joins to the empty string. */
  function JoinWith(parts: seq<string>, sep: string): string
  {
    if |parts| == 0 then []
    else if |parts| == 1 then parts[0]
    else parts[0] + sep + JoinWith(parts[1..], sep)
  }

  lemma JoinWithCons(p: string, ps: seq<string>, sep: string)
    requires ps != []
    ensures JoinWith([p] + ps, sep) == p + sep + JoinWith(ps, sep)
  {
    assert ([p] + ps)[1..] == ps;
  }

  /** Prefixing the first piece prefixes the joined string. */
  lemma JoinWithPrefixFirst(c: string, ps: seq<string>, sep: string)
    requires ps != []
    ensures JoinWith([c + ps[0]] + ps[1..], sep) == c + JoinWith(ps, sep)
  {
    if |ps| > 1 {
      JoinWithCons(c + ps[0], ps[1..], sep);
      JoinWithCons(ps[0], ps[1..], sep);
      assert ps == [ps[0]] + ps[1..];
    }
  }

  /** Replacing every occurrence is joining the pieces between occurrences with the replacement. */
  lemma {:induction false} ReplaceAllIsSplitJoin(s: string, tok: string, v: string)
    requires tok != []
    ensures ReplaceAll(s, tok, v) == JoinWith(SplitOn(s, tok), v)
    decreases |s|
  {
    if |s| < |tok| {
    } else if s[..|tok|] == tok {
      var rest := SplitOn(s[|tok|..], tok);
      assert SplitOn(s, tok) == [[]] + rest;
      assert ReplaceAll(s, tok, v) == v + ReplaceAll(s[|tok|..], tok, v);
      ReplaceAllIsSplitJoin(s[|tok|..], tok, v);
      JoinWithCons([], rest, v);
      assert [] + v == v;
    } else {
      var rest := SplitOn(s[1..], tok);
      assert SplitOn(s, tok) == [[s[0]] + rest[0]] + rest[1..];
      assert ReplaceAll(s, tok, v) == [s[0]] + ReplaceAll(s[1..], tok, v);
      ReplaceAllIsSplitJoin(s[1..], tok, v);
      JoinWithPrefixFirst([s[0]], rest, v);
    }
  }

  /** Replacing a token by itself changes nothing. */
  lemma {:induction false} ReplaceAllSelf(s: string, tok: string)
    requires tok != []
    ensures ReplaceAll(s, tok, tok) == s
    decreases |s|
  {
    if |s| < |tok| {
    } else if s[..|tok|] == tok {
      ReplaceAllSelf(s[|tok|..], tok);
      assert s == s[..|tok|] + s[|tok|..];
    } else {
      ReplaceAllSelf(s[1..], tok);
      assert s == [s[0]] + s[1..];
    }
  }

  /** Splitting on a token and joining with the same token gives the string back. */
  lemma SplitJoinRoundTrip(s: string, tok: string)
    requires tok != []
    ensures JoinWith(SplitOn(s, tok), tok) == s
  {
    ReplaceAllIsSplitJoin(s, tok, tok);
    ReplaceAllSelf(s, tok);
  }

  /** A string without the token comes back unchanged. */
  lemma {:induction false} ReplaceAllAbsent(s: string, tok: string, v: string)
    requires tok != [] && !Contains(s, tok)
    ensures ReplaceAll(s, tok, v) == s
    decreases |s|
  {
    if |s| >= |tok| {
      ReplaceAllAbsent(s[1..], tok, v);
      assert s == [s[0]] + s[1..];
    }
  }

  /** The first piece of a split is a prefix of the string. */
  lemma {:induction false} SplitFirstIsPrefix(s: string, tok: string)
    requires tok != []
    ensures |SplitOn(s, tok)[0]| <= |s| && SplitOn(s, tok)[0] == s[..|SplitOn(s, tok)[0]|]
    decreases |s|
  {
    if |s| >= |tok| && s[..|tok|] != tok {
      SplitFirstIsPrefix(s[1..], tok);
    }
  }

  /** No piece of a split contains the token: every occurrence was consumed. */
  lemma {:induction false} SplitPiecesLackToken(s: string, tok: string)
    requires tok != []
    ensures forall i :: 0 <= i < |SplitOn(s, tok)| ==> !Contains(SplitOn(s, tok)[i], tok)
    decreases |s|
  {
    var pieces := SplitOn(s, tok);
    if |s| < |tok| {
      ShortLacks(s, tok);
    } else if s[..|tok|] == tok {
      SplitPiecesLackToken(s[|tok|..], tok);
      assert !Contains([], tok);
    } else {
      var rest := SplitOn(s[1..], tok);
      SplitPiecesLackToken(s[1..], tok);
      SplitFirstIsPrefix(s[1..], tok);
      var first := [s[0]] + rest[0];
      assert first == s[..|first|];
      assert first[1..] == rest[0];
      if |tok| <= |first| {
        assert first[..|tok|] == s[..|tok|];
      }
      assert !Contains(first, tok);
      forall i | 0 <= i < |pieces|
        ensures !Contains(pieces[i], tok)
      {
        if i > 0 {
          assert pieces[i] == rest[i];
        }
      }
    }
  }

  lemma ShortLacks(s: string, tok: string)
    requires |s| < |tok|
    ensures !Contains(s, tok)
  {
  }

  /** A string lacking the token's first character cannot contain the token. */
  lemma {:induction false} LacksFirstChar(s: string, tok: string)
    requires tok != [] && tok[0] !in s
    ensures !Contains(s, tok)
    decreases |s|
  {
    if |tok| <= |s| {
      assert s[..|tok|][0] == s[0];
      LacksFirstChar(s[1..], tok);
    }
  }

  /** A prefix lacking the token's first character passes through untouched. */
  lemma {:induction false} ReplaceAllSkipsPrefix(a: string, r: string, tok: string, v: string)
    requires tok != [] && tok[0] !in a
    ensures ReplaceAll(a + r, tok, v) == a + ReplaceAll(r, tok, v)
    decreases |a|
  {
    if a != [] {
      var s := a + r;
      if |s| < |tok| {
        assert ReplaceAll(r, tok, v) == r;
      } else {
        assert s[..|tok|][0] == a[0];
        assert s[1..] == a[1..] + r;
        ReplaceAllSkipsPrefix(a[1..], r, tok, v);
        assert a == [a[0]] + a[1..];
      }
    } else {
      assert a + r == r;
    }
  }

  /** An occurrence at the front is replaced, and the scan resumes after it. */
  lemma ReplaceAllLeading(tok: string, r: string, v: string)
    requires tok != []
    ensures ReplaceAll(tok + r, tok, v) == v + ReplaceAll(r, tok, v)
  {
    assert (tok + r)[..|tok|] == tok;
    assert (tok + r)[|tok|..] == r;
  }

  // ---------------------------------------------------------------------------------------------
  // String.prototype.trim

  /** The characters `trim` removes: ECMAScript WhiteSpace and LineTerminator. */
  predicate IsWhitespace(c: char)
  {
    || c == '\t' || c == '\n' || c == '\U{000B}' || c == '\U{000C}' || c == '\r' || c == ' '
    || c == '\U{00A0}' || c == '\U{1680}' || ('\U{2000}' <= c <= '\U{200A}')
    || c == '\U{2028}' || c == '\U{2029}' || c == '\U{202F}' || c == '\U{205F}'
    || c == '\U{3000}' || c == '\U{FEFF}'
  }

  predicate AllWhitespace(s: string)
  {
    forall i :: 0 <= i < |s| ==> IsWhitespace(s[i])
  }

  /** No whitespace at either end. */
  predicate IsTrimmed(s: string)
  {
    s == [] || (!IsWhitespace(s[0]) && !IsWhitespace(s[|s| - 1]))
  }

  /** How many whitespace characters `s` starts with. */
  function LeadingSpaces(s: string): (k: nat)
    ensures k <= |s|
    decreases |s|
  {
    if s != [] && IsWhitespace(s[0]) then 1 + LeadingSpaces(s[1..]) else 0
  }

  /** How many whitespace characters `s` ends with. */
  function TrailingSpaces(s: string): (k: nat)
    ensures k <= |s|
    decreases |s|
  {
    if s != [] && IsWhitespace(s[|s| - 1]) then 1 + TrailingSpaces(s[..|s| - 1]) else 0
  }

  /** The leading run is all whitespace and is followed by a character that is not. */
  lemma {:induction false} LeadingSpacesSpec(s: string)
    ensures AllWhitespace(s[..LeadingSpaces(s)])
    ensures LeadingSpaces(s) < |s| ==> !IsWhitespace(s[LeadingSpaces(s)])
    decreases |s|
  {
    if s != [] && IsWhitespace(s[0]) {
      var k := LeadingSpaces(s[1..]);
      LeadingSpacesSpec(s[1..]);
      assert s[..1 + k] == [s[0]] + s[1..][..k];
      assert 1 + k < |s| ==> s[1 + k] == s[1..][k];
    }
  }

  /** The trailing run is all whitespace and is preceded by a character that is not. */
  lemma {:induction false} TrailingSpacesSpec(s: string)
    ensures AllWhitespace(s[|s| - TrailingSpaces(s)..])
    ensures TrailingSpaces(s) < |s| ==> !IsWhitespace(s[|s| - 1 - TrailingSpaces(s)])
    decreases |s|
  {
    if s != [] && IsWhitespace(s[|s| - 1]) {
      var init := s[..|s| - 1];
      var k := TrailingSpaces(init);
      TrailingSpacesSpec(init);
      assert s[|s| - (1 + k)..] == init[|init| - k..] + [s[|s| - 1]];
      assert 1 + k < |s| ==> s[|s| - 1 - (1 + k)] == init[|init| - 1 - k];
    }
  }

  /** `s.trimStart()`: the suffix after the leading whitespace. */
  function TrimStart(s: string): string
  {
    s[LeadingSpaces(s)..]
  }

  /** `s.trimEnd()`: the prefix before the trailing whitespace. */
  function TrimEnd(s: string): string
  {
    s[..|s| - TrailingSpaces(s)]
  }

  /** `s.trim()`. */
  function Trim(s: string): (r: string)
    ensures |r| <= |s|
  {
    TrimEnd(TrimStart(s))
  }

  /** The trimmed string has no whitespace at either end. */
  lemma TrimIsTrimmed(s: string)
    ensures IsTrimmed(Trim(s))
  {
    var t := TrimStart(s);
    var r := TrimEnd(t);
    LeadingSpacesSpec(s);
    TrailingSpacesSpec(t);
    if r != [] {
      assert r[0] == t[0] == s[LeadingSpaces(s)];
      assert r[|r| - 1] == t[|t| - 1 - TrailingSpaces(t)];
    }
  }

  /** The trimmed string sits inside `s` with only whitespace around it. */
  lemma TrimSpec(s: string)
    ensures var i := LeadingSpaces(s);
            && i + |Trim(s)| <= |s| && Trim(s) == s[i..i + |Trim(s)|]
            && AllWhitespace(s[..i]) && AllWhitespace(s[i + |Trim(s)|..])
  {
    var i := LeadingSpaces(s);
    var t := TrimStart(s);
    var r := TrimEnd(t);
    LeadingSpacesSpec(s);
    TrailingSpacesSpec(t);
    assert r == s[i..i + |r|];
    assert s[i + |r|..] == t[|t| - TrailingSpaces(t)..];
  }

  /** `trim` yields the empty string exactly for all-whitespace input. */
  lemma TrimEmptyIff(s: string)
    ensures Trim(s) == [] <==> AllWhitespace(s)
  {
    var t := TrimStart(s);
    LeadingSpacesSpec(s);
    TrailingSpacesSpec(t);
    if Trim(s) == [] {
      assert t[|t| - TrailingSpaces(t)..] == t;
      assert s == s[..LeadingSpaces(s)] + t;
    }
  }

  /** A string without surrounding whitespace is its own trim. */
  lemma TrimOfTrimmed(s: string)
    requires IsTrimmed(s)
    ensures Trim(s) == s
  {
    assert LeadingSpaces(s) == 0;
    assert TrimStart(s) == s;
    assert TrailingSpaces(s) == 0;
  }

  /** Whitespace in front lengthens the leading run by exactly its length. */
  lemma {:induction false} LeadingSpacesSkip(w: string, s: string)
    requires AllWhitespace(w)
    ensures LeadingSpaces(w + s) == |w| + LeadingSpaces(s)
    decreases |w|
  {
    if w != [] {
      assert (w + s)[0] == w[0];
      assert (w + s)[1..] == w[1..] + s;
      LeadingSpacesSkip(w[1..], s);
    } else {
      assert w + s == s;
    }
  }

  /** Leading whitespace does not change the trim. */
  lemma TrimSkipsLeadingWhitespace(w: string, s: string)
    requires AllWhitespace(w)
    ensures Trim(w + s) == Trim(s)
  {
    LeadingSpacesSkip(w, s);
    assert TrimStart(w + s) == (w + s)[|w| + LeadingSpaces(s)..] == TrimStart(s);
  }

  // ---------------------------------------------------------------------------------------------
  // Decimal rendering of non-negative integers

  predicate IsDigit(c: char)
  {
    '0' <= c <= '9'
  }

  function DigitChar(d: nat): (c: char)
    requires d < 10
    ensures IsDigit(c) && c as int - '0' as int == d
  {
    (d + '0' as int) as char
  }

  /** `String(n)` for a non-negative integer: its shortest decimal form. */
  function NatToString(n: nat): (r: string)
    ensures r != [] && forall i :: 0 <= i < |r| ==> IsDigit(r[i])
    ensures r[0] == '0' ==> n == 0 && |r| == 1
    decreases n
  {
    if n < 10 then [DigitChar(n)] else NatToString(n / 10) + [DigitChar(n % 10)]
  }

  /** Reads a string of decimal digits back as a number: the partner of `NatToString`. */
  function ParseNat(s: string): nat
    requires forall i :: 0 <= i < |s| ==> IsDigit(s[i])
    decreases |s|
  {
    if s == [] then 0
    else
      var last := s[|s| - 1];
      assert IsDigit(last);
      10 * ParseNat(s[..|s| - 1]) + (last as int - '0' as int)
  }

  lemma {:induction false} ParseNatToString(n: nat)
    ensures ParseNat(NatToString(n)) == n
    decreases n
  {
    if n >= 10 {
      var s := NatToString(n);
      ParseNatToString(n / 10);
      assert s[..|s| - 1] == NatToString(n / 10);
    }
  }

  /** A number below 100 renders in at most two digits. */
  lemma {:induction false} NatToStringBelowHundred(n: nat)
    requires n < 100
    ensures |NatToString(n)| <= 2
  {
    if n >= 10 {
      assert NatToString(n / 10) == [DigitChar(n / 10)];
    }
  }
}

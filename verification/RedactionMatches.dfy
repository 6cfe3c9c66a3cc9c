/**
 What the four patterns of `_redact_high_entropy` match, character by character, and what
 substituting them does to a text: src/apim_mcp/common/redaction.py.
 */
module RedactionMatches {
  import opened RedactionPasses
  import opened Redaction

  // ----- the patterns -----

  predicate IsDigit(c: char)
  {
    '0' <= c <= '9'
  }

  predicate IsLetter(c: char)
  {
    'a' <= c <= 'z' || 'A' <= c <= 'Z'
  }

  predicate IsHexDigit(c: char)
  {
    IsDigit(c) || 'a' <= c <= 'f' || 'A' <= c <= 'F'
  }

  predicate IsJwtChar(c: char)
  {
    IsLetter(c) || IsDigit(c) || c == '_' || c == '-'
  }

  predicate IsBase64Char(c: char)
  {
    IsLetter(c) || IsDigit(c) || c == '+' || c == '/'
  }

  predicate IsSasChar(classes: Classes, c: char)
  {
    c !in ['&', '"', '\'', '<', '>'] && !classes.space(c)
  }

  predicate AllHex(s: string, lo: nat, hi: nat)
    requires hi <= |s|
  {
    forall i :: lo <= i < hi ==> IsHexDigit(s[i])
  }

  predicate AllJwt(s: string, lo: nat, hi: nat)
    requires hi <= |s|
  {
    forall i :: lo <= i < hi ==> IsJwtChar(s[i])
  }

  predicate AllBase64(s: string, lo: nat, hi: nat)
    requires hi <= |s|
  {
    forall i :: lo <= i < hi ==> IsBase64Char(s[i])
  }

  predicate AllEquals(s: string, lo: nat, hi: nat)
    requires hi <= |s|
  {
    forall i :: lo <= i < hi ==> s[i] == '='
  }

  predicate AllSas(classes: Classes, s: string, lo: nat, hi: nat)
    requires hi <= |s|
  {
    forall i :: lo <= i < hi ==> IsSasChar(classes, s[i])
  }

  /** A word boundary after `n` characters of `s`, in a text where `after` says what stands before `s`. */
  predicate WordBoundary(classes: Classes, after: bool, s: string, n: nat)
    requires n <= |s|
  {
    (if n == 0 then after else classes.word(s[n - 1])) != (n < |s| && classes.word(s[n]))
  }

  /** 32 hex digits or more between word boundaries. */
  predicate IsHexMatch(classes: Classes, after: bool, s: string, n: nat)
  {
    && 32 <= n <= |s| && AllHex(s, 0, n)
    && WordBoundary(classes, after, s, 0) && WordBoundary(classes, after, s, n)
  }

  /** 40 characters of the base64 alphabet or more and up to two `=`, between word boundaries. */
  predicate IsBase64Match(classes: Classes, after: bool, s: string, n: nat)
  {
    && n <= |s|
    && (exists m :: 40 <= m <= n && n <= m + 2 && AllBase64(s, 0, m) && AllEquals(s, m, n))
    && WordBoundary(classes, after, s, 0) && WordBoundary(classes, after, s, n)
  }

  /** `eyJ` and three segments with dots between them, each of two characters or more, between word boundaries. */
  predicate IsJwtMatch(classes: Classes, after: bool, s: string, n: nat)
  {
    && n <= |s| && "eyJ" <= s
    && (exists a, b ::
          && 3 + 2 <= a && a + 1 + 2 <= b && b + 1 + 2 <= n
          && AllJwt(s, 3, a) && s[a] == '.' && AllJwt(s, a + 1, b) && s[b] == '.' && AllJwt(s, b + 1, n))
    && WordBoundary(classes, after, s, 0) && WordBoundary(classes, after, s, n)
  }

  /** `sig=` or `sv=` on a word boundary with at least one value character. */
  predicate IsSasMatch(classes: Classes, after: bool, s: string, n: nat)
  {
    && n <= |s|
    && (|| ("sig=" <= s && 4 < n && AllSas(classes, s, 4, n))
        || ("sv=" <= s && 3 < n && AllSas(classes, s, 3, n)))
    && WordBoundary(classes, after, s, 0)
  }

  predicate IsMatch(classes: Classes, pass: Pass, after: bool, s: string, n: nat)
  {
    match pass
    case Jwt => IsJwtMatch(classes, after, s, n)
    case Sas => IsSasMatch(classes, after, s, n)
    case Base64 => IsBase64Match(classes, after, s, n)
    case Hex => IsHexMatch(classes, after, s, n)
  }

  // ----- every pass takes the longest match -----

  /** `n` is the longest length that matches, or 0 when none does. */
  ghost predicate IsLongest(classes: Classes, pass: Pass, after: bool, s: string, n: nat)
  {
    && (n > 0 ==> IsMatch(classes, pass, after, s, n))
    && (forall m: nat :: IsMatch(classes, pass, after, s, m) ==> 0 < m <= n)
  }

  lemma RunClasses(classes: Classes, c: char)
    ensures InRun(classes, Hex, c) <==> IsHexDigit(c)
    ensures InRun(classes, Jwt, c) <==> IsJwtChar(c)
    ensures InRun(classes, Base64, c) <==> IsBase64Char(c)
    ensures InRun(classes, Sas, c) <==> IsSasChar(classes, c)
  {
  }

  /** A value ends at white space, an ampersand, a quote or an angle bracket. */
  lemma WhatEndsAValue(classes: Classes, c: char)
    requires IsPython(classes) && (c as int) < 128
    ensures !IsSasChar(classes, c) <==>
         || c as int in {9, 10, 11, 12, 13, 28, 29, 30, 31, 32}
         || c == '&' || c == '"' || c == '\'' || c == '<' || c == '>'
  {
  }

  lemma WordBoundaryAt(classes: Classes, after: bool, s: string, n: nat)
    requires 0 < n <= |s|
    ensures WordBoundary(classes, after, s, n) <==> BoundaryAt(classes, s, n)
  {
  }

  /** Backtracking finds the last boundary. */
  lemma {:induction false} LastBoundaryIsLast(classes: Classes, s: string, lo: nat, hi: nat, m: nat)
    requires 0 < lo <= m <= hi <= |s| && BoundaryAt(classes, s, m)
    ensures m <= LastBoundary(classes, s, lo, hi)
    decreases hi
  {
    hide BoundaryAt;
    if m == hi {
    } else {
      LastBoundaryIsLast(classes, s, lo, hi - 1, m);
    }
  }

  lemma RunReaches(classes: Classes, pass: Pass, s: string, n: nat)
    requires n <= |s| && forall i :: 0 <= i < n ==> InRun(classes, pass, s[i])
    ensures n <= Run(classes, pass, s)
  {
    hide InRun;
  }

  lemma AsciiWords(classes: Classes, c: char)
    requires IsPython(classes) && (IsLetter(c) || IsDigit(c))
    ensures classes.word(c)
  {
    assert (c as int) < 128;
  }

  lemma HexIsLongest(classes: Classes, after: bool, s: string)
    ensures IsLongest(classes, Hex, after, s, MatchHex(classes, after, s))
  {
    hide InRun, BoundaryAt, Run, LastBoundary;
    var n, r := MatchHex(classes, after, s), Run(classes, Hex, s);
    forall i | 0 <= i < |s|
      ensures InRun(classes, Hex, s[i]) <==> IsHexDigit(s[i])
    {
      RunClasses(classes, s[i]);
    }
    forall m: nat | IsHexMatch(classes, after, s, m)
      ensures 0 < m <= n
    {
      RunReaches(classes, Hex, s, m);
      WordBoundaryAt(classes, after, s, m);
      LastBoundaryIsLast(classes, s, 32, r, m);
    }
    if n > 0 {
      WordBoundaryAt(classes, after, s, n);
    }
  }

  lemma EqualsIs(s: string)
    ensures var n := Equals(s);
            && (forall i :: 0 <= i < n ==> s[i] == '=')
            && (n < 2 && n < |s| ==> s[n] != '=')
  {
  }

  lemma Base64IsLongest(classes: Classes, after: bool, s: string)
    ensures IsLongest(classes, Base64, after, s, MatchBase64(classes, after, s))
  {
    hide InRun, BoundaryAt, Run, LastBoundary, Equals, IsBase64Char;
    var n, r := MatchBase64(classes, after, s), Run(classes, Base64, s);
    var e := Equals(s[r..]);
    EqualsIs(s[r..]);
    assert forall i :: r <= i < |s| ==> s[i] == s[r..][i - r];
    assert e < 2 && r + e < |s| ==> s[r + e] != '=';
    forall i | 0 <= i < |s|
      ensures InRun(classes, Base64, s[i]) <==> IsBase64Char(s[i])
    {
      RunClasses(classes, s[i]);
    }
    assert !IsBase64Char('=') by { EqualsSignIsNone(); }
    forall m: nat | IsBase64Match(classes, after, s, m)
      ensures 0 < m <= n
    {
      var k :| 40 <= k <= m && m <= k + 2 && AllBase64(s, 0, k) && AllEquals(s, k, m);
      RunReaches(classes, Base64, s, k);
      assert k < m ==> s[k] == '=' && !IsBase64Char(s[k]);
      WordBoundaryAt(classes, after, s, m);
      LastBoundaryIsLast(classes, s, 40, r + e, m);
    }
    if n > 0 {
      WordBoundaryAt(classes, after, s, n);
      var k := if n < r then n else r;
      assert AllBase64(s, 0, k) && AllEquals(s, k, n);
    }
  }

  lemma EqualsSignIsNone()
    ensures !IsBase64Char('=') && !IsJwtChar('.')
  {
  }

  /** Where a run of JWT characters that ends before a dot ends. */
  lemma SegmentEnds(classes: Classes, s: string, from: nat, to: nat)
    requires from <= to <= |s| && AllJwt(s, from, to) && (to < |s| ==> !IsJwtChar(s[to]))
    ensures Segment(classes, s, from) == to
  {
    hide InRun, IsJwtChar;
    var t := s[from..];
    forall i | 0 <= i < |t|
      ensures InRun(classes, Jwt, t[i]) <==> IsJwtChar(s[from + i])
    {
      RunClasses(classes, t[i]);
    }
    RunIs(classes, Jwt, t, to - from);
  }

  lemma SegmentIs(classes: Classes, s: string, from: nat)
    requires from <= |s|
    ensures AllJwt(s, from, Segment(classes, s, from))
    ensures forall to :: from <= to <= |s| && AllJwt(s, from, to) ==> to <= Segment(classes, s, from)
  {
    hide InRun, IsJwtChar, Run;
    var t := s[from..];
    forall i | 0 <= i < |t|
      ensures InRun(classes, Jwt, t[i]) <==> IsJwtChar(s[from + i])
    {
      RunClasses(classes, t[i]);
    }
    var n := Run(classes, Jwt, t);
    assert forall i :: from <= i < from + n ==> s[i] == t[i - from];
    assert from + n < |s| ==> !IsJwtChar(s[from + n]) by {
      assert n < |t| ==> !InRun(classes, Jwt, t[n]);
    }
  }

  lemma JwtMatchReached(classes: Classes, after: bool, s: string, m: nat)
    requires IsPython(classes) && IsJwtMatch(classes, after, s, m)
    ensures 0 < m <= MatchJwt(classes, after, s)
  {
    hide BoundaryAt, Segment, LastBoundary, IsPython;
    var a, b :| 3 + 2 <= a && a + 1 + 2 <= b && b + 1 + 2 <= m
             && AllJwt(s, 3, a) && s[a] == '.' && AllJwt(s, a + 1, b) && s[b] == '.' && AllJwt(s, b + 1, m);
    assert s[0] == "eyJ"[0];
    AsciiWords(classes, 'e');
    EqualsSignIsNone();
    SegmentEnds(classes, s, 3, a);
    SegmentEnds(classes, s, a + 1, b);
    SegmentIs(classes, s, b + 1);
    WordBoundaryAt(classes, after, s, m);
    LastBoundaryIsLast(classes, s, b + 3, Segment(classes, s, b + 1), m);
  }

  lemma JwtMatchIsOne(classes: Classes, after: bool, s: string)
    requires IsPython(classes) && MatchJwt(classes, after, s) > 0
    ensures IsJwtMatch(classes, after, s, MatchJwt(classes, after, s))
  {
    hide BoundaryAt, Segment, LastBoundary, IsPython;
    var n := MatchJwt(classes, after, s);
    assert s[0] == "eyJ"[0];
    AsciiWords(classes, 'e');
    var a := Segment(classes, s, 3);
    var b := Segment(classes, s, a + 1);
    SegmentIs(classes, s, 3);
    SegmentIs(classes, s, a + 1);
    SegmentIs(classes, s, b + 1);
    WordBoundaryAt(classes, after, s, n);
    assert AllJwt(s, b + 1, n);
  }

  lemma SasIsLongest(classes: Classes, after: bool, s: string)
    requires IsPython(classes)
    ensures IsLongest(classes, Sas, after, s, MatchSas(classes, after, s))
  {
    hide InRun, Run, IsPython, IsSasChar;
    AsciiWords(classes, 's');
    var n := MatchSas(classes, after, s);
    assert "sig="[0] == 's' && "sig="[1] == 'i' && "sv="[0] == 's' && "sv="[1] == 'v';
    if "sig=" <= s || "sv=" <= s {
      var k := if "sig=" <= s then 4 else 3;
      assert s[0] == 's' && s[1] == if k == 4 then 'i' else 'v';
      SasValueIs(classes, s, k);
    }
  }

  lemma SasValueIs(classes: Classes, s: string, k: nat)
    requires k <= |s|
    ensures AllSas(classes, s, k, k + Run(classes, Sas, s[k..]))
    ensures forall m :: k <= m <= |s| && AllSas(classes, s, k, m) ==> m <= k + Run(classes, Sas, s[k..])
  {
    hide InRun, IsSasChar, Run;
    var t := s[k..];
    forall i | 0 <= i < |t|
      ensures InRun(classes, Sas, t[i]) <==> IsSasChar(classes, s[k + i])
    {
      RunClasses(classes, t[i]);
    }
    var n := Run(classes, Sas, t);
    assert forall i :: k <= i < k + n ==> s[i] == t[i - k];
    assert k + n < |s| ==> !IsSasChar(classes, s[k + n]) by {
      assert n < |t| ==> !InRun(classes, Sas, t[n]);
    }
  }

  /** Each pass matches the longest text its pattern describes, and nothing exactly when there is none. */
  lemma MatchIsLongest(classes: Classes, pass: Pass, after: bool, s: string)
    requires IsPython(classes)
    ensures IsLongest(classes, pass, after, s, MatchLength(classes, pass, after, s))
  {
    hide IsPython, MatchJwt, MatchSas, MatchBase64, MatchHex, IsJwtMatch;
    match pass
    case Jwt =>
      forall m: nat | IsJwtMatch(classes, after, s, m)
        ensures 0 < m <= MatchJwt(classes, after, s)
      {
        JwtMatchReached(classes, after, s, m);
      }
      if MatchJwt(classes, after, s) > 0 {
        JwtMatchIsOne(classes, after, s);
      }
    case Sas => SasIsLongest(classes, after, s);
    case Base64 => Base64IsLongest(classes, after, s);
    case Hex => HexIsLongest(classes, after, s);
  }

  // ----- substituting every leftmost match -----

  datatype Span = Span(start: nat, end: nat)

  predicate WordBefore(classes: Classes, s: string, i: nat)
    requires i <= |s|
  {
    i > 0 && classes.word(s[i - 1])
  }

  ghost predicate NoMatchAt(classes: Classes, pass: Pass, s: string, i: nat)
    requires i <= |s|
  {
    forall n: nat :: !IsMatch(classes, pass, WordBefore(classes, s, i), s[i..], n)
  }

  /** The matches of a pattern from position `from` on: each the longest where the first one after the last starts. */
  ghost predicate AreMatches(classes: Classes, pass: Pass, s: string, from: nat, spans: seq<Span>)
    requires from <= |s|
    decreases |spans|
  {
    if spans == [] then forall i :: from <= i < |s| ==> NoMatchAt(classes, pass, s, i)
    else
      var Span(start, end) := spans[0];
      && from <= start < end <= |s|
      && (forall i :: from <= i < start ==> NoMatchAt(classes, pass, s, i))
      && IsLongest(classes, pass, WordBefore(classes, s, start), s[start..], end - start)
      && AreMatches(classes, pass, s, end, spans[1..])
  }

  predicate InOrder(s: string, from: nat, spans: seq<Span>)
    decreases |spans|
  {
    if spans == [] then from <= |s|
    else from <= spans[0].start < spans[0].end <= |s| && InOrder(s, spans[0].end, spans[1..])
  }

  /** `s` from `from` on, with each span replaced. */
  function Replaced(s: string, from: nat, spans: seq<Span>, marker: string): string
    requires InOrder(s, from, spans)
    decreases |spans|
  {
    if spans == [] then s[from..]
    else s[from..spans[0].start] + marker + Replaced(s, spans[0].end, spans[1..], marker)
  }

  function MarkerText(pass: Pass): string
  {
    match pass
    case Jwt => "[REDACTED:jwt]"
    case Sas => "[REDACTED:sas-parameter]"
    case Base64 => "[REDACTED:high-entropy-base64]"
    case Hex => "[REDACTED:high-entropy-hex]"
  }

  lemma JwtMarkerText()
    ensures Marker(Jwt) == "[REDACTED:jwt]"
  {
    assert ['['] + "REDACTED:jwt" + [']'] == "[REDACTED:jwt]";
  }

  lemma SasMarkerText()
    ensures Marker(Sas) == "[REDACTED:sas-parameter]"
  {
    assert ['['] + "REDACTED:sas-parameter" + [']'] == "[REDACTED:sas-parameter]";
  }

  lemma Base64MarkerText()
    ensures Marker(Base64) == "[REDACTED:high-entropy-base64]"
  {
    assert ['['] + "REDACTED:high-entropy-base64" + [']'] == "[REDACTED:high-entropy-base64]";
  }

  lemma HexMarkerText()
    ensures Marker(Hex) == "[REDACTED:high-entropy-hex]"
  {
    assert ['['] + "REDACTED:high-entropy-hex" + [']'] == "[REDACTED:high-entropy-hex]";
  }

  lemma MarkerIsText(pass: Pass)
    ensures Marker(pass) == MarkerText(pass)
  {
    hide Marker;
    match pass
    case Jwt => JwtMarkerText();
    case Sas => SasMarkerText();
    case Base64 => Base64MarkerText();
    case Hex => HexMarkerText();
  }

  lemma OneMoreMatch(classes: Classes, pass: Pass, s: string, from: nat, n: nat, more: seq<Span>, marker: string)
    requires 0 < n && from + n <= |s|
    requires IsLongest(classes, pass, WordBefore(classes, s, from), s[from..], n)
    requires AreMatches(classes, pass, s, from + n, more) && InOrder(s, from + n, more)
    ensures var spans := [Span(from, from + n)] + more;
            && AreMatches(classes, pass, s, from, spans) && InOrder(s, from, spans)
            && Replaced(s, from, spans, marker) == marker + Replaced(s, from + n, more, marker)
  {
    hide IsLongest, NoMatchAt;
    var spans := [Span(from, from + n)] + more;
    assert spans[1..] == more && s[from..from] == [];
    assert [] + marker == marker;
  }

  lemma NoMoreMatch(classes: Classes, pass: Pass, s: string, marker: string)
    ensures AreMatches(classes, pass, s, |s|, []) && InOrder(s, |s|, []) && Replaced(s, |s|, [], marker) == []
  {
  }

  lemma {:induction false} SubReplacesFrom(classes: Classes, pass: Pass, s: string, from: nat)
    returns (spans: seq<Span>)
    requires IsPython(classes) && from <= |s|
    ensures AreMatches(classes, pass, s, from, spans) && InOrder(s, from, spans)
    ensures Sub(classes, pass, WordBefore(classes, s, from), s[from..]) == Replaced(s, from, spans, Marker(pass))
    decreases |s| - from
  {
    hide IsPython, MatchLength, IsMatch, Marker, Sub, IsLongest, AreMatches, InOrder, Replaced;
    if from == |s| {
      spans := [];
      SubOfNothing(classes, pass, WordBefore(classes, s, from));
      NoMoreMatch(classes, pass, s, Marker(pass));
      assert s[from..] == [];
    } else {
      var rest, word := s[from..], WordBefore(classes, s, from);
      var n := MatchLength(classes, pass, word, rest);
      MatchIsLongest(classes, pass, word, rest);
      SubStep(classes, pass, word, rest);
      var k := if n > 0 then n else 1;
      assert rest[k..] == s[from + k..] && rest[k - 1] == s[from + k - 1];
      spans := SubReplacesFrom(classes, pass, s, from + k);
      if n > 0 {
        OneMoreMatch(classes, pass, s, from, n, spans, Marker(pass));
        spans := [Span(from, from + n)] + spans;
      } else {
        NoMatchIsNone(classes, pass, s, from);
        OneMoreBefore(classes, pass, s, from, spans, Marker(pass));
      }
    }
  }

  lemma NoMatchIsNone(classes: Classes, pass: Pass, s: string, i: nat)
    requires i <= |s| && IsLongest(classes, pass, WordBefore(classes, s, i), s[i..], 0)
    ensures NoMatchAt(classes, pass, s, i)
  {
    hide IsMatch;
  }

  lemma OneMoreBefore(classes: Classes, pass: Pass, s: string, from: nat, spans: seq<Span>, marker: string)
    requires from < |s| && NoMatchAt(classes, pass, s, from)
    requires AreMatches(classes, pass, s, from + 1, spans) && InOrder(s, from + 1, spans)
    ensures AreMatches(classes, pass, s, from, spans) && InOrder(s, from, spans)
    ensures Replaced(s, from, spans, marker) == [s[from]] + Replaced(s, from + 1, spans, marker)
  {
    OneMoreText(s, from, spans, marker);
    hide IsMatch, IsLongest, NoMatchAt, Replaced;
  }

  lemma OneMoreText(s: string, from: nat, spans: seq<Span>, marker: string)
    requires from < |s| && InOrder(s, from + 1, spans)
    ensures InOrder(s, from, spans)
    ensures Replaced(s, from, spans, marker) == [s[from]] + Replaced(s, from + 1, spans, marker)
  {
    if spans == [] {
      assert s[from..] == [s[from]] + s[from + 1..];
    } else {
      var Span(start, end) := spans[0];
      var rest := Replaced(s, end, spans[1..], marker);
      hide Replaced, InOrder;
      assert s[from..start] == [s[from]] + s[from + 1..start];
      assert [s[from]] + s[from + 1..start] + marker + rest == [s[from]] + (s[from + 1..start] + marker + rest);
    }
  }

  /** Every leftmost longest match becomes its marker, and the text between the matches stays. */
  lemma SubReplacesMatches(classes: Classes, pass: Pass, s: string) returns (spans: seq<Span>)
    requires IsPython(classes)
    ensures AreMatches(classes, pass, s, 0, spans) && InOrder(s, 0, spans)
    ensures Sub(classes, pass, false, s) == Replaced(s, 0, spans, MarkerText(pass))
  {
    spans := SubReplacesFrom(classes, pass, s, 0);
    MarkerIsText(pass);
    assert s[0..] == s;
  }

  lemma LongestMatches(classes: Classes, pass: Pass, s: string, span: Span)
    requires span.start < span.end <= |s|
    requires IsLongest(classes, pass, WordBefore(classes, s, span.start), s[span.start..], span.end - span.start)
    ensures !NoMatchAt(classes, pass, s, span.start)
  {
    hide IsMatch;
    var n: nat := span.end - span.start;
    assert IsMatch(classes, pass, WordBefore(classes, s, span.start), s[span.start..], n);
  }

  lemma LongestIsUnique(classes: Classes, pass: Pass, after: bool, s: string, m: nat, n: nat)
    requires IsLongest(classes, pass, after, s, m) && IsLongest(classes, pass, after, s, n)
    ensures m == n
  {
    hide IsMatch;
  }

  /** There is only one way to match. */
  lemma {:induction false} MatchesAreUnique(classes: Classes, pass: Pass, s: string, from: nat,
                                            a: seq<Span>, b: seq<Span>)
    requires from <= |s| && AreMatches(classes, pass, s, from, a) && AreMatches(classes, pass, s, from, b)
    ensures a == b
    decreases |a|
  {
    hide IsMatch, NoMatchAt, IsLongest;
    if a != [] {
      LongestMatches(classes, pass, s, a[0]);
    }
    if b != [] {
      LongestMatches(classes, pass, s, b[0]);
    }
    if a == [] {
    } else {
      var start := a[0].start;
      assert start == b[0].start;
      LongestIsUnique(classes, pass, WordBefore(classes, s, start), s[start..], a[0].end - start, b[0].end - start);
      MatchesAreUnique(classes, pass, s, a[0].end, a[1..], b[1..]);
      assert a == [a[0]] + a[1..] && b == [b[0]] + b[1..];
    }
  }

  /** The four passes, in their order: each replaces the matches of its pattern in what the one before left. */
  lemma RedactHighEntropyIs(classes: Classes, text: string) returns (jwts: seq<Span>, sass: seq<Span>,
                                                                  base64s: seq<Span>, hexes: seq<Span>)
    requires IsPython(classes)
    ensures AreMatches(classes, Jwt, text, 0, jwts) && InOrder(text, 0, jwts)
    ensures var a := Replaced(text, 0, jwts, "[REDACTED:jwt]");
            && AreMatches(classes, Sas, a, 0, sass) && InOrder(a, 0, sass)
            && var b := Replaced(a, 0, sass, "[REDACTED:sas-parameter]");
            && AreMatches(classes, Base64, b, 0, base64s) && InOrder(b, 0, base64s)
            && var c := Replaced(b, 0, base64s, "[REDACTED:high-entropy-base64]");
            && AreMatches(classes, Hex, c, 0, hexes) && InOrder(c, 0, hexes)
            && RedactHighEntropy(classes, text) == Replaced(c, 0, hexes, "[REDACTED:high-entropy-hex]")
  {
    hide IsPython, AreMatches, InOrder, Replaced, Sub;
    jwts := SubReplacesMatches(classes, Jwt, text);
    var a := Sub(classes, Jwt, false, text);
    sass := SubReplacesMatches(classes, Sas, a);
    var b := Sub(classes, Sas, false, a);
    base64s := SubReplacesMatches(classes, Base64, b);
    var c := Sub(classes, Base64, false, b);
    hexes := SubReplacesMatches(classes, Hex, c);
  }

  // ----- no long hex run is left -----

  /** Up to its first marker, the result of a pass is the text itself. */
  lemma {:induction false} HexPrefix(classes: Classes, after: bool, s: string, m: nat)
    requires m <= |Sub(classes, Hex, after, s)| && AllHex(Sub(classes, Hex, after, s), 0, m)
    ensures m <= |s| && Sub(classes, Hex, after, s)[..m] == s[..m]
    ensures Sub(classes, Hex, after, s)[m..]
         == Sub(classes, Hex, if m > 0 then classes.word(s[m - 1]) else after, s[m..])
    decreases m
  {
    hide Sub, MatchLength, Marker, IsHexDigit;
    var t := Sub(classes, Hex, after, s);
    if m == 0 {
      assert s[0..] == s;
    } else {
      NothingFromNothing(classes, Hex, after, s);
      SubStep(classes, Hex, after, s);
      MarkerEnds();
      var rest := Sub(classes, Hex, classes.word(s[0]), s[1..]);
      assert IsHexDigit(t[0]);
      assert forall i :: 0 <= i < m - 1 ==> rest[i] == t[i + 1];
      HexPrefix(classes, classes.word(s[0]), s[1..], m - 1);
      assert s[1..][m - 1..] == s[m..] && t[m..] == rest[m - 1..];
      assert s[..m] == [s[0]] + s[1..][..m - 1] && t[..m] == [s[0]] + rest[..m - 1];
    }
  }

  lemma NothingFromNothing(classes: Classes, pass: Pass, after: bool, s: string)
    ensures Sub(classes, pass, after, s) == [] <==> s == []
  {
    hide MatchLength;
    MarkerIsText(pass);
  }

  lemma MarkerEnds()
    ensures |Marker(Hex)| == 27 && Marker(Hex)[0] == '[' && Marker(Hex)[26] == ']'
    ensures forall rest: string :: (Marker(Hex) + rest)[0] == '['
    ensures !IsHexDigit('[') && !IsHexDigit(']')
  {
    MarkerIsText(Hex);
  }

  /** No marker starts right behind a hex digit. */
  lemma NoMarkerAfterHex(classes: Classes, s: string)
    requires IsPython(classes)
    ensures MatchLength(classes, Hex, true, s) == 0
  {
    hide IsPython;
    MatchIsLongest(classes, Hex, true, s);
    if s != [] && IsHexDigit(s[0]) {
      AsciiWords(classes, s[0]);
    }
  }

  lemma HexMatchWasThere(classes: Classes, after: bool, s: string, m: nat)
    requires IsPython(classes) && IsHexMatch(classes, after, Sub(classes, Hex, after, s), m)
    ensures IsHexMatch(classes, after, s, m)
  {
    hide IsPython, Sub, MatchLength, Marker, IsHexDigit;
    var t := Sub(classes, Hex, after, s);
    HexPrefix(classes, after, s, m);
    assert forall i :: 0 <= i < m ==> t[i] == t[..m][i] == s[i];
    assert classes.word(s[m - 1]) by {
      assert IsHexDigit(s[m - 1]);
      HexIsWord(classes, s[m - 1]);
    }
    var rest := s[m..];
    NoMarkerAfterHex(classes, rest);
    NothingFromNothing(classes, Hex, true, rest);
    if rest != [] {
      SubStep(classes, Hex, true, rest);
      assert t[m] == t[m..][0] == rest[0] == s[m];
    }
  }

  lemma HexIsWord(classes: Classes, c: char)
    requires IsPython(classes) && IsHexDigit(c)
    ensures classes.word(c)
  {
    AsciiWords(classes, c);
  }

  /** After the last pass no 32 hex digits stand between word boundaries, not even beside a marker. */
  lemma {:induction false} NoHexIsLeft(classes: Classes, after: bool, s: string, i: nat, m: nat)
    requires IsPython(classes) && i <= |Sub(classes, Hex, after, s)|
    ensures var t := Sub(classes, Hex, after, s);
              !IsHexMatch(classes, if i == 0 then after else classes.word(t[i - 1]), t[i..], m)
    decreases |s|
  {
    hide IsPython, Sub, MatchLength, Marker, IsHexDigit;
    var t := Sub(classes, Hex, after, s);
    if s == [] {
      SubOfNothing(classes, Hex, after);
    } else {
      var n := MatchLength(classes, Hex, after, s);
      MatchIsLongest(classes, Hex, after, s);
      SubStep(classes, Hex, after, s);
      MarkerEnds();
      if n > 0 {
        var word := classes.word(s[n - 1]);
        var rest := Sub(classes, Hex, word, s[n..]);
        if i < 27 {
          NotOverMarker(classes, t, i, m);
        } else if i == 27 {
          assert t[27..] == rest;
          BesideMarker(classes, after, s, n, m);
        } else {
          NoHexIsLeft(classes, word, s[n..], i - 27, m);
          assert t[i..] == rest[i - 27..] && t[i - 1] == rest[i - 28];
        }
      } else {
        if i == 0 {
          assert t[0..] == t && !IsMatch(classes, Hex, after, s, m);
          if IsHexMatch(classes, after, t, m) {
            HexMatchWasThere(classes, after, s, m);
          }
        } else {
          var rest := Sub(classes, Hex, classes.word(s[0]), s[1..]);
          NoHexIsLeft(classes, classes.word(s[0]), s[1..], i - 1, m);
          assert t == [s[0]] + rest && t[i..] == rest[i - 1..];
        }
      }
    }
  }

  lemma NotOverMarker(classes: Classes, t: string, i: nat, m: nat)
    requires i < 27 <= |t| && t[26] == ']'
    ensures forall after :: !IsHexMatch(classes, after, t[i..], m)
  {
    if 32 <= m <= |t[i..]| {
      assert t[i..][26 - i] == ']';
    }
  }

  /** What follows a match is no word character, so no hex run starts there. */
  lemma BesideMarker(classes: Classes, after: bool, s: string, n: nat, m: nat)
    requires IsPython(classes) && IsHexMatch(classes, after, s, n)
    ensures !IsHexMatch(classes, classes.word(']'), Sub(classes, Hex, classes.word(s[n - 1]), s[n..]), m)
  {
    hide IsPython, Sub, IsHexDigit;
    assert IsHexDigit(s[n - 1]);
    HexIsWord(classes, s[n - 1]);
    var rest := Sub(classes, Hex, true, s[n..]);
    if IsHexMatch(classes, classes.word(']'), rest, m) {
      HexPrefix(classes, true, s[n..], 1);
      assert rest[..1][0] == s[n..][..1][0] == s[n];
      HexIsWord(classes, s[n]);
    }
  }
}

/** The four substitutions of `_redact_high_entropy`: src/apim_mcp/common/redaction.py. */
module RedactionPasses {
  import opened RedactionTokens

  /** Python's `\w` and `\s`; only their ASCII part is fixed here. */
  datatype Classes = Classes(word: char -> bool, space: char -> bool)

  predicate IsAsciiWord(c: char)
  {
    'a' <= c <= 'z' || 'A' <= c <= 'Z' || '0' <= c <= '9' || c == '_'
  }

  predicate IsAsciiSpace(c: char)
  {
    9 <= c as int <= 13 || 28 <= c as int <= 32
  }

  ghost predicate IsPython(classes: Classes)
  {
    forall c: char :: c as int < 128 ==>
      (classes.word(c) <==> IsAsciiWord(c)) && (classes.space(c) <==> IsAsciiSpace(c))
  }

  datatype Pass = Jwt | Sas | Base64 | Hex

  function Inner(pass: Pass): string
  {
    match pass
    case Jwt => "REDACTED:jwt"
    case Sas => "REDACTED:sas-parameter"
    case Base64 => "REDACTED:high-entropy-base64"
    case Hex => "REDACTED:high-entropy-hex"
  }

  function Marker(pass: Pass): string
  {
    ['['] + Inner(pass) + [']']
  }

  /** The repeated character class of each pattern. */
  predicate InRun(classes: Classes, pass: Pass, c: char)
  {
    match pass
    case Jwt => 'a' <= c <= 'z' || 'A' <= c <= 'Z' || '0' <= c <= '9' || c == '_' || c == '-'
    case Sas => c != '&' && c != '"' && c != '\'' && c != '<' && c != '>' && !classes.space(c)
    case Base64 => 'a' <= c <= 'z' || 'A' <= c <= 'Z' || '0' <= c <= '9' || c == '+' || c == '/'
    case Hex => 'a' <= c <= 'f' || 'A' <= c <= 'F' || '0' <= c <= '9'
  }

  function Run(classes: Classes, pass: Pass, s: string): (n: nat)
    ensures n <= |s|
    ensures forall i :: 0 <= i < n ==> InRun(classes, pass, s[i])
    ensures n < |s| ==> !InRun(classes, pass, s[n])
  {
    if s == [] || !InRun(classes, pass, s[0]) then 0 else 1 + Run(classes, pass, s[1..])
  }

  /** `\b` inside or at the end of the text, after `j` characters. */
  predicate BoundaryAt(classes: Classes, s: string, j: nat)
    requires 0 < j <= |s|
  {
    classes.word(s[j - 1]) != (j < |s| && classes.word(s[j]))
  }

  /** Backtracking to the last word boundary in a range of lengths, 0 when there is none. */
  function LastBoundary(classes: Classes, s: string, lo: nat, hi: nat): (j: nat)
    requires 0 < lo && hi <= |s|
    ensures j == 0 || (lo <= j <= hi && BoundaryAt(classes, s, j))
  {
    if hi < lo then 0
    else if BoundaryAt(classes, s, hi) then hi
    else LastBoundary(classes, s, lo, hi - 1)
  }

  function Equals(s: string): (n: nat)
    ensures n <= 2 && n <= |s|
  {
    if s == [] || s[0] != '=' then 0
    else if |s| == 1 || s[1] != '=' then 1
    else 2
  }

  /** Where the token segment that starts at `from` ends. */
  function Segment(classes: Classes, s: string, from: nat): (to: nat)
    requires from <= |s|
    ensures from <= to <= |s|
  {
    from + Run(classes, Jwt, s[from..])
  }

  predicate DotAfter(s: string, from: nat, to: nat)
  {
    from + 2 <= to < |s| && s[to] == '.'
  }

  function MatchJwt(classes: Classes, after: bool, s: string): (n: nat)
    ensures n <= |s|
  {
    if after || !("eyJ" <= s) then 0
    else
      var a := Segment(classes, s, 3);
      if !DotAfter(s, 3, a) then 0
      else
        var b := Segment(classes, s, a + 1);
        if !DotAfter(s, a + 1, b) then 0
        else LastBoundary(classes, s, b + 3, Segment(classes, s, b + 1))
  }

  function MatchSas(classes: Classes, after: bool, s: string): (n: nat)
    ensures n <= |s|
  {
    var k := if "sig=" <= s then 4 else if "sv=" <= s then 3 else 0;
    if after || k == 0 || Run(classes, Sas, s[k..]) == 0 then 0 else k + Run(classes, Sas, s[k..])
  }

  function MatchBase64(classes: Classes, after: bool, s: string): (n: nat)
    ensures n <= |s|
  {
    if s == [] || after == classes.word(s[0]) then 0
    else
      var n := Run(classes, Base64, s);
      if n < 40 then 0 else LastBoundary(classes, s, 40, n + Equals(s[n..]))
  }

  function MatchHex(classes: Classes, after: bool, s: string): (n: nat)
    ensures n <= |s|
  {
    if s == [] || after == classes.word(s[0]) then 0
    else
      var n := Run(classes, Hex, s);
      if n < 32 then 0 else LastBoundary(classes, s, 32, n)
  }

  /** Length of a pattern's match at the start of `s`, 0 when there is none; `after` says whether a
      word character stands before it. */
  function MatchLength(classes: Classes, pass: Pass, after: bool, s: string): (n: nat)
    ensures n <= |s|
  {
    match pass
    case Jwt => MatchJwt(classes, after, s)
    case Sas => MatchSas(classes, after, s)
    case Base64 => MatchBase64(classes, after, s)
    case Hex => MatchHex(classes, after, s)
  }

  /** `re.sub`: leftmost matches, one after the other, become the marker. */
  function Sub(classes: Classes, pass: Pass, after: bool, s: string): string
    decreases |s|
  {
    if s == [] then []
    else
      var n := MatchLength(classes, pass, after, s);
      if n > 0 then Marker(pass) + Sub(classes, pass, classes.word(s[n - 1]), s[n..])
      else [s[0]] + Sub(classes, pass, classes.word(s[0]), s[1..])
  }

  // ----- NUL separates everything but SAS values -----

  lemma {:induction false} RunIs(classes: Classes, pass: Pass, s: string, n: nat)
    requires n <= |s|
    requires forall i :: 0 <= i < n ==> InRun(classes, pass, s[i])
    requires n < |s| ==> !InRun(classes, pass, s[n])
    ensures Run(classes, pass, s) == n
  {
    hide InRun;
    if n == 0 {
    } else {
      RunIs(classes, pass, s[1..], n - 1);
    }
  }

  lemma RunAtNul(classes: Classes, pass: Pass, a: string, b: string)
    requires !pass.Sas?
    ensures Run(classes, pass, a + [NUL] + b) == Run(classes, pass, a)
  {
    var s, n := a + [NUL] + b, Run(classes, pass, a);
    assert forall i :: 0 <= i < n ==> s[i] == a[i];
    assert s[n] == if n < |a| then a[n] else NUL;
    RunIs(classes, pass, s, n);
  }

  lemma BoundaryAtNul(classes: Classes, a: string, b: string, j: nat)
    requires IsPython(classes) && 0 < j <= |a|
    ensures BoundaryAt(classes, a + [NUL] + b, j) == BoundaryAt(classes, a, j)
  {
    var s := a + [NUL] + b;
    assert s[j - 1] == a[j - 1];
    assert s[j] == if j < |a| then a[j] else NUL;
    assert !classes.word(NUL);
  }

  lemma {:induction false} LastBoundaryAtNul(classes: Classes, a: string, b: string, lo: nat, hi: nat)
    requires IsPython(classes) && 0 < lo && hi <= |a|
    ensures LastBoundary(classes, a + [NUL] + b, lo, hi) == LastBoundary(classes, a, lo, hi)
  {
    hide BoundaryAt, IsPython;
    if hi < lo {
    } else {
      BoundaryAtNul(classes, a, b, hi);
      LastBoundaryAtNul(classes, a, b, lo, hi - 1);
    }
  }

  lemma DropBeforeNul(a: string, b: string, k: nat)
    requires k <= |a|
    ensures (a + [NUL] + b)[k..] == a[k..] + [NUL] + b
  {
  }

  lemma SegmentAtNul(classes: Classes, a: string, b: string, from: nat)
    requires from <= |a|
    ensures var s, to := a + [NUL] + b, Segment(classes, a, from);
              Segment(classes, s, from) == to && (DotAfter(s, from, to) <==> DotAfter(a, from, to))
  {
    hide Run;
    DropBeforeNul(a, b, from);
    RunAtNul(classes, Jwt, a[from..], b);
    var s, to := a + [NUL] + b, Segment(classes, a, from);
    assert s[to] == if to < |a| then a[to] else NUL;
  }

  lemma JwtAtNul(classes: Classes, after: bool, a: string, b: string)
    requires IsPython(classes)
    ensures MatchJwt(classes, after, a + [NUL] + b) == MatchJwt(classes, after, a)
  {
    hide Segment, LastBoundary, IsPython;
    PrefixAtNul("eyJ", a, b);
    if !after && "eyJ" <= a {
      SegmentAtNul(classes, a, b, 3);
      var n := Segment(classes, a, 3);
      if DotAfter(a, 3, n) {
        SegmentAtNul(classes, a, b, n + 1);
        var m := Segment(classes, a, n + 1);
        if DotAfter(a, n + 1, m) {
          SegmentAtNul(classes, a, b, m + 1);
          LastBoundaryAtNul(classes, a, b, m + 3, Segment(classes, a, m + 1));
        }
      }
    }
  }

  lemma {:induction false} PrefixAtNul(part: string, a: string, b: string)
    requires NUL !in part
    ensures part <= a + [NUL] + b <==> part <= a
  {
    if part == [] {
    } else {
      var s := a + [NUL] + b;
      PrefixStep(part, s);
      if a == [] {
        assert s[0] == NUL && part[0] in part;
      } else {
        PrefixStep(part, a);
        DropBeforeNul(a, b, 1);
        PrefixAtNul(part[1..], a[1..], b);
      }
    }
  }

  lemma PrefixStep(part: string, s: string)
    requires part != []
    ensures part <= s <==> s != [] && part[0] == s[0] && part[1..] <= s[1..]
  {
    if s != [] && part[0] == s[0] && part[1..] <= s[1..] {
      assert part == [part[0]] + part[1..] && s == [s[0]] + s[1..];
    }
  }

  lemma Base64AtNul(classes: Classes, after: bool, a: string, b: string)
    requires IsPython(classes)
    ensures MatchBase64(classes, after, a + [NUL] + b) == MatchBase64(classes, after, a)
  {
    hide Run, LastBoundary;
    var s := a + [NUL] + b;
    RunAtNul(classes, Base64, a, b);
    var n := Run(classes, Base64, a);
    if a != [] {
      assert s[0] == a[0];
    }
    if n >= 40 {
      DropBeforeNul(a, b, n);
      EqualsAtNul(a[n..], b);
      LastBoundaryAtNul(classes, a, b, 40, n + Equals(a[n..]));
    }
  }

  lemma EqualsAtNul(a: string, b: string)
    ensures Equals(a + [NUL] + b) == Equals(a)
  {
  }

  lemma HexAtNul(classes: Classes, after: bool, a: string, b: string)
    requires IsPython(classes)
    ensures MatchHex(classes, after, a + [NUL] + b) == MatchHex(classes, after, a)
  {
    hide Run, LastBoundary;
    var s := a + [NUL] + b;
    RunAtNul(classes, Hex, a, b);
    var n := Run(classes, Hex, a);
    if a != [] {
      assert s[0] == a[0];
    }
    if n >= 32 {
      LastBoundaryAtNul(classes, a, b, 32, n);
    }
  }

  lemma MatchAtNul(classes: Classes, pass: Pass, after: bool, a: string, b: string)
    requires IsPython(classes) && !pass.Sas?
    ensures MatchLength(classes, pass, after, a + [NUL] + b) == MatchLength(classes, pass, after, a)
  {
    hide MatchJwt, MatchBase64, MatchHex;
    match pass
    case Jwt => JwtAtNul(classes, after, a, b);
    case Base64 => Base64AtNul(classes, after, a, b);
    case Hex => HexAtNul(classes, after, a, b);
  }

  /** Apart from SAS values, a pass works on each side of a NUL on its own. */
  lemma {:induction false} SubAtNul(classes: Classes, pass: Pass, after: bool, a: string, b: string)
    requires IsPython(classes) && !pass.Sas?
    ensures Sub(classes, pass, after, a + [NUL] + b)
         == Sub(classes, pass, after, a) + [NUL] + Sub(classes, pass, false, b)
    decreases |a|
  {
    hide MatchLength, Marker, Sub, IsPython;
    var s := a + [NUL] + b;
    MatchAtNul(classes, pass, after, a, b);
    SubStep(classes, pass, after, s);
    if a == [] {
      NoMatchOnNothing(classes, pass, after);
      NulIsNoWord(classes);
      assert s[0] == NUL && s[1..] == b;
      assert Sub(classes, pass, after, a) == [] by { SubOfNothing(classes, pass, after); }
    } else {
      SubStep(classes, pass, after, a);
      var n := MatchLength(classes, pass, after, a);
      var k := if n > 0 then n else 1;
      assert s[k - 1] == a[k - 1];
      DropBeforeNul(a, b, k);
      SubAtNul(classes, pass, classes.word(a[k - 1]), a[k..], b);
    }
  }

  lemma SubStep(classes: Classes, pass: Pass, after: bool, s: string)
    requires s != []
    ensures var n := MatchLength(classes, pass, after, s);
              Sub(classes, pass, after, s)
              == if n > 0 then Marker(pass) + Sub(classes, pass, classes.word(s[n - 1]), s[n..])
                 else [s[0]] + Sub(classes, pass, classes.word(s[0]), s[1..])
  {
    hide MatchLength, Marker;
  }

  lemma SubOfNothing(classes: Classes, pass: Pass, after: bool)
    ensures Sub(classes, pass, after, []) == []
  {
  }

  lemma NoMatchOnNothing(classes: Classes, pass: Pass, after: bool)
    ensures MatchLength(classes, pass, after, []) == 0
  {
  }

  lemma NulIsNoWord(classes: Classes)
    requires IsPython(classes)
    ensures !classes.word(NUL)
  {
    assert (NUL as int) < 128;
  }

  /** After a word character no pattern starts at another word character. */
  lemma {:induction false} SubOfWord(classes: Classes, pass: Pass, s: string)
    requires forall i :: 0 <= i < |s| ==> classes.word(s[i])
    ensures !pass.Sas? ==> Sub(classes, pass, true, s) == s
  {
    if s == [] {
    } else {
      SubOfWord(classes, pass, s[1..]);
    }
  }

  /** The JWT, base64 and hex passes never touch the inside of a token. */
  lemma SubOfTokenInside(classes: Classes, pass: Pass, body: string)
    requires IsPython(classes) && IsBody(body) && !pass.Sas?
    ensures Sub(classes, pass, false, ['N', 'V'] + body) == ['N', 'V'] + body
  {
    hide Sub, MatchLength, IsPython, IsBody;
    var s := ['N', 'V'] + body;
    TokenInsideIsWord(classes, body);
    NoMatchAtToken(classes, pass, body);
    SubStep(classes, pass, false, s);
    assert s[1..] == ['V'] + body;
    assert forall i :: 0 <= i < |s[1..]| ==> s[1..][i] == s[i + 1];
    SubOfWord(classes, pass, s[1..]);
    assert [s[0]] + s[1..] == s;
  }

  lemma TokenInsideIsWord(classes: Classes, body: string)
    requires IsPython(classes) && IsBody(body)
    ensures var s := ['N', 'V'] + body;
              forall i :: 0 <= i < |s| ==> classes.word(s[i])
  {
    var s := ['N', 'V'] + body;
    forall i | 0 <= i < |s|
      ensures classes.word(s[i])
    {
      assert i >= 2 ==> s[i] == body[i - 2];
      assert (s[i] as int) < 128;
    }
  }

  lemma NoMatchAtToken(classes: Classes, pass: Pass, body: string)
    requires IsBody(body) && !pass.Sas?
    ensures MatchLength(classes, pass, false, ['N', 'V'] + body) == 0
  {
    hide LastBoundary, Segment;
    var s := ['N', 'V'] + body;
    assert s[0] == 'N' && |s| == 34;
  }

  // ----- the passes on texts with tokens -----

  /** A pass other than SAS: it works between the tokens and leaves them. */
  function PassParts(classes: Classes, pass: Pass, after: bool, parts: seq<Part>): seq<Part>
    decreases |parts|
  {
    var n := FirstTok(parts);
    if n == |parts| then Lits(Sub(classes, pass, after, Flat(parts)))
    else
      Lits(Sub(classes, pass, after, Flat(parts[..n])))
      + [parts[n]] + PassParts(classes, pass, false, parts[n + 1..])
  }

  lemma {:induction false} SubIsPassParts(classes: Classes, pass: Pass, after: bool, parts: seq<Part>)
    requires IsPython(classes) && !pass.Sas? && AllBodies(parts)
    ensures Sub(classes, pass, after, Flat(parts)) == Flat(PassParts(classes, pass, after, parts))
    ensures Toks(PassParts(classes, pass, after, parts)) == Toks(parts)
    ensures AllBodies(PassParts(classes, pass, after, parts))
    decreases |parts|
  {
    hide IsPython, Sub, Flat, Toks, Lits, IsBody, Token, FirstTok;
    var n := FirstTok(parts);
    if n == |parts| {
      var text := Sub(classes, pass, after, Flat(parts));
      FlatLits(text);
      LitsHaveNoToks(parts);
    } else {
      var front, body, back := parts[..n], parts[n].body, parts[n + 1..];
      var text, rest := Sub(classes, pass, after, Flat(front)), PassParts(classes, pass, false, back);
      SplitAt(parts, n);
      LitsHaveNoToks(front);
      SubIsPassParts(classes, pass, false, back);
      PassAroundToken(classes, pass, after, Flat(front), body, Flat(back));
      var parts' := Lits(text) + [Tok(body)] + rest;
      assert parts' == Lits(text) + ([Tok(body)] + rest);
      FlatSum(Lits(text), [Tok(body)] + rest);
      ToksSum(Lits(text), [Tok(body)] + rest);
      FlatLits(text);
      StartsWithTok([Tok(body)] + rest);
      assert ([Tok(body)] + rest)[1..] == rest;
    }
  }

  lemma PassAroundToken(classes: Classes, pass: Pass, after: bool, a: string, body: string, b: string)
    requires IsPython(classes) && !pass.Sas? && IsBody(body)
    ensures Sub(classes, pass, after, a + Token(body) + b)
         == Sub(classes, pass, after, a) + Token(body) + Sub(classes, pass, false, b)
  {
    hide IsPython, Sub, IsBody;
    var inner := ['N', 'V'] + body;
    assert a + Token(body) + b == a + [NUL] + (inner + [NUL] + b);
    SubAtNul(classes, pass, after, a, inner + [NUL] + b);
    SubAtNul(classes, pass, false, inner, b);
    SubOfTokenInside(classes, pass, body);
  }

  lemma {:induction false} LitsHaveNoToks(parts: seq<Part>)
    requires forall i :: 0 <= i < |parts| ==> parts[i].Lit?
    ensures Toks(parts) == []
  {
    if parts == [] {
    } else {
      LitsHaveNoToks(parts[1..]);
    }
  }
}

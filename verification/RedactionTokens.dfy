/**
 Named-value protection of src/apim_mcp/common/redaction.py: `{{name}}` references are
 replaced by opaque tokens and put back after the redaction passes.  The random token
 bodies are a parameter.
 */
module RedactionTokens {
  import opened TextLines

  const NUL: char := 0 as char

  function Token(body: string): string
  {
    [NUL, 'N', 'V'] + body + [NUL]
  }

  /** A token body as `uuid4().hex` gives it. */
  ghost predicate IsBody(body: string)
  {
    |body| == 32 && forall i :: 0 <= i < 32 ==> '0' <= body[i] <= '9' || 'a' <= body[i] <= 'f'
  }

  // ----- texts with tokens in them -----

  datatype Part = Lit(c: char) | Tok(body: string)

  function PartText(p: Part): string
  {
    match p case Lit(c) => [c] case Tok(body) => Token(body)
  }

  function Flat(parts: seq<Part>): string
  {
    if parts == [] then [] else PartText(parts[0]) + Flat(parts[1..])
  }

  function Lits(s: string): (parts: seq<Part>)
    ensures |parts| == |s|
    ensures forall i :: 0 <= i < |s| ==> parts[i] == Lit(s[i])
  {
    if s == [] then [] else [Lit(s[0])] + Lits(s[1..])
  }

  /** The token bodies, in order. */
  function Toks(parts: seq<Part>): seq<string>
  {
    if parts == [] then []
    else (if parts[0].Tok? then [parts[0].body] else []) + Toks(parts[1..])
  }

  lemma {:induction false} FlatSum(a: seq<Part>, b: seq<Part>)
    ensures Flat(a + b) == Flat(a) + Flat(b)
  {
    if a == [] {
      assert a + b == b;
    } else {
      assert (a + b)[1..] == a[1..] + b;
      FlatSum(a[1..], b);
    }
  }

  lemma {:induction false} ToksSum(a: seq<Part>, b: seq<Part>)
    ensures Toks(a + b) == Toks(a) + Toks(b)
  {
    if a == [] {
      assert a + b == b;
    } else {
      assert (a + b)[1..] == a[1..] + b;
      ToksSum(a[1..], b);
    }
  }

  lemma {:induction false} FlatLits(s: string)
    ensures Flat(Lits(s)) == s && Toks(Lits(s)) == []
  {
    if s == [] {
    } else {
      assert Lits(s)[1..] == Lits(s[1..]);
      FlatLits(s[1..]);
    }
  }

  // ----- occurrences -----

  ghost predicate NotIn(part: string, s: string)
  {
    forall i: nat :: !OccursAt(s, part, i)
  }

  lemma OccursInSlice(s: string, part: string, lo: nat, hi: nat, i: nat)
    requires lo <= hi <= |s|
    ensures OccursAt(s[lo..hi], part, i) <==> OccursAt(s, part, lo + i) && lo + i + |part| <= hi
  {
    if OccursAt(s[lo..hi], part, i) {
      forall k | 0 <= k < |part|
        ensures s[lo + i + k] == part[k]
      {
        assert s[lo..hi][i + k] == part[k];
      }
    }
  }

  lemma NotInSlice(part: string, s: string, lo: nat, hi: nat)
    requires NotIn(part, s) && lo <= hi <= |s|
    ensures NotIn(part, s[lo..hi])
  {
    forall i: nat
      ensures !OccursAt(s[lo..hi], part, i)
    {
      OccursInSlice(s, part, lo, hi, i);
    }
  }

  lemma OccurrenceChar(s: string, part: string, i: nat, j: nat)
    requires OccursAt(s, part, i) && i <= j < i + |part|
    ensures s[j] in part
  {
    assert s[i + (j - i)] == part[j - i];
  }

  /** An occurrence of a text without `sep` lies on one side of it. */
  lemma OccursBeside(part: string, a: string, sep: char, b: string, i: nat)
    requires sep !in part && part != [] && OccursAt(a + [sep] + b, part, i)
    ensures OccursAt(a, part, i) || (i > |a| && OccursAt(b, part, i - |a| - 1))
  {
    var s := a + [sep] + b;
    if i <= |a| < i + |part| {
      OccurrenceChar(s, part, i, |a|);
    } else if i > |a| {
      forall k | 0 <= k < |part|
        ensures b[i - |a| - 1 + k] == part[k]
      {
        assert s[i + k] == part[k];
      }
    }
  }

  /** A character that `part` does not contain separates occurrences. */
  lemma NotInAround(part: string, a: string, sep: char, b: string)
    requires sep !in part && part != [] && NotIn(part, a) && NotIn(part, b)
    ensures NotIn(part, a + [sep] + b)
  {
    forall i: nat
      ensures !OccursAt(a + [sep] + b, part, i)
    {
      if OccursAt(a + [sep] + b, part, i) {
        OccursBeside(part, a, sep, b, i);
      }
    }
  }

  lemma TooShort(part: string, s: string)
    requires |s| < |part|
    ensures NotIn(part, s)
  {
  }

  /** The body of a token occurs inside another token only if they are the same. */
  lemma NotInOtherToken(body: string, other: string)
    requires IsBody(body) && IsBody(other) && body != other
    ensures NotIn(body, ['N', 'V'] + other)
  {
    BodyHasNoNul(body);
    forall i: nat
      ensures !OccursAt(other, body, i)
    {
      if OccursAt(other, body, i) {
        assert forall k :: 0 <= k < 32 ==> other[k] == other[i + k] == body[k];
      }
    }
    TooShort(body, []);
    NotInAround(body, [], 'V', other);
    NotInAround(body, [], 'N', [] + ['V'] + other);
    assert ['N', 'V'] + other == [] + ['N'] + ([] + ['V'] + other);
  }

  lemma BodyHasNoNul(body: string)
    requires IsBody(body)
    ensures NUL !in body && '{' !in body && '}' !in body && '[' !in body && ']' !in body
    ensures 'N' !in body && 'V' !in body
    ensures |body| == 32
  {
  }

  /** What remains of a text when its tokens are blanked out. */
  function Blank(parts: seq<Part>): string
  {
    if parts == [] then [] else [if parts[0].Lit? then parts[0].c else NUL] + Blank(parts[1..])
  }

  lemma {:induction false} BlankSum(a: seq<Part>, b: seq<Part>)
    ensures Blank(a + b) == Blank(a) + Blank(b)
  {
    if a == [] {
      assert a + b == b;
    } else {
      assert (a + b)[1..] == a[1..] + b;
      BlankSum(a[1..], b);
    }
  }

  ghost predicate AllBodies(parts: seq<Part>)
  {
    forall i :: 0 <= i < |parts| && parts[i].Tok? ==> IsBody(parts[i].body)
  }

  /** Where the first token stands, or |parts|. */
  function FirstTok(parts: seq<Part>): (n: nat)
    ensures n <= |parts|
    ensures forall i :: 0 <= i < n ==> parts[i].Lit?
    ensures n < |parts| ==> parts[n].Tok?
  {
    if parts == [] || parts[0].Tok? then 0 else 1 + FirstTok(parts[1..])
  }

  lemma {:induction false} LitsOnly(parts: seq<Part>)
    requires forall i :: 0 <= i < |parts| ==> parts[i].Lit?
    ensures Flat(parts) == Blank(parts) && |Flat(parts)| == |parts| && Toks(parts) == []
    ensures forall i :: 0 <= i < |parts| ==> Flat(parts)[i] == parts[i].c
  {
    if parts == [] {
    } else {
      LitsOnly(parts[1..]);
    }
  }

  /** A text split at one of its tokens. */
  lemma SplitAt(parts: seq<Part>, n: nat)
    requires n < |parts| && parts[n].Tok?
    ensures Flat(parts) == Flat(parts[..n]) + Token(parts[n].body) + Flat(parts[n + 1..])
    ensures Blank(parts) == Blank(parts[..n]) + [NUL] + Blank(parts[n + 1..])
    ensures Toks(parts) == Toks(parts[..n]) + [parts[n].body] + Toks(parts[n + 1..])
  {
    hide Flat, Blank, Toks, Token;
    var front, rest := parts[..n], parts[n..];
    assert parts == front + rest;
    assert rest[0] == parts[n] && rest[1..] == parts[n + 1..];
    FlatSum(front, rest);
    BlankSum(front, rest);
    ToksSum(front, rest);
    StartsWithTok(rest);
  }

  lemma StartsWithTok(parts: seq<Part>)
    requires parts != [] && parts[0].Tok?
    ensures Flat(parts) == Token(parts[0].body) + Flat(parts[1..])
    ensures Blank(parts) == [NUL] + Blank(parts[1..])
    ensures Toks(parts) == [parts[0].body] + Toks(parts[1..])
  {
    hide Token;
  }

  /** A fresh body occurs nowhere in a text that lacks its token. */
  lemma {:induction false} BodyNotInFlat(body: string, parts: seq<Part>)
    requires IsBody(body) && AllBodies(parts) && body !in Toks(parts) && NotIn(body, Blank(parts))
    ensures NotIn(body, Flat(parts))
    decreases |parts|
  {
    hide IsBody, NotIn, Flat, Blank, Toks;
    var n := FirstTok(parts);
    if n == |parts| {
      LitsOnly(parts);
    } else {
      SplitAt(parts, n);
      LitsOnly(parts[..n]);
      var front, back, blank := Blank(parts[..n]), parts[n + 1..], Blank(parts);
      assert blank[0..|front|] == front && blank[|front| + 1..|blank|] == Blank(back);
      NotInSlice(body, blank, 0, |front|);
      NotInSlice(body, blank, |front| + 1, |blank|);
      BodyNotInFlat(body, back);
      BodyNotAround(body, front, parts[n].body, Flat(back));
    }
  }

  lemma BodyNotAround(body: string, a: string, other: string, b: string)
    requires IsBody(body) && IsBody(other) && body != other && NotIn(body, a) && NotIn(body, b)
    ensures NotIn(body, a + Token(other) + b)
  {
    hide IsBody, NotIn;
    NotInOtherToken(body, other);
    BodyHasNoNul(body);
    var inner := ['N', 'V'] + other + [NUL] + b;
    NotInAround(body, ['N', 'V'] + other, NUL, b);
    NotInAround(body, a, NUL, inner);
    assert a + Token(other) + b == a + [NUL] + inner;
  }

  // ----- str.replace -----

  function Replace(s: string, old_: string, new_: string): string
    requires old_ != []
    decreases |s|
  {
    if s == [] then []
    else if old_ <= s then new_ + Replace(s[|old_|..], old_, new_)
    else [s[0]] + Replace(s[1..], old_, new_)
  }

  lemma {:induction false} ReplaceNothing(s: string, old_: string, new_: string)
    requires old_ != [] && NotIn(old_, s)
    ensures Replace(s, old_, new_) == s
    decreases |s|
  {
    if s == [] {
    } else {
      assert !OccursAt(s, old_, 0);
      NotInSlice(old_, s, 1, |s|);
      assert s[1..|s|] == s[1..];
      ReplaceNothing(s[1..], old_, new_);
    }
  }

  /** Replacing a text that occurs once. */
  lemma {:induction false} ReplaceOnce(a: string, old_: string, b: string, new_: string)
    requires old_ != [] && NotIn(old_, b)
    requires forall i: nat :: i < |a| ==> !OccursAt(a + old_ + b, old_, i)
    ensures Replace(a + old_ + b, old_, new_) == a + new_ + b
    decreases |a|
  {
    var s := a + old_ + b;
    if a == [] {
      assert s[|old_|..] == b;
      ReplaceNothing(b, old_, new_);
    } else {
      assert !OccursAt(s, old_, 0);
      assert s[1..] == a[1..] + old_ + b;
      forall i: nat | i < |a[1..]|
        ensures !OccursAt(a[1..] + old_ + b, old_, i)
      {
        OccursInSlice(s, old_, 1, |s|, i);
        assert s[1..|s|] == s[1..];
      }
      ReplaceOnce(a[1..], old_, b, new_);
    }
  }

  /** A token occurs only where its body does, three characters on. */
  lemma TokenHoldsBody(body: string, s: string, i: nat)
    requires OccursAt(s, Token(body), i)
    ensures OccursAt(s, body, i + 3)
  {
    forall k | 0 <= k < |body|
      ensures s[i + 3 + k] == body[k]
    {
      assert s[i + (3 + k)] == Token(body)[3 + k];
    }
  }

  lemma TokenNotIn(body: string, s: string)
    requires NotIn(body, s)
    ensures NotIn(Token(body), s)
  {
    forall i: nat
      ensures !OccursAt(s, Token(body), i)
    {
      if OccursAt(s, Token(body), i) {
        TokenHoldsBody(body, s, i);
      }
    }
  }

  /** Between two texts that lack it, the body of a token occurs only inside the token. */
  lemma BodyOnlyAt(a: string, body: string, b: string, i: nat)
    requires IsBody(body) && NotIn(body, a) && NotIn(body, b)
    requires OccursAt(a + Token(body) + b, body, i)
    ensures i >= |a| + 3
  {
    BodyHasNoNul(body);
    var rest := body + [NUL] + b;
    assert a + Token(body) + b == a + [NUL] + ([] + ['N'] + ([] + ['V'] + rest));
    OccursBeside(body, a, NUL, [] + ['N'] + ([] + ['V'] + rest), i);
    OccursBeside(body, [], 'N', [] + ['V'] + rest, i - |a| - 1);
    OccursBeside(body, [], 'V', rest, i - |a| - 2);
  }

  /** Putting one reference back: its token is replaced where it stands, nothing else changes. */
  lemma ReplaceToken(a: string, body: string, b: string, new_: string)
    requires IsBody(body) && NotIn(body, a) && NotIn(body, b)
    ensures Replace(a + Token(body) + b, Token(body), new_) == a + new_ + b
  {
    hide IsBody, NotIn, OccursAt;
    TokenNotIn(body, b);
    var s := a + Token(body) + b;
    forall i: nat | i < |a|
      ensures !OccursAt(s, Token(body), i)
    {
      if OccursAt(s, Token(body), i) {
        TokenHoldsBody(body, s, i);
        BodyOnlyAt(a, body, b, i + 3);
      }
    }
    ReplaceOnce(a, Token(body), b, new_);
  }
}

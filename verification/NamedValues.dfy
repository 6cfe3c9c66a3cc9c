/** Replacing `{{name}}` references by tokens and putting them back: src/apim_mcp/common/redaction.py. */
module NamedValues {
  import opened RedactionTokens

  // ----- finding references -----

  /** Length of the leading run without a closing brace. */
  function NameLength(s: string): (n: nat)
    ensures n <= |s|
    ensures n < |s| ==> s[n] == '}'
  {
    if s == [] || s[0] == '}' then 0 else 1 + NameLength(s[1..])
  }

  /** Length of the match of `\{\{[^}]+\}\}` at the start, 0 when there is none. */
  function RefLength(s: string): (n: nat)
    ensures n <= |s|
    ensures n > 0 ==> n >= 5 && s[0] == '{' && s[n - 1] == '}'
  {
    if |s| < 2 || s[0] != '{' || s[1] != '{' then 0
    else
      var n := NameLength(s[2..]);
      if n >= 1 && n + 4 <= |s| && s[n + 2] == '}' && s[n + 3] == '}' then n + 4 else 0
  }

  /** The references of a text, in order. */
  function Refs(text: string): seq<string>
    decreases |text|
  {
    if text == [] then []
    else if RefLength(text) > 0 then [text[..RefLength(text)]] + Refs(text[RefLength(text)..])
    else Refs(text[1..])
  }

  /** `_protect_named_values`: every reference becomes the next token. */
  function Protect(text: string, bodies: seq<string>): seq<Part>
    requires |bodies| >= |Refs(text)|
    decreases |text|
  {
    if text == [] then []
    else if RefLength(text) > 0 then [Tok(bodies[0])] + Protect(text[RefLength(text)..], bodies[1..])
    else [Lit(text[0])] + Protect(text[1..], bodies)
  }

  /** `_restore_named_values`: the tokens are replaced one after the other. */
  function Restore(text: string, bodies: seq<string>, refs: seq<string>): string
    requires |bodies| == |refs|
    decreases |bodies|
  {
    if bodies == [] then text
    else Restore(Replace(text, Token(bodies[0]), refs[0]), bodies[1..], refs[1..])
  }

  method RestoreNamedValues(protected: string, bodies: seq<string>, refs: seq<string>) returns (text: string)
    requires |bodies| == |refs|
    ensures text == Restore(protected, bodies, refs)
  {
    hide Replace, Token;
    text := protected;
    for i := 0 to |bodies|
      invariant Restore(text, bodies[i..], refs[i..]) == Restore(protected, bodies, refs)
    {
      assert bodies[i..][1..] == bodies[i + 1..] && refs[i..][1..] == refs[i + 1..];
      assert Token(bodies[i]) != [] by { TokenNonempty(bodies[i]); }
      text := Replace(text, Token(bodies[i]), refs[i]);
    }
  }

  lemma TokenNonempty(body: string)
    ensures Token(body) != []
  {
  }

  // ----- what restoring means -----

  /** The reference that a token stands for; a token that is not listed stands for itself. */
  function RefFor(body: string, bodies: seq<string>, refs: seq<string>): string
    requires |bodies| == |refs|
  {
    if bodies == [] then Token(body)
    else if bodies[0] == body then refs[0]
    else RefFor(body, bodies[1..], refs[1..])
  }

  function RenderPart(p: Part, bodies: seq<string>, refs: seq<string>): string
    requires |bodies| == |refs|
  {
    match p case Lit(c) => [c] case Tok(body) => RefFor(body, bodies, refs)
  }

  /** A text with every token read as its reference. */
  function Render(parts: seq<Part>, bodies: seq<string>, refs: seq<string>): string
    requires |bodies| == |refs|
  {
    if parts == [] then []
    else RenderPart(parts[0], bodies, refs) + Render(parts[1..], bodies, refs)
  }

  /** One reference filled in. */
  function Fill(parts: seq<Part>, body: string, ref: string): seq<Part>
  {
    if parts == [] then []
    else (if parts[0] == Tok(body) then Lits(ref) else [parts[0]]) + Fill(parts[1..], body, ref)
  }

  /** The token bodies are random: distinct, and nowhere in the text. */
  ghost predicate Fresh(bodies: seq<string>, text: string)
  {
    && (forall k :: 0 <= k < |bodies| ==> IsBody(bodies[k]) && NotIn(bodies[k], text))
    && (forall j, k :: 0 <= j < k < |bodies| ==> bodies[j] != bodies[k])
  }

  ghost predicate AtMostOnce(parts: seq<Part>)
  {
    forall j, k :: 0 <= j < k < |parts| && parts[j].Tok? && parts[k].Tok? ==> parts[j] != parts[k]
  }

  ghost predicate IsRef(ref: string)
  {
    |ref| >= 2 && ref[0] == '{' && ref[|ref| - 1] == '}'
  }

  /** Everything restoring relies on: each token at most once, and no body anywhere else. */
  ghost predicate Restorable(parts: seq<Part>, bodies: seq<string>, refs: seq<string>)
    requires |bodies| == |refs|
  {
    && AllBodies(parts) && AtMostOnce(parts)
    && Fresh(bodies, Blank(parts))
    && (forall k :: 0 <= k < |refs| ==> IsRef(refs[k]))
    && (forall j, k :: 0 <= j < |bodies| && 0 <= k < |refs| ==> NotIn(bodies[j], refs[k]))
  }

  lemma {:induction false} FillAbsent(parts: seq<Part>, body: string, ref: string)
    requires Tok(body) !in parts
    ensures Fill(parts, body, ref) == parts
  {
    if parts == [] {
    } else {
      FillAbsent(parts[1..], body, ref);
    }
  }

  lemma {:induction false} FillSum(a: seq<Part>, b: seq<Part>, body: string, ref: string)
    ensures Fill(a + b, body, ref) == Fill(a, body, ref) + Fill(b, body, ref)
  {
    if a == [] {
      assert a + b == b;
    } else {
      assert (a + b)[1..] == a[1..] + b;
      FillSum(a[1..], b, body, ref);
    }
  }

  /** The text around the only token of a body. */
  lemma FillAround(a: seq<Part>, body: string, b: seq<Part>, ref: string)
    requires Tok(body) !in a && Tok(body) !in b
    ensures Fill(a + [Tok(body)] + b, body, ref) == a + Lits(ref) + b
  {
    FillSum(a + [Tok(body)], b, body, ref);
    FillSum(a, [Tok(body)], body, ref);
    FillAbsent(a, body, ref);
    FillAbsent(b, body, ref);
    assert [Tok(body)][1..] == [];
    assert Lits(ref) + [] == Lits(ref);
  }

  lemma {:induction false} ToksMembers(parts: seq<Part>, body: string)
    ensures body in Toks(parts) <==> Tok(body) in parts
  {
    if parts == [] {
    } else {
      ToksMembers(parts[1..], body);
      assert parts == [parts[0]] + parts[1..];
    }
  }

  lemma BlankOfLits(s: string)
    ensures Blank(Lits(s)) == s
  {
    var parts := Lits(s);
    LitsOnly(parts);
    FlatLits(s);
  }

  lemma BlankCut(part: string, parts: seq<Part>, n: nat)
    requires n < |parts| && parts[n].Tok? && NotIn(part, Blank(parts))
    ensures NotIn(part, Blank(parts[..n])) && NotIn(part, Blank(parts[n + 1..]))
  {
    hide NotIn, Blank, Flat, Toks;
    SplitAt(parts, n);
    var a, blank := Blank(parts[..n]), Blank(parts);
    assert blank[0..|a|] == a && blank[|a| + 1..|blank|] == Blank(parts[n + 1..]);
    NotInSlice(part, blank, 0, |a|);
    NotInSlice(part, blank, |a| + 1, |blank|);
  }

  /** One replacement on the text is one fill on its parts. */
  lemma ReplaceIsFill(parts: seq<Part>, body: string, ref: string)
    requires AllBodies(parts) && AtMostOnce(parts) && IsBody(body) && NotIn(body, Blank(parts))
    ensures Replace(Flat(parts), Token(body), ref) == Flat(Fill(parts, body, ref))
  {
    hide IsBody, NotIn, Flat, Blank, Toks, Fill, Replace, Token, Lits;
    if Tok(body) in parts {
      var n :| 0 <= n < |parts| && parts[n] == Tok(body);
      var a, b := parts[..n], parts[n + 1..];
      FreshAround(parts, body, n);
      ReplaceToken(Flat(a), body, Flat(b), ref);
      assert parts == a + [Tok(body)] + b;
      SplitAt(parts, n);
      FillAround(a, body, b, ref);
      FlatSum(a + Lits(ref), b);
      FlatSum(a, Lits(ref));
      FlatLits(ref);
    } else {
      ToksMembers(parts, body);
      BodyNotInFlat(body, parts);
      TokenNotIn(body, Flat(parts));
      TokenNonempty(body);
      ReplaceNothing(Flat(parts), Token(body), ref);
      FillAbsent(parts, body, ref);
    }
  }

  lemma FreshAround(parts: seq<Part>, body: string, n: nat)
    requires AllBodies(parts) && AtMostOnce(parts) && IsBody(body) && NotIn(body, Blank(parts))
    requires n < |parts| && parts[n] == Tok(body)
    ensures Tok(body) !in parts[..n] && Tok(body) !in parts[n + 1..]
    ensures NotIn(body, Flat(parts[..n])) && NotIn(body, Flat(parts[n + 1..]))
  {
    hide IsBody, NotIn, Flat, Toks, Token, Blank;
    var a, b := parts[..n], parts[n + 1..];
    BlankCut(body, parts, n);
    ToksMembers(a, body);
    ToksMembers(b, body);
    BodyNotInFlat(body, a);
    BodyNotInFlat(body, b);
  }

  /** Filling in one reference leaves the rest restorable. */
  lemma FillKeepsFresh(parts: seq<Part>, body: string, ref: string, other: string)
    requires AtMostOnce(parts) && IsBody(other) && IsRef(ref) && NotIn(other, ref) && NotIn(other, Blank(parts))
    ensures NotIn(other, Blank(Fill(parts, body, ref)))
  {
    hide NotIn, Blank, Fill, Lits, IsRef;
    if Tok(body) in parts {
      var n :| 0 <= n < |parts| && parts[n] == Tok(body);
      var a, b := parts[..n], parts[n + 1..];
      assert parts == a + [Tok(body)] + b;
      FillAround(a, body, b, ref);
      BlankSum(a + Lits(ref), b);
      BlankSum(a, Lits(ref));
      BlankOfLits(ref);
      BlankCut(other, parts, n);
      NotInAroundRef(other, Blank(a), ref, Blank(b));
    } else {
      FillAbsent(parts, body, ref);
    }
  }

  lemma NotInAroundRef(body: string, a: string, ref: string, b: string)
    requires IsBody(body) && IsRef(ref) && NotIn(body, a) && NotIn(body, ref) && NotIn(body, b)
    ensures NotIn(body, a + ref + b)
  {
    hide NotIn;
    var m := |ref|;
    var mid := ref[1..m - 1];
    BodyHasNoNul(body);
    NotInSlice(body, ref, 1, m - 1);
    NotInAround(body, mid, '}', b);
    NotInAround(body, a, '{', mid + ['}'] + b);
    assert ref == ['{'] + mid + ['}'];
    assert a + ref + b == a + ['{'] + (mid + ['}'] + b);
  }

  lemma FillKeepsToks(parts: seq<Part>, body: string, ref: string)
    requires AllBodies(parts) && AtMostOnce(parts)
    ensures AllBodies(Fill(parts, body, ref)) && AtMostOnce(Fill(parts, body, ref))
  {
    hide Fill, Lits;
    if Tok(body) in parts {
      var n :| 0 <= n < |parts| && parts[n] == Tok(body);
      var a, b := parts[..n], parts[n + 1..];
      assert parts == a + [Tok(body)] + b;
      FillAround(a, body, b, ref);
      var filled := Fill(parts, body, ref);
      var shift := |ref| - 1;
      assert |Lits(ref)| == |ref| && forall i :: 0 <= i < |ref| ==> Lits(ref)[i].Lit?;
      forall j, k | 0 <= j < k < |filled| && filled[j].Tok? && filled[k].Tok?
        ensures filled[j] != filled[k]
      {
        var j' := if j < n then j else j - shift;
        var k' := if k < n then k else k - shift;
        assert filled[j] == parts[j'] && filled[k] == parts[k'];
      }
      forall i | 0 <= i < |filled| && filled[i].Tok?
        ensures IsBody(filled[i].body)
      {
        assert filled[i] == parts[if i < n then i else i - shift];
      }
    } else {
      FillAbsent(parts, body, ref);
    }
  }

  lemma {:induction false} RenderOfFill(parts: seq<Part>, bodies: seq<string>, refs: seq<string>)
    requires |bodies| == |refs| && bodies != []
    ensures Render(Fill(parts, bodies[0], refs[0]), bodies[1..], refs[1..]) == Render(parts, bodies, refs)
  {
    if parts == [] {
    } else {
      var rest := Fill(parts[1..], bodies[0], refs[0]);
      RenderOfFill(parts[1..], bodies, refs);
      if parts[0] == Tok(bodies[0]) {
        RenderLits(refs[0], rest, bodies[1..], refs[1..]);
      } else {
        assert ([parts[0]] + rest)[1..] == rest;
      }
    }
  }

  lemma {:induction false} RenderLits(s: string, rest: seq<Part>, bodies: seq<string>, refs: seq<string>)
    requires |bodies| == |refs|
    ensures Render(Lits(s) + rest, bodies, refs) == s + Render(rest, bodies, refs)
  {
    hide Render;
    if s == [] {
      assert Lits(s) + rest == rest;
    } else {
      RenderLits(s[1..], rest, bodies, refs);
      RenderFirst(Lit(s[0]), Lits(s[1..]) + rest, bodies, refs);
      assert Lits(s) + rest == [Lit(s[0])] + (Lits(s[1..]) + rest);
    }
  }

  lemma {:induction false} RenderNothing(parts: seq<Part>)
    ensures Render(parts, [], []) == Flat(parts)
  {
    if parts == [] {
    } else {
      RenderNothing(parts[1..]);
    }
  }

  /** Sequential replacement puts every reference back exactly where its token stands. */
  lemma {:induction false} RestoreRenders(parts: seq<Part>, bodies: seq<string>, refs: seq<string>)
    requires |bodies| == |refs| && Restorable(parts, bodies, refs)
    ensures Restore(Flat(parts), bodies, refs) == Render(parts, bodies, refs)
    decreases |bodies|
  {
    hide NotIn, Flat, Blank, Fill, Render, Replace, Token, IsBody, AllBodies, AtMostOnce, IsRef;
    if bodies == [] {
      RenderNothing(parts);
    } else {
      ReplaceIsFill(parts, bodies[0], refs[0]);
      RenderOfFill(parts, bodies, refs);
      FillKeepsToks(parts, bodies[0], refs[0]);
      var filled := Fill(parts, bodies[0], refs[0]);
      forall k | 1 <= k < |bodies|
        ensures NotIn(bodies[k], Blank(filled))
      {
        FillKeepsFresh(parts, bodies[0], refs[0], bodies[k]);
      }
      RestoreRenders(filled, bodies[1..], refs[1..]);
    }
  }

  // ----- protect, then restore -----

  /** The tokens of a protected text are the bodies, one per reference, in order. */
  lemma {:induction false} ProtectToks(text: string, bodies: seq<string>)
    requires |bodies| == |Refs(text)|
    ensures Toks(Protect(text, bodies)) == bodies
    decreases |text|
  {
    if text == [] {
    } else {
      if RefLength(text) > 0 {
        var rest := Protect(text[RefLength(text)..], bodies[1..]);
        ProtectToks(text[RefLength(text)..], bodies[1..]);
        assert ([Tok(bodies[0])] + rest)[1..] == rest;
        assert bodies == [bodies[0]] + bodies[1..];
      } else {
        var rest := Protect(text[1..], bodies);
        ProtectToks(text[1..], bodies);
        assert ([Lit(text[0])] + rest)[1..] == rest;
      }
    }
  }

  /** The reference a body stands for is found at its position. */
  lemma {:induction false} RefForAt(bodies: seq<string>, refs: seq<string>, k: nat)
    requires |bodies| == |refs| && k < |bodies|
    requires forall i, j :: 0 <= i < j < |bodies| ==> bodies[i] != bodies[j]
    ensures RefFor(bodies[k], bodies, refs) == refs[k]
  {
    if k == 0 {
    } else {
      RefForAt(bodies[1..], refs[1..], k - 1);
    }
  }

  lemma {:induction false} RenderOfProtect(text: string, bodies: seq<string>, refs: seq<string>, k: nat)
    requires |bodies| == |refs| && k <= |refs| && refs[k..] == Refs(text)
    requires forall i, j :: 0 <= i < j < |bodies| ==> bodies[i] != bodies[j]
    ensures Render(Protect(text, bodies[k..]), bodies, refs) == text
    decreases |text|
  {
    hide RefFor, RefLength, Refs, Protect, Render;
    if text == [] {
      NothingToProtect(bodies[k..], bodies, refs);
    } else {
      var n := RefLength(text);
      RefsStep(text);
      ProtectStep(text, bodies[k..]);
      if n > 0 {
        assert bodies[k..][1..] == bodies[k + 1..] && refs[k..][1..] == refs[k + 1..];
        assert refs[k] == refs[k..][0] == text[..n];
        RenderOfProtect(text[n..], bodies, refs, k + 1);
        RefForAt(bodies, refs, k);
        RenderFirst(Tok(bodies[k]), Protect(text[n..], bodies[k + 1..]), bodies, refs);
        assert text == text[..n] + text[n..];
      } else {
        RenderOfProtect(text[1..], bodies, refs, k);
        RenderFirst(Lit(text[0]), Protect(text[1..], bodies[k..]), bodies, refs);
      }
    }
  }

  lemma NothingToProtect(some: seq<string>, bodies: seq<string>, refs: seq<string>)
    requires |bodies| == |refs|
    ensures Refs([]) == [] && Protect([], some) == [] && Render([], bodies, refs) == []
  {
  }

  lemma RefsStep(text: string)
    requires text != []
    ensures var n := RefLength(text);
              Refs(text) == if n > 0 then [text[..n]] + Refs(text[n..]) else Refs(text[1..])
  {
    hide RefLength;
  }

  lemma ProtectStep(text: string, bodies: seq<string>)
    requires text != [] && |bodies| >= |Refs(text)|
    ensures var n := RefLength(text);
              if n > 0 then
                && |bodies| > 0 && |bodies[1..]| >= |Refs(text[n..])|
                && Protect(text, bodies) == [Tok(bodies[0])] + Protect(text[n..], bodies[1..])
              else
                && |bodies| >= |Refs(text[1..])|
                && Protect(text, bodies) == [Lit(text[0])] + Protect(text[1..], bodies)
  {
    hide RefLength;
  }

  lemma RenderFirst(p: Part, rest: seq<Part>, bodies: seq<string>, refs: seq<string>)
    requires |bodies| == |refs|
    ensures Render([p] + rest, bodies, refs)
         == RenderPart(p, bodies, refs) + Render(rest, bodies, refs)
  {
    hide RefFor;
    assert ([p] + rest)[1..] == rest;
  }

  lemma {:induction false} RefsHaveBraces(text: string)
    ensures forall k :: 0 <= k < |Refs(text)| ==> IsRef(Refs(text)[k])
    decreases |text|
  {
    hide RefLength;
    if text == [] {
    } else {
      RefsHaveBraces(text[if RefLength(text) > 0 then RefLength(text) else 1..]);
    }
  }

  lemma {:induction false} RefsAreSlices(text: string, body: string)
    requires NotIn(body, text)
    ensures forall k :: 0 <= k < |Refs(text)| ==> NotIn(body, Refs(text)[k])
    decreases |text|
  {
    hide NotIn, RefLength;
    if text == [] {
    } else {
      var n := RefLength(text);
      if n > 0 {
        NotInSlice(body, text, 0, n);
        NotInSlice(body, text, n, |text|);
        assert text[0..n] == text[..n] && text[n..|text|] == text[n..];
        RefsAreSlices(text[n..], body);
      } else {
        NotInSlice(body, text, 1, |text|);
        assert text[1..|text|] == text[1..];
        RefsAreSlices(text[1..], body);
      }
    }
  }

  lemma BlankOfProtect(text: string, bodies: seq<string>)
    requires |bodies| >= |Refs(text)| && text != []
    ensures var n := RefLength(text);
              if n > 0 then
                && |bodies| > 0 && |bodies[1..]| >= |Refs(text[n..])|
                && Blank(Protect(text, bodies)) == [NUL] + Blank(Protect(text[n..], bodies[1..]))
              else
                && |bodies| >= |Refs(text[1..])|
                && Blank(Protect(text, bodies)) == [text[0]] + Blank(Protect(text[1..], bodies))
  {
    hide RefLength, Refs, Protect;
    ProtectStep(text, bodies);
    var n := RefLength(text);
    if n > 0 {
      var rest := Protect(text[n..], bodies[1..]);
      assert ([Tok(bodies[0])] + rest)[1..] == rest;
    } else {
      var rest := Protect(text[1..], bodies);
      assert ([Lit(text[0])] + rest)[1..] == rest;
    }
  }

  /** Blanking the references of a text adds no occurrence of a text without NUL; `before` is plain text. */
  lemma {:induction false} BlankStaysFresh(before: string, text: string, bodies: seq<string>, body: string)
    requires |bodies| >= |Refs(text)| && body != [] && NUL !in body && NotIn(body, before + text)
    ensures NotIn(body, before + Blank(Protect(text, bodies)))
    decreases |text|
  {
    hide NotIn, Blank, Protect, Refs, RefLength;
    if text == [] {
      assert Protect(text, bodies) == [] && Blank([]) == [] by { NothingToBlank(bodies); }
    } else {
      BlankOfProtect(text, bodies);
      var n, whole := RefLength(text), before + text;
      if n > 0 {
        NotInSlice(body, whole, 0, |before|);
        NotInSlice(body, whole, |before| + n, |whole|);
        assert whole[0..|before|] == before && whole[|before| + n..|whole|] == [] + text[n..];
        BlankStaysFresh([], text[n..], bodies[1..], body);
        var rest := Blank(Protect(text[n..], bodies[1..]));
        assert [] + rest == rest;
        NotInAround(body, before, NUL, rest);
        assert before + ([NUL] + rest) == before + [NUL] + rest;
      } else {
        var rest := Blank(Protect(text[1..], bodies));
        assert whole == (before + [text[0]]) + text[1..];
        BlankStaysFresh(before + [text[0]], text[1..], bodies, body);
        assert before + ([text[0]] + rest) == (before + [text[0]]) + rest;
      }
    }
  }

  lemma NothingToBlank(bodies: seq<string>)
    ensures Refs([]) == [] && Protect([], bodies) == [] && Blank([]) == []
  {
  }

  lemma {:induction false} DistinctToks(parts: seq<Part>)
    requires forall j, k :: 0 <= j < k < |Toks(parts)| ==> Toks(parts)[j] != Toks(parts)[k]
    ensures AtMostOnce(parts)
  {
    if parts == [] {
    } else {
      var rest, first := parts[1..], parts[0];
      assert Toks(parts) == (if first.Tok? then [first.body] else []) + Toks(rest);
      var shift := if first.Tok? then 1 else 0;
      forall j, k | 0 <= j < k < |Toks(rest)|
        ensures Toks(rest)[j] != Toks(rest)[k]
      {
        assert Toks(parts)[j + shift] != Toks(parts)[k + shift];
      }
      DistinctToks(rest);
      if first.Tok? {
        forall k | 0 <= k < |Toks(rest)|
          ensures Toks(rest)[k] != first.body
        {
          assert Toks(parts)[0] != Toks(parts)[k + 1];
        }
        ToksMembers(rest, first.body);
      }
      AddFirst(first, rest);
      assert parts == [first] + rest;
    }
  }

  lemma AddFirst(first: Part, rest: seq<Part>)
    requires AtMostOnce(rest) && (first.Tok? ==> first !in rest)
    ensures AtMostOnce([first] + rest)
  {
    var all := [first] + rest;
    forall j, k | 0 <= j < k < |all| && all[j].Tok? && all[k].Tok?
      ensures all[j] != all[k]
    {
      assert all[k] == rest[k - 1] && all[k] in rest;
      assert j > 0 ==> all[j] == rest[j - 1];
    }
  }

  lemma ProtectedIsRestorable(text: string, bodies: seq<string>)
    requires |bodies| == |Refs(text)| && Fresh(bodies, text)
    ensures Restorable(Protect(text, bodies), bodies, Refs(text))
  {
    hide NotIn, Blank, Protect, Refs, IsBody, IsRef, AtMostOnce, Toks;
    var parts, refs := Protect(text, bodies), Refs(text);
    ProtectToks(text, bodies);
    DistinctToks(parts);
    forall i | 0 <= i < |parts| && parts[i].Tok?
      ensures IsBody(parts[i].body)
    {
      ToksMembers(parts, parts[i].body);
    }
    forall k | 0 <= k < |bodies|
      ensures IsBody(bodies[k]) && NotIn(bodies[k], Blank(parts))
    {
      assert [] + text == text && [] + Blank(parts) == Blank(parts);
      BodyHasNoNul(bodies[k]);
      BlankStaysFresh([], text, bodies, bodies[k]);
    }
    assert Fresh(bodies, Blank(parts));
    RefsHaveBraces(text);
    forall j, k | 0 <= j < |bodies| && 0 <= k < |refs|
      ensures NotIn(bodies[j], refs[k])
    {
      RefsAreSlices(text, bodies[j]);
    }
  }

  /** With fresh distinct tokens, restoring a protected text gives the text back. */
  lemma RestoreAfterProtect(text: string, bodies: seq<string>)
    requires |bodies| == |Refs(text)| && Fresh(bodies, text)
    ensures Restore(Flat(Protect(text, bodies)), bodies, Refs(text)) == text
  {
    hide Flat, Protect, Refs, Restore, NotIn;
    ProtectedIsRestorable(text, bodies);
    RestoreRenders(Protect(text, bodies), bodies, Refs(text));
    assert bodies[0..] == bodies && Refs(text)[0..] == Refs(text);
    RenderOfProtect(text, bodies, Refs(text), 0);
  }
}

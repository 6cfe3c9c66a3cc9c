/**
 The result of `redact_free_text` without URL stripping, and which `{{name}}` references it
 holds untouched: src/apim_mcp/common/redaction.py.
 */
module RedactionResult {
  import opened RedactionTokens
  import opened NamedValues
  import opened RedactionPasses
  import opened Redaction
  import opened RedactionScan
  import opened RedactionSurvival

  // ----- texts and references woven together -----

  /** `gaps[0]`, the first reference, `gaps[1]`, the second reference, and so on. */
  function Weave(gaps: seq<string>, refs: seq<string>): string
    requires |gaps| == |refs| + 1
  {
    if refs == [] then gaps[0] else gaps[0] + refs[0] + Weave(gaps[1..], refs[1..])
  }

  function RefsFor(kept: seq<string>, bodies: seq<string>, refs: seq<string>): (r: seq<string>)
    requires |bodies| == |refs|
    ensures |r| == |kept|
  {
    if kept == [] then [] else [RefFor(kept[0], bodies, refs)] + RefsFor(kept[1..], bodies, refs)
  }

  /** The text between the tokens. */
  function Gaps(parts: seq<Part>): (gaps: seq<string>)
    ensures |gaps| == |Toks(parts)| + 1
  {
    if parts == [] then [[]]
    else
      var more := Gaps(parts[1..]);
      if parts[0].Tok? then [[]] + more else [[parts[0].c] + more[0]] + more[1..]
  }

  lemma {:induction false} RenderWeaves(parts: seq<Part>, bodies: seq<string>, refs: seq<string>)
    requires |bodies| == |refs|
    ensures Render(parts, bodies, refs) == Weave(Gaps(parts), RefsFor(Toks(parts), bodies, refs))
  {
    hide RefFor, Render, Weave, RefsFor, Toks, Gaps;
    if parts == [] {
      NothingWoven(bodies, refs);
    } else {
      RenderWeaves(parts[1..], bodies, refs);
      assert parts == [parts[0]] + parts[1..];
      RenderFirst(parts[0], parts[1..], bodies, refs);
      match parts[0]
      case Tok(body) => WeaveTok(body, parts[1..], bodies, refs);
      case Lit(c) => WeaveLit(c, parts[1..], bodies, refs);
    }
  }

  lemma NothingWoven(bodies: seq<string>, refs: seq<string>)
    requires |bodies| == |refs|
    ensures Render([], bodies, refs) == [] == Weave(Gaps([]), RefsFor(Toks([]), bodies, refs))
  {
  }

  lemma WeaveFirst(gap: string, gaps: seq<string>, ref: string, refs: seq<string>)
    requires |gaps| == |refs| + 1
    ensures Weave([gap] + gaps, [ref] + refs) == gap + ref + Weave(gaps, refs)
  {
    assert ([gap] + gaps)[1..] == gaps && ([ref] + refs)[1..] == refs;
  }

  lemma RefsForFirst(body: string, kept: seq<string>, bodies: seq<string>, refs: seq<string>)
    requires |bodies| == |refs|
    ensures RefsFor([body] + kept, bodies, refs) == [RefFor(body, bodies, refs)] + RefsFor(kept, bodies, refs)
  {
    hide RefFor;
    assert ([body] + kept)[1..] == kept;
  }

  lemma WeaveTok(body: string, rest: seq<Part>, bodies: seq<string>, refs: seq<string>)
    requires |bodies| == |refs|
    ensures Weave(Gaps([Tok(body)] + rest), RefsFor(Toks([Tok(body)] + rest), bodies, refs))
         == RefFor(body, bodies, refs) + Weave(Gaps(rest), RefsFor(Toks(rest), bodies, refs))
  {
    hide RefFor, RefsFor, Toks, Gaps, Weave;
    ToksFirst(Tok(body), rest);
    GapsFirst(Tok(body), rest);
    RefsForFirst(body, Toks(rest), bodies, refs);
    var ref := RefFor(body, bodies, refs);
    WeaveFirst([], Gaps(rest), ref, RefsFor(Toks(rest), bodies, refs));
    assert [] + ref == ref;
  }

  lemma WeaveLit(c: char, rest: seq<Part>, bodies: seq<string>, refs: seq<string>)
    requires |bodies| == |refs|
    ensures Weave(Gaps([Lit(c)] + rest), RefsFor(Toks([Lit(c)] + rest), bodies, refs))
         == [c] + Weave(Gaps(rest), RefsFor(Toks(rest), bodies, refs))
  {
    hide RefFor, RefsFor, Toks, Gaps;
    ToksFirst(Lit(c), rest);
    GapsFirst(Lit(c), rest);
    var gaps := Gaps([Lit(c)] + rest);
    assert gaps[1..] == Gaps(rest)[1..];
    assert [] + Toks(rest) == Toks(rest);
  }

  lemma GapsFirst(p: Part, rest: seq<Part>)
    ensures Gaps([p] + rest)
         == if p.Tok? then [[]] + Gaps(rest) else [[p.c] + Gaps(rest)[0]] + Gaps(rest)[1..]
  {
    hide Toks;
    assert ([p] + rest)[1..] == rest;
  }

  lemma {:induction false} RefsForAt(kept: seq<string>, bodies: seq<string>, refs: seq<string>, k: nat)
    requires |bodies| == |refs| && k < |kept|
    ensures RefsFor(kept, bodies, refs)[k] == RefFor(kept[k], bodies, refs)
  {
    hide RefFor;
    if k == 0 {
    } else {
      RefsForAt(kept[1..], bodies, refs, k - 1);
    }
  }

  lemma RefsForAll(bodies: seq<string>, refs: seq<string>)
    requires |bodies| == |refs|
    requires forall i, j :: 0 <= i < j < |bodies| ==> bodies[i] != bodies[j]
    ensures RefsFor(bodies, bodies, refs) == refs
  {
    hide RefFor, RefsFor;
    forall k | 0 <= k < |refs|
      ensures RefsFor(bodies, bodies, refs)[k] == refs[k]
    {
      RefsForAt(bodies, bodies, refs, k);
      RefForAt(bodies, refs, k);
    }
  }

  // ----- stripping -----

  predicate IsPlain(s: string)
  {
    forall c :: c in s ==> !IsStripped(c)
  }

  function StripAll(texts: seq<string>): (r: seq<string>)
    ensures |r| == |texts|
    ensures forall k :: 0 <= k < |texts| ==> r[k] == StripControlCharacters(texts[k])
  {
    if texts == [] then [] else [StripControlCharacters(texts[0])] + StripAll(texts[1..])
  }

  lemma {:induction false} StripSum(a: string, b: string)
    ensures StripControlCharacters(a + b) == StripControlCharacters(a) + StripControlCharacters(b)
  {
    if a == [] {
      assert a + b == b;
    } else {
      assert (a + b)[1..] == a[1..] + b;
      StripSum(a[1..], b);
    }
  }

  /** Stripping changes a text exactly when it holds a character to strip. */
  lemma {:induction false} StripKeepsExactlyPlain(s: string)
    ensures |StripControlCharacters(s)| <= |s|
    ensures StripControlCharacters(s) == s <==> IsPlain(s)
  {
    hide IsStripped;
    if s == [] {
    } else {
      StripKeepsExactlyPlain(s[1..]);
      assert s == [s[0]] + s[1..];
    }
  }

  /** Stripping works on every gap and every reference on its own. */
  lemma {:induction false} StripOfWeave(gaps: seq<string>, refs: seq<string>)
    requires |gaps| == |refs| + 1
    ensures StripControlCharacters(Weave(gaps, refs)) == Weave(StripAll(gaps), StripAll(refs))
    decreases |refs|
  {
    hide StripControlCharacters;
    if refs == [] {
    } else {
      StripSum(gaps[0] + refs[0], Weave(gaps[1..], refs[1..]));
      StripSum(gaps[0], refs[0]);
      StripOfWeave(gaps[1..], refs[1..]);
    }
  }

  // ----- the whole redaction -----

  /** The references that the result holds, as it holds them. */
  ghost function RefsLeft(classes: Classes, text: string, bodies: seq<string>): seq<string>
    requires |bodies| == |Refs(text)|
  {
    StripAll(RefsFor(Survivors(classes, Protect(text, bodies), 0), bodies, Refs(text)))
  }

  /**
   The result of redacting free text: exactly the references that lie inside no SAS value of the
   text, each without its control characters, in order between the stripped pieces of the
   redacted text.
   */
  lemma RedactionKeepsReferences(classes: Classes, text: string, bodies: seq<string>)
    requires IsPython(classes) && |bodies| == |Refs(text)| && Fresh(bodies, text)
    ensures var parts := Protect(text, bodies);
            var redacted := RedactParts(classes, parts);
            && Toks(redacted) == Survivors(classes, parts, 0)
            && RedactFreeText(classes, text, bodies)
                 == Weave(StripAll(Gaps(redacted)), RefsLeft(classes, text, bodies))
  {
    hide IsPython, Protect, Refs, NotIn, Render, RedactParts, RedactFreeText, StripControlCharacters, Gaps,
      RefsFor, Weave, Survivors, Toks, IsBody, Blank, StripAll;
    var parts := Protect(text, bodies);
    var redacted := RedactParts(classes, parts);
    ProtectedIsRestorable(text, bodies);
    SurvivorsOfParts(classes, parts);
    RedactionRestores(classes, text, bodies);
    RenderWeaves(redacted, bodies, Refs(text));
    StripOfWeave(Gaps(redacted), RefsFor(Survivors(classes, parts, 0), bodies, Refs(text)));
  }

  /** Where the reference at part `j` stands among those that are left. */
  ghost function PlaceOf(classes: Classes, parts: seq<Part>, j: nat): int
    requires j <= |parts|
  {
    |Survivors(classes, parts, 0)| - |Survivors(classes, parts, j)|
  }

  /**
   A reference is dropped if and only if it lies inside a SAS value; any other stands in the
   result, and stands there untouched if and only if it holds no control character.
   */
  lemma LostExactlyInsideValue(classes: Classes, text: string, bodies: seq<string>, j: nat)
    requires IsPython(classes) && |bodies| == |Refs(text)| && Fresh(bodies, text)
    requires j < |Protect(text, bodies)| && Protect(text, bodies)[j].Tok?
    ensures var parts := Protect(text, bodies);
            var ref := RefFor(parts[j].body, bodies, Refs(text));
            var left, place := RefsLeft(classes, text, bodies), PlaceOf(classes, parts, j);
            && (parts[j].body !in Toks(RedactParts(classes, parts)) <==> InsideValue(classes, parts, j))
            && (!InsideValue(classes, parts, j) ==>
                  && 0 <= place < |left|
                  && left[place] == StripControlCharacters(ref)
                  && (left[place] == ref <==> IsPlain(ref)))
  {
    hide IsPython, Protect, Refs, NotIn, RedactParts, Toks, IsBody, Blank, InsideValue, RefFor, IsPlain,
      StripControlCharacters, RefsFor;
    var parts := Protect(text, bodies);
    ProtectedIsRestorable(text, bodies);
    SurvivorsOfParts(classes, parts);
    SurvivorsMembers(classes, parts, 0, j);
    if !InsideValue(classes, parts, j) {
      SurvivorsAreSuffix(classes, parts, 0, j);
      var kept, place := Survivors(classes, parts, 0), PlaceOf(classes, parts, j);
      assert kept[place] == Survivors(classes, parts, j)[0] == parts[j].body;
      RefsForAt(kept, bodies, Refs(text), place);
      StripKeepsExactlyPlain(RefFor(parts[j].body, bodies, Refs(text)));
    }
  }

  /** Every reference is left, up to control characters, if and only if none lies inside a SAS value. */
  lemma AllKeptExactlyWhen(classes: Classes, text: string, bodies: seq<string>)
    requires IsPython(classes) && |bodies| == |Refs(text)| && Fresh(bodies, text)
    ensures RefsLeft(classes, text, bodies) == StripAll(Refs(text)) <==> NoneInsideValue(classes, Protect(text, bodies))
    ensures |RefsLeft(classes, text, bodies)| == |Refs(text)| ==> NoneInsideValue(classes, Protect(text, bodies))
  {
    hide IsPython, Protect, Refs, NotIn, Survivors, Toks, IsBody, InsideValue, StripAll, RefsFor;
    var parts := Protect(text, bodies);
    ProtectToks(text, bodies);
    assert parts[0..] == parts;
    NoneIsLostByCount(classes, parts, 0);
    if NoneInsideValue(classes, parts) {
      NoneIsLost(classes, parts, 0);
      RefsForAll(bodies, Refs(text));
    }
  }

  ghost predicate NoneInsideValue(classes: Classes, parts: seq<Part>)
  {
    forall j :: 0 <= j < |parts| && parts[j].Tok? ==> !InsideValue(classes, parts, j)
  }

  /**
   Every reference of a text survives untouched if and only if none lies inside a SAS value and
   none holds a character that is stripped.
   */
  lemma AllUntouchedExactlyWhen(classes: Classes, text: string, bodies: seq<string>)
    requires IsPython(classes) && |bodies| == |Refs(text)| && Fresh(bodies, text)
    ensures RefsLeft(classes, text, bodies) == Refs(text)
       <==> && NoneInsideValue(classes, Protect(text, bodies))
            && forall k :: 0 <= k < |Refs(text)| ==> IsPlain(Refs(text)[k])
  {
    hide IsPython, Protect, Refs, NotIn, IsBody, NoneInsideValue, IsPlain, RefsLeft, StripControlCharacters;
    var refs := Refs(text);
    AllKeptExactlyWhen(classes, text, bodies);
    forall k | 0 <= k < |refs|
      ensures StripAll(refs)[k] == refs[k] <==> IsPlain(refs[k])
    {
      StripKeepsExactlyPlain(refs[k]);
    }
  }

  /** In particular a text without `sig=` and `sv=` keeps every reference, up to control characters. */
  lemma WithoutParametersAllAreKept(classes: Classes, text: string, bodies: seq<string>)
    requires IsPython(classes) && |bodies| == |Refs(text)| && Fresh(bodies, text)
    requires NotIn("sig=", text) && NotIn("sv=", text)
    ensures RefsLeft(classes, text, bodies) == StripAll(Refs(text))
    ensures RefsLeft(classes, text, bodies) == Refs(text)
       <==> forall k :: 0 <= k < |Refs(text)| ==> IsPlain(Refs(text)[k])
  {
    hide IsPython, Protect, Refs, NotIn, Blank, IsBody, InsideValue, IsPlain, RefsLeft, StripAll;
    var parts := Protect(text, bodies);
    assert [] + text == text && [] + Blank(parts) == Blank(parts);
    BlankStaysFresh([], text, bodies, "sig=");
    BlankStaysFresh([], text, bodies, "sv=");
    forall j | 0 <= j < |parts|
      ensures !InsideValue(classes, parts, j)
    {
      NoParameterNoValue(classes, parts, j);
    }
    AllKeptExactlyWhen(classes, text, bodies);
    AllUntouchedExactlyWhen(classes, text, bodies);
  }

  // ----- a reference that is lost, and one that is altered -----

  /** Too short for a match, a text passes unchanged. */
  lemma {:induction false} ShortIsUntouched(classes: Classes, pass: Pass, after: bool, s: string)
    requires !pass.Sas? && |s| < if pass.Jwt? then 11 else 32
    ensures Sub(classes, pass, after, s) == s
    decreases |s|
  {
    hide Sub, MatchLength;
    if s == [] {
      SubOfNothing(classes, pass, after);
    } else {
      ShortHasNoMatch(classes, pass, after, s);
      SubStep(classes, pass, after, s);
      ShortIsUntouched(classes, pass, classes.word(s[0]), s[1..]);
    }
  }

  lemma ShortHasNoMatch(classes: Classes, pass: Pass, after: bool, s: string)
    requires !pass.Sas? && |s| < if pass.Jwt? then 11 else 32
    ensures MatchLength(classes, pass, after, s) == 0
  {
    hide BoundaryAt, Run;
  }

  const WITNESS := "sig={{a}}"

  lemma NoReferenceFirst(c: char, rest: string, bodies: seq<string>)
    requires c != '{' && |bodies| >= |Refs(rest)|
    ensures Refs([c] + rest) == Refs(rest) && Protect([c] + rest, bodies) == [Lit(c)] + Protect(rest, bodies)
  {
    hide Refs, Protect;
    var text := [c] + rest;
    assert text[1..] == rest;
    RefsStep(text);
    ProtectStep(text, bodies);
  }

  lemma ReferenceA(body: string)
    ensures Refs("{{a}}") == ["{{a}}"] && Protect("{{a}}", [body]) == [Tok(body)]
  {
    hide Refs, Protect;
    var s := "{{a}}";
    assert s[2..] == "a}}" && "a}}"[1..] == "}}";
    assert NameLength("a}}") == 1;
    assert RefLength(s) == 5 && s[..5] == s && s[5..] == [];
    RefsStep(s);
    NothingToBlank([]);
    ProtectStep(s, [body]);
    assert [body][1..] == [];
  }

  lemma ProtectedWitness(body: string)
    ensures Refs(WITNESS) == ["{{a}}"] && Protect(WITNESS, [body]) == Lits("sig=") + [Tok(body)]
  {
    hide Refs, Protect;
    ReferenceA(body);
    var a, b, c := "={{a}}", "g={{a}}", "ig={{a}}";
    assert ['='] + "{{a}}" == a && ['g'] + a == b && ['i'] + b == c && ['s'] + c == WITNESS;
    NoReferenceFirst('=', "{{a}}", [body]);
    NoReferenceFirst('g', a, [body]);
    NoReferenceFirst('i', b, [body]);
    NoReferenceFirst('s', c, [body]);
  }

  /** The passes on a parameter whose value is one token. */
  lemma RedactedWitness(classes: Classes, body: string)
    requires IsPython(classes)
    ensures RedactParts(classes, Lits("sig=") + [Tok(body)]) == Lits(Marker(Sas))
  {
    hide Sub, IsPython;
    var parts := Lits("sig=") + [Tok(body)];
    var m := Marker(Sas);
    assert parts[4] == Tok(body) && forall i :: 0 <= i < 4 ==> parts[i].Lit?;
    assert FirstTok(parts) == 4;
    assert parts[..4] == Lits("sig=") && parts[4..] == [Tok(body)] && parts[5..] == [];
    FlatLits("sig=");
    ShortIsUntouched(classes, Jwt, false, "sig=");
    NothingToPass(classes, false);
    assert PassParts(classes, Jwt, false, parts) == parts;
    assert StartsWith(parts, "sig=");
    assert ValueRun(classes, [Tok(body)]) == 1;
    assert SasLength(classes, false, parts) == 5;
    assert SasParts(classes, false, parts) == Lits(m);
    PlainPass(classes, Base64, m);
    PlainPass(classes, Hex, m);
  }

  lemma PlainPass(classes: Classes, pass: Pass, s: string)
    requires (pass.Base64? || pass.Hex?) && |s| < 32
    ensures PassParts(classes, pass, false, Lits(s)) == Lits(s)
  {
    hide Sub;
    FlatLits(s);
    ShortIsUntouched(classes, pass, false, s);
    assert FirstTok(Lits(s)) == |s|;
  }

  lemma SasMarkerIsPlain()
    ensures Marker(Sas) == "[REDACTED:sas-parameter]" && IsPlain(Marker(Sas))
    ensures |Marker(Sas)| == 24
  {
    var m := "[REDACTED:sas-parameter]";
    assert forall i :: 0 <= i < |m| ==> ' ' <= m[i] <= '~';
  }

  lemma RenderPlain(s: string, bodies: seq<string>, refs: seq<string>)
    requires |bodies| == |refs|
    ensures Render(Lits(s), bodies, refs) == s
  {
    hide Render, Lits;
    assert Lits(s) + [] == Lits(s);
    RenderLits(s, [], bodies, refs);
    NothingRendered(bodies, refs);
  }

  /** The only reference of `sig={{a}}` is lost: the claim that references survive fails. */
  lemma AReferenceIsLost(classes: Classes, body: string)
    requires IsPython(classes) && IsBody(body)
    ensures Refs(WITNESS) == ["{{a}}"]
    ensures RedactFreeText(classes, WITNESS, [body]) == "[REDACTED:sas-parameter]"
  {
    hide IsPython, IsBody, Refs, Protect, RedactParts, RedactFreeText, StripControlCharacters, Render, Lits, NotIn,
      Marker, IsPlain;
    ProtectedWitness(body);
    BodyHasNoNul(body);
    TooShort(body, WITNESS);
    RedactedWitness(classes, body);
    RedactionRestores(classes, WITNESS, [body]);
    RenderPlain(Marker(Sas), [body], ["{{a}}"]);
    SasMarkerIsPlain();
    StripKeepsExactlyPlain(Marker(Sas));
  }

  lemma NothingRendered(bodies: seq<string>, refs: seq<string>)
    requires |bodies| == |refs|
    ensures Render([], bodies, refs) == []
  {
  }

  const CONTROL: char := 1 as char
  const ALTERED := "{{a" + [CONTROL] + "}}"

  lemma ProtectedAltered(body: string)
    ensures Refs(ALTERED) == [ALTERED] && Protect(ALTERED, [body]) == [Tok(body)]
  {
    hide Refs, Protect;
    var s, name := ALTERED, ['a', CONTROL] + "}}";
    assert s[2..] == name && name[1..] == [CONTROL] + "}}" && name[1..][1..] == "}}";
    assert NameLength("}}") == 0 && NameLength([CONTROL] + "}}") == 1 && NameLength(name) == 2;
    assert name[2] == '}' && name[3] == '}' && s[4] == name[2] && s[5] == name[3];
    assert RefLength(s) == 6 && s[..6] == s && s[6..] == [];
    RefsStep(s);
    NothingToBlank([]);
    ProtectStep(s, [body]);
    assert [body][1..] == [];
  }

  lemma LoneTokenPasses(classes: Classes, body: string)
    ensures RedactParts(classes, [Tok(body)]) == [Tok(body)]
  {
    hide Sub;
    var parts := [Tok(body)];
    assert parts[1..] == [] && parts[0..] == parts;
    LoneTokenPass(classes, Jwt, body);
    LoneTokenPass(classes, Base64, body);
    LoneTokenPass(classes, Hex, body);
    assert SasParts(classes, false, parts) == parts;
  }

  lemma LoneTokenPass(classes: Classes, pass: Pass, body: string)
    ensures PassParts(classes, pass, false, [Tok(body)]) == [Tok(body)]
  {
    hide Sub;
    var parts := [Tok(body)];
    assert parts[..0] == [] && parts[1..] == [];
    SubOfNothing(classes, pass, false);
    assert Lits([]) == [];
  }

  /** The only reference of the text is kept by every pass, and altered by the final stripping. */
  lemma AReferenceIsAltered(classes: Classes, body: string)
    requires IsPython(classes) && IsBody(body)
    ensures Refs(ALTERED) == [ALTERED] && ALTERED != "{{a}}"
    ensures RedactFreeText(classes, ALTERED, [body]) == "{{a}}"
  {
    hide IsPython, IsBody, Refs, Protect, RedactParts, RedactFreeText, StripControlCharacters, Render, NotIn;
    ProtectedAltered(body);
    BodyHasNoNul(body);
    TooShort(body, ALTERED);
    LoneTokenPasses(classes, body);
    RedactionRestores(classes, ALTERED, [body]);
    RenderFirst(Tok(body), [], [body], [ALTERED]);
    NothingRendered([body], [ALTERED]);
    assert [Tok(body)] + [] == [Tok(body)];
    assert Render([Tok(body)], [body], [ALTERED]) == ALTERED;
    StripSum("{{a" + [CONTROL], "}}");
    StripSum("{{a", [CONTROL]);
    StripKeepsExactlyPlain("{{a");
    StripKeepsExactlyPlain("}}");
    StripOfControl();
    assert "{{a" + "}}" == "{{a}}";
  }

  lemma StripOfControl()
    ensures StripControlCharacters([CONTROL]) == []
  {
    assert [CONTROL][1..] == [];
  }
}

/**
 `redact_free_text` without URL stripping: src/apim_mcp/common/redaction.py.  What happens to
 `{{name}}` references: they survive every pass except a SAS parameter whose value holds them.
 */
module Redaction {
  import opened RedactionTokens
  import opened NamedValues
  import opened RedactionPasses

  // ----- SAS values on texts with tokens -----

  function WordAfter(classes: Classes, p: Part): bool
  {
    p.Lit? && classes.word(p.c)
  }

  /** Tokens are made of characters that a SAS value may contain. */
  predicate InValue(classes: Classes, p: Part)
  {
    p.Tok? || InRun(classes, Sas, p.c)
  }

  function ValueRun(classes: Classes, parts: seq<Part>): (n: nat)
    ensures n <= |parts|
    ensures forall i :: 0 <= i < n ==> InValue(classes, parts[i])
    ensures n < |parts| ==> !InValue(classes, parts[n])
  {
    if parts == [] || !InValue(classes, parts[0]) then 0 else 1 + ValueRun(classes, parts[1..])
  }

  predicate StartsWith(parts: seq<Part>, text: string)
  {
    |text| <= |parts| && forall i :: 0 <= i < |text| ==> parts[i] == Lit(text[i])
  }

  /** How many parts a SAS parameter at the start takes up, 0 when there is none. */
  function SasLength(classes: Classes, after: bool, parts: seq<Part>): (n: nat)
    ensures n <= |parts|
  {
    var k := if StartsWith(parts, "sig=") then 4 else if StartsWith(parts, "sv=") then 3 else 0;
    if after || k == 0 || ValueRun(classes, parts[k..]) == 0 then 0 else k + ValueRun(classes, parts[k..])
  }

  /** The SAS pass: a parameter goes with everything in its value, tokens included. */
  function SasParts(classes: Classes, after: bool, parts: seq<Part>): seq<Part>
    decreases |parts|
  {
    if parts == [] then []
    else
      var n := SasLength(classes, after, parts);
      if n > 0 then Lits(Marker(Sas)) + SasParts(classes, WordAfter(classes, parts[n - 1]), parts[n..])
      else [parts[0]] + SasParts(classes, WordAfter(classes, parts[0]), parts[1..])
  }

  // ----- the SAS pass on the text is the SAS pass on the parts -----

  lemma {:induction false} StartsWithText(parts: seq<Part>, text: string)
    requires NUL !in text
    ensures text <= Flat(parts) <==> StartsWith(parts, text)
  {
    hide Token;
    if text == [] {
    } else {
      PrefixStep(text, Flat(parts));
      if parts != [] {
        StartsWithText(parts[1..], text[1..]);
        if parts[0].Lit? {
          assert Flat(parts)[0] == parts[0].c && Flat(parts)[1..] == Flat(parts[1..]);
          assert StartsWith(parts, text) <==> parts[0] == Lit(text[0]) && StartsWith(parts[1..], text[1..]) by {
            StartsWithStep(parts, text);
          }
        } else {
          TokenStart(parts[0].body);
          assert text[0] in text;
          assert Flat(parts)[0] == NUL;
        }
      }
    }
  }

  lemma StartsWithStep(parts: seq<Part>, text: string)
    requires parts != [] && text != []
    ensures StartsWith(parts, text) <==> parts[0] == Lit(text[0]) && StartsWith(parts[1..], text[1..])
  {
    if parts[0] == Lit(text[0]) && StartsWith(parts[1..], text[1..]) {
      forall i | 0 <= i < |text|
        ensures parts[i] == Lit(text[i])
      {
        assert i > 0 ==> parts[i] == parts[1..][i - 1] && text[i] == text[1..][i - 1];
      }
    }
    if StartsWith(parts, text) {
      assert forall i :: 0 <= i < |text| - 1 ==> parts[1..][i] == parts[i + 1] && text[1..][i] == text[i + 1];
    }
  }

  lemma TokenStart(body: string)
    ensures Token(body) != [] && Token(body)[0] == NUL && |Token(body)| == |body| + 4
    ensures Token(body)[|body| + 3] == NUL
  {
  }

  lemma TokenIsValue(classes: Classes, body: string)
    requires IsPython(classes) && IsBody(body)
    ensures forall i :: 0 <= i < |Token(body)| ==> InRun(classes, Sas, Token(body)[i]) && Token(body)[i] != 's'
  {
    var t := Token(body);
    forall i | 0 <= i < |t|
      ensures InRun(classes, Sas, t[i]) && t[i] != 's'
    {
      assert 3 <= i < 35 ==> t[i] == body[i - 3];
      assert (t[i] as int) < 128;
    }
  }

  lemma {:induction false} RunOfSum(classes: Classes, pass: Pass, a: string, b: string)
    requires forall i :: 0 <= i < |a| ==> InRun(classes, pass, a[i])
    ensures Run(classes, pass, a + b) == |a| + Run(classes, pass, b)
  {
    hide InRun;
    var n := Run(classes, pass, b);
    var s := a + b;
    assert forall i :: 0 <= i < |a| ==> s[i] == a[i];
    assert forall i :: |a| <= i < |s| ==> s[i] == b[i - |a|];
    RunIs(classes, pass, s, |a| + n);
  }

  lemma {:induction false} ValueRunText(classes: Classes, parts: seq<Part>)
    requires IsPython(classes) && AllBodies(parts)
    ensures Run(classes, Sas, Flat(parts)) == |Flat(parts[..ValueRun(classes, parts)])|
  {
    hide IsPython, InRun, Token, IsBody;
    var n := ValueRun(classes, parts);
    if n == 0 {
      assert parts[..0] == [];
      if parts != [] {
        assert Flat(parts)[0] == parts[0].c;
        RunIs(classes, Sas, Flat(parts), 0);
      }
    } else {
      var first, rest := PartText(parts[0]), parts[1..];
      ValueRunText(classes, rest);
      if parts[0].Tok? {
        TokenIsValue(classes, parts[0].body);
      }
      assert forall i :: 0 <= i < |first| ==> InRun(classes, Sas, first[i]);
      RunOfSum(classes, Sas, first, Flat(rest));
      assert parts[..n] == [parts[0]] + rest[..n - 1];
      assert parts[..n][1..] == rest[..n - 1];
    }
  }

  lemma MatchSasParts(classes: Classes, after: bool, parts: seq<Part>)
    requires IsPython(classes) && AllBodies(parts)
    ensures MatchSas(classes, after, Flat(parts)) == |Flat(parts[..SasLength(classes, after, parts)])|
    ensures SasLength(classes, after, parts) > 0 <==> MatchSas(classes, after, Flat(parts)) > 0
  {
    hide IsPython, Flat, IsBody, StartsWith;
    StartsWithText(parts, "sig=");
    StartsWithText(parts, "sv=");
    assert Flat([]) == [] by { FlatOfNothing(); }
    assert parts[..0] == [];
    if StartsWith(parts, "sig=") {
      SasValue(classes, parts, "sig=");
    } else if StartsWith(parts, "sv=") {
      SasValue(classes, parts, "sv=");
    }
  }

  lemma FlatOfNothing()
    ensures Flat([]) == []
  {
  }

  lemma SasValue(classes: Classes, parts: seq<Part>, name: string)
    requires IsPython(classes) && AllBodies(parts) && StartsWith(parts, name)
    ensures var k, n := |name|, ValueRun(classes, parts[|name|..]);
            && |Flat(parts)| >= k
            && Run(classes, Sas, Flat(parts)[k..]) == |Flat(parts[k..][..n])|
            && |Flat(parts[..k + n])| == k + Run(classes, Sas, Flat(parts)[k..])
            && (n > 0 <==> Run(classes, Sas, Flat(parts)[k..]) > 0)
  {
    hide IsPython, Flat, IsBody, InRun;
    var k := |name|;
    var front, back := parts[..k], parts[k..];
    var n := ValueRun(classes, back);
    assert parts == front + back;
    FlatSum(front, back);
    LitsOnly(front);
    assert Flat(parts)[k..] == Flat(back);
    ValueRunText(classes, back);
    FlatSum(front, back[..n]);
    assert parts[..k + n] == front + back[..n];
    if n > 0 {
      FlatNonempty(back[..n]);
    } else {
      FlatOfNothing();
      assert back[..0] == [];
    }
  }

  lemma FlatNonempty(parts: seq<Part>)
    requires parts != []
    ensures |Flat(parts)| > 0
  {
  }

  /** Text without an `s` holds no SAS parameter. */
  lemma {:induction false} SasNowhere(classes: Classes, after: bool, a: string, b: string)
    requires a != [] && forall i :: 0 <= i < |a| ==> a[i] != 's'
    ensures Sub(classes, Sas, after, a + b) == a + Sub(classes, Sas, classes.word(a[|a| - 1]), b)
    decreases |a|
  {
    hide Sub, MatchLength;
    var s := a + b;
    SubStep(classes, Sas, after, s);
    assert MatchLength(classes, Sas, after, s) == 0 by { NoSasHere(classes, after, s); }
    if |a| == 1 {
      assert s[1..] == b;
    } else {
      assert s[1..] == a[1..] + b;
      SasNowhere(classes, classes.word(a[0]), a[1..], b);
    }
  }

  lemma NoSasHere(classes: Classes, after: bool, s: string)
    requires s != [] && s[0] != 's'
    ensures MatchLength(classes, Sas, after, s) == 0
  {
    PrefixStep("sig=", s);
    PrefixStep("sv=", s);
  }

  lemma {:induction false} SubIsSasParts(classes: Classes, after: bool, parts: seq<Part>)
    requires IsPython(classes) && AllBodies(parts)
    ensures Sub(classes, Sas, after, Flat(parts)) == Flat(SasParts(classes, after, parts))
    ensures AllBodies(SasParts(classes, after, parts))
    decreases |parts|
  {
    hide IsPython, Flat, Sub, IsBody, SasLength, MatchSas, Marker, Token;
    if parts == [] {
      FlatOfNothing();
      SubOfNothing(classes, Sas, after);
    } else {
      var n := SasLength(classes, after, parts);
      MatchSasParts(classes, after, parts);
      if n > 0 {
        SasMatchStep(classes, after, parts, n);
        SubIsSasParts(classes, WordAfter(classes, parts[n - 1]), parts[n..]);
        var rest := SasParts(classes, WordAfter(classes, parts[n - 1]), parts[n..]);
        FlatSum(Lits(Marker(Sas)), rest);
        FlatLits(Marker(Sas));
      } else {
        SubIsSasParts(classes, WordAfter(classes, parts[0]), parts[1..]);
        SasSkipStep(classes, after, parts);
        FlatFirst(parts[0], SasParts(classes, WordAfter(classes, parts[0]), parts[1..]));
      }
    }
  }

  lemma FlatFirst(p: Part, rest: seq<Part>)
    ensures Flat([p] + rest) == PartText(p) + Flat(rest)
  {
    assert ([p] + rest)[1..] == rest;
  }

  lemma LastOfPart(classes: Classes, p: Part)
    requires IsPython(classes)
    ensures PartText(p) != [] && classes.word(PartText(p)[|PartText(p)| - 1]) == WordAfter(classes, p)
  {
    NulIsNoWord(classes);
  }

  lemma LastOfFlat(classes: Classes, parts: seq<Part>)
    requires IsPython(classes) && parts != []
    ensures Flat(parts) != []
    ensures classes.word(Flat(parts)[|Flat(parts)| - 1]) == WordAfter(classes, parts[|parts| - 1])
  {
    hide IsPython, Flat, PartText, WordAfter;
    var front, last := parts[..|parts| - 1], parts[|parts| - 1];
    assert parts == front + [last];
    FlatSum(front, [last]);
    FlatFirst(last, []);
    FlatOfNothing();
    assert [last] + [] == [last];
    LastOfPart(classes, last);
  }

  lemma SasMatchStep(classes: Classes, after: bool, parts: seq<Part>, n: nat)
    requires IsPython(classes) && parts != [] && 0 < n <= |parts|
    requires MatchSas(classes, after, Flat(parts)) == |Flat(parts[..n])|
    ensures Sub(classes, Sas, after, Flat(parts))
         == Marker(Sas) + Sub(classes, Sas, WordAfter(classes, parts[n - 1]), Flat(parts[n..]))
  {
    hide IsPython, Flat, Sub, MatchSas, Marker;
    var front, back := parts[..n], parts[n..];
    assert parts == front + back;
    FlatSum(front, back);
    LastOfFlat(classes, front);
    var m := |Flat(front)|;
    SubStep(classes, Sas, after, Flat(parts));
    assert Flat(parts)[m - 1] == Flat(front)[m - 1];
    assert Flat(parts)[m..] == Flat(back);
  }

  lemma SasSkipStep(classes: Classes, after: bool, parts: seq<Part>)
    requires IsPython(classes) && AllBodies(parts) && parts != []
    requires MatchSas(classes, after, Flat(parts)) == 0
    ensures Sub(classes, Sas, after, Flat(parts))
         == PartText(parts[0]) + Sub(classes, Sas, WordAfter(classes, parts[0]), Flat(parts[1..]))
  {
    hide IsPython, Sub, MatchSas, IsBody, Token;
    var rest := Flat(parts[1..]);
    if parts[0].Lit? {
      SubStep(classes, Sas, after, Flat(parts));
      assert Flat(parts)[0] == parts[0].c && Flat(parts)[1..] == rest;
    } else {
      var t := Token(parts[0].body);
      TokenStart(parts[0].body);
      TokenIsValue(classes, parts[0].body);
      SasNowhere(classes, after, t, rest);
      NulIsNoWord(classes);
      assert |parts[0].body| == 32 by { BodyHasNoNul(parts[0].body); }
    }
  }

  // ----- nothing a pass writes looks like a token -----

  lemma MarkerSeparates(part: string, a: string, pass: Pass, b: string)
    requires part != [] && '[' !in part && ']' !in part && NotIn(part, Inner(pass))
    requires NotIn(part, a) && NotIn(part, b)
    ensures NotIn(part, a + Marker(pass) + b)
  {
    hide NotIn, Inner;
    NotInAround(part, Inner(pass), ']', b);
    NotInAround(part, a, '[', Inner(pass) + [']'] + b);
    assert a + Marker(pass) + b == a + ['['] + (Inner(pass) + [']'] + b);
  }

  lemma CutOut(part: string, before: string, s: string, n: nat)
    requires NotIn(part, before + s) && n <= |s|
    ensures NotIn(part, before) && NotIn(part, [] + s[n..])
  {
    hide NotIn;
    var whole := before + s;
    NotInSlice(part, whole, 0, |before|);
    NotInSlice(part, whole, |before| + n, |whole|);
    assert whole[0..|before|] == before && whole[|before| + n..|whole|] == [] + s[n..];
  }

  lemma MarkerBetween(part: string, before: string, pass: Pass, rest: string)
    requires part != [] && '[' !in part && ']' !in part && NotIn(part, Inner(pass))
    requires NotIn(part, before) && NotIn(part, [] + rest)
    ensures NotIn(part, before + (Marker(pass) + rest))
  {
    hide NotIn, Inner, Marker;
    assert [] + rest == rest;
    MarkerSeparates(part, before, pass, rest);
    assert before + (Marker(pass) + rest) == before + Marker(pass) + rest;
  }

  lemma {:induction false} SubAddsNothing(classes: Classes, pass: Pass, after: bool,
                                          before: string, s: string, part: string)
    requires part != [] && '[' !in part && ']' !in part && NotIn(part, Inner(pass))
    requires NotIn(part, before + s)
    ensures NotIn(part, before + Sub(classes, pass, after, s))
    decreases |s|
  {
    hide NotIn, Inner, Marker, Sub, MatchLength;
    if s == [] {
      SubOfNothing(classes, pass, after);
    } else {
      var n := MatchLength(classes, pass, after, s);
      SubStep(classes, pass, after, s);
      if n > 0 {
        CutOut(part, before, s, n);
        SubAddsNothing(classes, pass, classes.word(s[n - 1]), [], s[n..], part);
        MarkerBetween(part, before, pass, Sub(classes, pass, classes.word(s[n - 1]), s[n..]));
      } else {
        var rest := Sub(classes, pass, classes.word(s[0]), s[1..]);
        assert before + s == (before + [s[0]]) + s[1..];
        SubAddsNothing(classes, pass, classes.word(s[0]), before + [s[0]], s[1..], part);
        assert before + ([s[0]] + rest) == (before + [s[0]]) + rest;
      }
    }
  }

  lemma {:induction false} PassAddsNothing(classes: Classes, pass: Pass, after: bool, parts: seq<Part>, part: string)
    requires part != [] && '[' !in part && ']' !in part && NUL !in part && NotIn(part, Inner(pass))
    requires NotIn(part, Blank(parts))
    ensures NotIn(part, Blank(PassParts(classes, pass, after, parts)))
    decreases |parts|
  {
    hide NotIn, Inner, Sub, Blank, Flat, Lits;
    var n := FirstTok(parts);
    if n == |parts| {
      PlainText(parts);
      SubAddsNothingAlone(classes, pass, after, Flat(parts), part);
      BlankOfLits(Sub(classes, pass, after, Flat(parts)));
    } else {
      var front, back := parts[..n], parts[n + 1..];
      PlainText(front);
      BlankCut(part, parts, n);
      SubAddsNothingAlone(classes, pass, after, Flat(front), part);
      PassAddsNothing(classes, pass, false, back, part);
      var text', rest := Sub(classes, pass, after, Flat(front)), PassParts(classes, pass, false, back);
      NotInAround(part, text', NUL, Blank(rest));
      BlankAround(text', parts[n], rest);
    }
  }

  lemma PlainText(parts: seq<Part>)
    requires forall i :: 0 <= i < |parts| ==> parts[i].Lit?
    ensures Flat(parts) == Blank(parts)
  {
    LitsOnly(parts);
  }

  lemma SubAddsNothingAlone(classes: Classes, pass: Pass, after: bool, text: string, part: string)
    requires part != [] && '[' !in part && ']' !in part && NotIn(part, Inner(pass))
    requires NotIn(part, text)
    ensures NotIn(part, Sub(classes, pass, after, text))
  {
    hide NotIn, Inner, Sub;
    assert [] + text == text && [] + Sub(classes, pass, after, text) == Sub(classes, pass, after, text);
    SubAddsNothing(classes, pass, after, [], text, part);
  }

  lemma BlankAround(text: string, tok: Part, rest: seq<Part>)
    requires tok.Tok?
    ensures Blank(Lits(text) + [tok] + rest) == text + [NUL] + Blank(rest)
  {
    hide Lits;
    BlankSum(Lits(text) + [tok], rest);
    BlankSum(Lits(text), [tok]);
    BlankOfLits(text);
    assert [tok][1..] == [];
  }

  lemma {:induction false} SasAddsNothing(classes: Classes, after: bool, before: string, parts: seq<Part>, part: string)
    requires part != [] && '[' !in part && ']' !in part && NotIn(part, Inner(Sas))
    requires NotIn(part, before + Blank(parts))
    ensures NotIn(part, before + Blank(SasParts(classes, after, parts)))
    decreases |parts|
  {
    hide NotIn, Inner, Marker, Blank, SasLength, Lits, WordAfter;
    if parts == [] {
    } else {
      var n := SasLength(classes, after, parts);
      if n > 0 {
        var back := parts[n..];
        BlankSum(parts[..n], back);
        BlankLength(parts[..n]);
        assert parts == parts[..n] + back;
        assert Blank(parts)[n..] == Blank(back);
        CutOut(part, before, Blank(parts), n);
        var rest := SasParts(classes, WordAfter(classes, parts[n - 1]), back);
        SasAddsNothing(classes, WordAfter(classes, parts[n - 1]), [], back, part);
        MarkerBetween(part, before, Sas, Blank(rest));
        BlankSum(Lits(Marker(Sas)), rest);
        BlankOfLits(Marker(Sas));
      } else {
        var first, rest := [parts[0]], SasParts(classes, WordAfter(classes, parts[0]), parts[1..]);
        assert parts == first + parts[1..];
        BlankSum(first, parts[1..]);
        BlankSum(first, rest);
        assert before + Blank(parts) == (before + Blank(first)) + Blank(parts[1..]);
        SasAddsNothing(classes, WordAfter(classes, parts[0]), before + Blank(first), parts[1..], part);
        assert before + (Blank(first) + Blank(rest)) == (before + Blank(first)) + Blank(rest);
      }
    }
  }

  lemma {:induction false} BlankLength(parts: seq<Part>)
    ensures |Blank(parts)| == |parts|
  {
    if parts == [] {
    } else {
      BlankLength(parts[1..]);
    }
  }

  lemma OnceInRest(parts: seq<Part>, n: nat)
    requires AtMostOnce(parts) && 0 < n <= |parts|
    ensures AtMostOnce(parts[n..]) && (parts[0].Tok? ==> parts[0] !in parts[n..])
    ensures forall p: Part :: p in parts[n..] ==> p in parts
  {
  }

  /** The SAS pass adds no token and repeats none. */
  lemma {:induction false} SasKeepsOnce(classes: Classes, after: bool, parts: seq<Part>)
    requires AtMostOnce(parts)
    ensures AtMostOnce(SasParts(classes, after, parts))
    ensures forall p: Part :: p.Tok? && p in SasParts(classes, after, parts) ==> p in parts
    decreases |parts|
  {
    hide SasLength, Marker, Lits, AtMostOnce, WordAfter;
    if parts == [] {
      assert SasParts(classes, after, parts) == parts;
    } else {
      var n := SasLength(classes, after, parts);
      var k := if n > 0 then n else 1;
      var rest := SasParts(classes, WordAfter(classes, parts[k - 1]), parts[k..]);
      OnceInRest(parts, k);
      SasKeepsOnce(classes, WordAfter(classes, parts[k - 1]), parts[k..]);
      if n > 0 {
        LitsBefore(Marker(Sas), rest);
      } else {
        AddFirst(parts[0], rest);
      }
    }
  }

  lemma LitsBefore(s: string, rest: seq<Part>)
    requires AtMostOnce(rest)
    ensures AtMostOnce(Lits(s) + rest)
    ensures forall p: Part :: p.Tok? && p in Lits(s) + rest ==> p in rest
  {
    var all := Lits(s) + rest;
    forall j, k | 0 <= j < k < |all| && all[j].Tok? && all[k].Tok?
      ensures all[j] != all[k]
    {
      assert all[j] == rest[j - |s|] && all[k] == rest[k - |s|];
    }
  }

  // ----- the whole redaction -----

  function RedactHighEntropy(classes: Classes, text: string): string
  {
    Sub(classes, Hex, false, Sub(classes, Base64, false, Sub(classes, Sas, false, Sub(classes, Jwt, false, text))))
  }

  /** The same four passes on a text with tokens. */
  function RedactParts(classes: Classes, parts: seq<Part>): seq<Part>
  {
    PassParts(classes, Hex, false,
      PassParts(classes, Base64, false,
        SasParts(classes, false, PassParts(classes, Jwt, false, parts))))
  }

  predicate IsStripped(c: char)
  {
    var n := c as int;
    || (n < 0x20 && n != 0x09 && n != 0x0A && n != 0x0D)
    || n == 0x7F
    || 0x200B <= n <= 0x200F || n == 0x2060 || n == 0xFEFF
    || 0x202A <= n <= 0x202E || 0x2066 <= n <= 0x2069
  }

  function StripControlCharacters(text: string): string
  {
    if text == [] then []
    else (if IsStripped(text[0]) then [] else [text[0]]) + StripControlCharacters(text[1..])
  }

  function RedactFreeText(classes: Classes, text: string, bodies: seq<string>): string
    requires |bodies| == |Refs(text)|
  {
    StripControlCharacters(Restore(RedactHighEntropy(classes, Flat(Protect(text, bodies))), bodies, Refs(text)))
  }

  lemma PassesOnParts(classes: Classes, parts: seq<Part>)
    requires IsPython(classes) && AllBodies(parts)
    ensures RedactHighEntropy(classes, Flat(parts)) == Flat(RedactParts(classes, parts))
    ensures AllBodies(RedactParts(classes, parts))
    ensures Toks(RedactParts(classes, parts)) == Toks(SasParts(classes, false, PassParts(classes, Jwt, false, parts)))
  {
    hide IsPython, Sub, Flat, Toks, PassParts, SasParts, AllBodies;
    var jwt := PassParts(classes, Jwt, false, parts);
    SubIsPassParts(classes, Jwt, false, parts);
    SubIsSasParts(classes, false, jwt);
    var sas := SasParts(classes, false, jwt);
    SubIsPassParts(classes, Base64, false, sas);
    SubIsPassParts(classes, Hex, false, PassParts(classes, Base64, false, sas));
  }

  lemma ShortInner(pass: Pass, body: string)
    requires IsBody(body)
    ensures NotIn(body, Inner(pass))
  {
    TooShort(body, Inner(pass));
  }

  lemma BodyStaysFresh(classes: Classes, parts: seq<Part>, body: string)
    requires IsBody(body) && NotIn(body, Blank(parts))
    ensures NotIn(body, Blank(RedactParts(classes, parts)))
  {
    hide NotIn, Blank, PassParts, SasParts, Inner;
    BodyHasNoNul(body);
    ShortInner(Jwt, body);
    ShortInner(Sas, body);
    ShortInner(Base64, body);
    ShortInner(Hex, body);
    var jwt := PassParts(classes, Jwt, false, parts);
    PassAddsNothing(classes, Jwt, false, parts, body);
    assert [] + Blank(jwt) == Blank(jwt);
    SasAddsNothing(classes, false, [], jwt, body);
    var sas := SasParts(classes, false, jwt);
    assert [] + Blank(sas) == Blank(sas);
    PassAddsNothing(classes, Base64, false, sas, body);
    PassAddsNothing(classes, Hex, false, PassParts(classes, Base64, false, sas), body);
  }

  lemma {:induction false} ToksDistinct(parts: seq<Part>)
    requires AtMostOnce(parts)
    ensures forall j, k :: 0 <= j < k < |Toks(parts)| ==> Toks(parts)[j] != Toks(parts)[k]
  {
    if parts == [] {
    } else {
      ToksDistinct(parts[1..]);
      if parts[0].Tok? {
        ToksMembers(parts[1..], parts[0].body);
        forall k | 0 <= k < |Toks(parts[1..])|
          ensures Toks(parts[1..])[k] != parts[0].body
        {
          assert Toks(parts[1..])[k] in Toks(parts[1..]);
        }
      }
    }
  }

  lemma RedactKeepsOnce(classes: Classes, parts: seq<Part>)
    requires IsPython(classes) && AllBodies(parts) && AtMostOnce(parts)
    ensures AtMostOnce(RedactParts(classes, parts))
  {
    hide IsPython, Toks, PassParts, SasParts, AllBodies, AtMostOnce;
    var jwt := PassParts(classes, Jwt, false, parts);
    SubIsPassParts(classes, Jwt, false, parts);
    ToksDistinct(parts);
    DistinctToks(jwt);
    SasKeepsOnce(classes, false, jwt);
    PassesOnParts(classes, parts);
    ToksDistinct(SasParts(classes, false, jwt));
    DistinctToks(RedactParts(classes, parts));
  }

  /**
   Redacting free text puts every token that the passes leave back as its reference, in its
   place; only the final stripping of control characters touches what was put back.
   */
  lemma RedactionRestores(classes: Classes, text: string, bodies: seq<string>)
    requires IsPython(classes) && |bodies| == |Refs(text)| && Fresh(bodies, text)
    ensures RedactFreeText(classes, text, bodies)
         == StripControlCharacters(Render(RedactParts(classes, Protect(text, bodies)), bodies, Refs(text)))
  {
    hide IsPython, Flat, Protect, Refs, Restore, NotIn, Render, RedactParts, RedactHighEntropy, StripControlCharacters,
      PassParts, SasParts, Toks, Blank, IsBody;
    var parts := Protect(text, bodies);
    ProtectedIsRestorable(text, bodies);
    PassesOnParts(classes, parts);
    RedactKeepsOnce(classes, parts);
    var redacted := RedactParts(classes, parts);
    forall k | 0 <= k < |bodies|
      ensures NotIn(bodies[k], Blank(redacted))
    {
      BodyStaysFresh(classes, parts, bodies[k]);
    }
    RestoreRenders(redacted, bodies, Refs(text));
  }
}

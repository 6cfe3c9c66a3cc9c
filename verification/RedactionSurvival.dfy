/**
 Which `{{name}}` references survive `redact_free_text`, read off the text before any pass:
 src/apim_mcp/common/redaction.py.
 */
module RedactionSurvival {
  import opened RedactionTokens
  import opened TextLines
  import opened NamedValues
  import opened RedactionPasses
  import opened Redaction
  import opened RedactionScan

  // ----- where a reference is lost -----

  /** A name of a SAS parameter at part `i`: on a word boundary, and not in a JWT. */
  predicate ParameterAt(classes: Classes, parts: seq<Part>, i: nat)
    requires i < |parts|
  {
    NameHere(WordBefore(classes, parts, i), parts[i..]) && !InJwt(classes, false, parts, i)
  }

  predicate WordBefore(classes: Classes, parts: seq<Part>, i: nat)
    requires i <= |parts|
  {
    i > 0 && WordAfter(classes, parts[i - 1])
  }

  /** From some SAS parameter on, nothing before part `j` ends its value; a name is itself made of value characters. */
  ghost predicate InsideValue(classes: Classes, parts: seq<Part>, j: nat)
    requires j <= |parts|
  {
    exists i :: 0 <= i < j && ParameterAt(classes, parts, i) && RunsUpTo(classes, parts, i, j)
  }

  predicate RunsUpTo(classes: Classes, parts: seq<Part>, i: nat, j: nat)
    requires j <= |parts|
  {
    forall m :: i <= m < j ==> InValue(classes, parts[m])
  }

  /** The tokens from part `n` on that lie inside no value, in order. */
  ghost function Survivors(classes: Classes, parts: seq<Part>, n: nat): seq<string>
    requires n <= |parts|
    decreases |parts| - n
  {
    if n == |parts| then []
    else
      (if parts[n].Tok? && !InsideValue(classes, parts, n) then [parts[n].body] else [])
      + Survivors(classes, parts, n + 1)
  }

  lemma {:induction false} NoTokenNoSurvivor(classes: Classes, parts: seq<Part>, n: nat, k: nat)
    requires n <= k <= |parts| && forall i :: n <= i < k ==> parts[i].Lit?
    ensures Survivors(classes, parts, n) == Survivors(classes, parts, k)
    decreases k - n
  {
    hide InsideValue;
    if n == k {
    } else {
      NoTokenNoSurvivor(classes, parts, n + 1, k);
    }
  }

  lemma InsideNext(classes: Classes, parts: seq<Part>, n: nat)
    requires n < |parts|
    ensures InsideValue(classes, parts, n + 1)
       <==> InValue(classes, parts[n]) && (InsideValue(classes, parts, n) || ParameterAt(classes, parts, n))
  {
    hide InValue, ParameterAt;
    if InValue(classes, parts[n]) && ParameterAt(classes, parts, n) {
      assert RunsUpTo(classes, parts, n, n + 1);
    }
    if InValue(classes, parts[n]) && InsideValue(classes, parts, n) {
      var i :| 0 <= i < n && ParameterAt(classes, parts, i) && RunsUpTo(classes, parts, i, n);
      assert RunsUpTo(classes, parts, i, n + 1);
    }
    if InsideValue(classes, parts, n + 1) {
      var i :| 0 <= i < n + 1 && ParameterAt(classes, parts, i) && RunsUpTo(classes, parts, i, n + 1);
      assert i < n ==> RunsUpTo(classes, parts, i, n);
    }
  }

  lemma {:induction false} InsideOverJwt(classes: Classes, parts: seq<Part>, n: nat, k: nat)
    requires n <= k <= |parts|
    requires forall i :: n <= i < k ==> InValue(classes, parts[i]) && InJwt(classes, false, parts, i)
    ensures InsideValue(classes, parts, k) <==> InsideValue(classes, parts, n)
    decreases k
  {
    hide InValue, InsideValue, InJwt;
    if n == k {
    } else {
      InsideOverJwt(classes, parts, n, k - 1);
      InsideNext(classes, parts, k - 1);
    }
  }

  /** `n` is where the JWT pass looks for a match. */
  ghost predicate ScanPoint(classes: Classes, parts: seq<Part>, n: nat)
    requires n <= |parts|
  {
    forall i :: n <= i < |parts| ==>
      (InJwt(classes, false, parts, i) <==> InJwt(classes, WordBefore(classes, parts, n), parts[n..], i - n))
  }

  lemma NextScanPoint(classes: Classes, parts: seq<Part>, n: nat)
    requires n < |parts| && ScanPoint(classes, parts, n)
    ensures var k := JwtLength(classes, WordBefore(classes, parts, n), parts[n..]);
            && n + k <= |parts|
            && (forall i :: n <= i < n + k ==> InJwt(classes, false, parts, i))
            && (k == 0 ==> !InJwt(classes, false, parts, n))
            && ScanPoint(classes, parts, n + if k > 0 then k else 1)
  {
    hide JwtLength, WordAfter, InJwt;
    var rest, word := parts[n..], WordBefore(classes, parts, n);
    var k := JwtLength(classes, word, rest);
    var m := if k > 0 then k else 1;
    assert rest[m..] == parts[n + m..] && rest[m - 1] == parts[n + m - 1];
    forall i | n <= i < |parts|
      ensures i < n + m ==> (InJwt(classes, false, parts, i) <==> k > 0)
      ensures i >= n + m ==>
        (InJwt(classes, false, parts, i)
         <==> InJwt(classes, WordBefore(classes, parts, n + m), parts[n + m..], i - (n + m)))
    {
      InJwtStep(classes, word, rest, i - n);
    }
  }

  lemma SurvivorsFirst(classes: Classes, parts: seq<Part>, n: nat)
    requires n <= |parts|
    ensures Survivors(classes, parts, n)
         == if n == |parts| then []
            else (if parts[n].Tok? && !InsideValue(classes, parts, n) then [parts[n].body] else [])
                 + Survivors(classes, parts, n + 1)
  {
    hide InsideValue;
  }

  /** The scan keeps exactly the tokens that lie inside no value. */
  lemma {:induction false} ScanKeepsSurvivors(classes: Classes, parts: seq<Part>, n: nat)
    requires IsPython(classes) && n <= |parts| && ScanPoint(classes, parts, n)
    ensures Scan(classes, WordBefore(classes, parts, n), InsideValue(classes, parts, n), parts[n..])
         == Survivors(classes, parts, n)
    decreases |parts| - n
  {
    hide IsPython, InValue, InsideValue, NameHere, InJwt, JwtLength, ScanPoint, WordAfter, Scan, Survivors;
    if n < |parts| {
      var rest, word := parts[n..], WordBefore(classes, parts, n);
      var k := JwtLength(classes, word, rest);
      NextScanPoint(classes, parts, n);
      ScanUnfolds(classes, word, InsideValue(classes, parts, n), rest);
      if k > 0 {
        JwtMatch(classes, word, rest);
        assert forall i :: n <= i < n + k ==> parts[i] == rest[i - n];
        InsideOverJwt(classes, parts, n, n + k);
        assert forall i :: n <= i < n + k ==> parts[i].Lit? && InValue(classes, parts[i]);
        NoTokenNoSurvivor(classes, parts, n, n + k);
        assert rest[k..] == parts[n + k..];
        ScanKeepsSurvivors(classes, parts, n + k);
      } else {
        InsideNext(classes, parts, n);
        SurvivorsFirst(classes, parts, n);
        assert rest[1..] == parts[n + 1..];
        ScanKeepsSurvivors(classes, parts, n + 1);
      }
    } else {
      ScanOfNothing(classes, WordBefore(classes, parts, n), InsideValue(classes, parts, n));
      SurvivorsFirst(classes, parts, n);
    }
  }

  // ----- the tokens that the passes leave -----

  lemma {:induction false} SurvivorsMembers(classes: Classes, parts: seq<Part>, n: nat, j: nat)
    requires AtMostOnce(parts) && n <= j < |parts| && parts[j].Tok?
    ensures parts[j].body in Survivors(classes, parts, n) <==> !InsideValue(classes, parts, j)
    decreases j - n
  {
    hide InsideValue;
    if n < j {
      SurvivorsMembers(classes, parts, n + 1, j);
    } else {
      LaterSurvivors(classes, parts, n + 1, j);
    }
  }

  lemma {:induction false} LaterSurvivors(classes: Classes, parts: seq<Part>, n: nat, j: nat)
    requires AtMostOnce(parts) && j < n <= |parts| && parts[j].Tok?
    ensures parts[j].body !in Survivors(classes, parts, n)
    decreases |parts| - n
  {
    hide InsideValue;
    if n == |parts| {
    } else {
      LaterSurvivors(classes, parts, n + 1, j);
    }
  }

  lemma {:induction false} NoneIsLost(classes: Classes, parts: seq<Part>, n: nat)
    requires n <= |parts|
    requires forall j :: n <= j < |parts| && parts[j].Tok? ==> !InsideValue(classes, parts, j)
    ensures Survivors(classes, parts, n) == Toks(parts[n..])
    decreases |parts| - n
  {
    hide InsideValue;
    if n == |parts| {
    } else {
      NoneIsLost(classes, parts, n + 1);
      assert parts[n..][1..] == parts[n + 1..];
    }
  }

  lemma SurvivorsOfParts(classes: Classes, parts: seq<Part>)
    requires IsPython(classes) && AllBodies(parts)
    ensures Toks(RedactParts(classes, parts)) == Survivors(classes, parts, 0)
  {
    hide IsPython, AllBodies, RedactParts, PassParts, SasParts, ScanSas, Scan, InsideValue, JwtParts, Toks, Survivors,
      InJwt;
    PassesOnParts(classes, parts);
    JwtPassIsStepwise(classes, false, parts);
    SasKeepsScanned(classes, false, JwtParts(classes, false, parts));
    ScanAfterJwt(classes, false, false, false, parts);
    assert parts[0..] == parts;
    ScanKeepsSurvivors(classes, parts, 0);
    assert !InsideValue(classes, parts, 0) by { NothingBefore(classes, parts); }
  }

  lemma NothingBefore(classes: Classes, parts: seq<Part>)
    ensures !InsideValue(classes, parts, 0)
  {
  }

  /** The tokens from part `j` on are the last of those from an earlier part on. */
  lemma {:induction false} SurvivorsAreSuffix(classes: Classes, parts: seq<Part>, n: nat, j: nat)
    requires n <= j <= |parts|
    ensures var all, rest := Survivors(classes, parts, n), Survivors(classes, parts, j);
              |rest| <= |all| && all[|all| - |rest|..] == rest
    decreases j - n
  {
    hide InsideValue;
    if n == j {
    } else {
      SurvivorsAreSuffix(classes, parts, n + 1, j);
    }
  }

  /** When as many tokens survive as there are, none is lost. */
  lemma {:induction false} NoneIsLostByCount(classes: Classes, parts: seq<Part>, n: nat)
    requires n <= |parts|
    ensures |Survivors(classes, parts, n)| <= |Toks(parts[n..])|
    ensures |Survivors(classes, parts, n)| == |Toks(parts[n..])| ==>
              forall j :: n <= j < |parts| && parts[j].Tok? ==> !InsideValue(classes, parts, j)
    decreases |parts| - n
  {
    hide InsideValue;
    if n == |parts| {
    } else {
      NoneIsLostByCount(classes, parts, n + 1);
      assert parts[n..][1..] == parts[n + 1..];
    }
  }

  // ----- texts without parameters -----

  lemma StartIsOccurrence(parts: seq<Part>, text: string, i: nat)
    requires i <= |parts| && StartsWith(parts[i..], text)
    ensures OccursAt(Blank(parts), text, i)
  {
    hide Blank;
    BlankLength(parts);
    forall k | 0 <= k < |text|
      ensures Blank(parts)[i + k] == text[k]
    {
      assert parts[i + k] == parts[i..][k];
      BlankAt(parts, i + k);
    }
  }

  lemma NoNameAt(parts: seq<Part>, text: string, i: nat)
    requires i <= |parts| && NotIn(text, Blank(parts))
    ensures !StartsWith(parts[i..], text)
  {
    hide Blank, StartsWith, OccursAt;
    if StartsWith(parts[i..], text) {
      StartIsOccurrence(parts, text, i);
    }
  }

  lemma {:induction false} BlankAt(parts: seq<Part>, i: nat)
    requires i < |parts|
    ensures i < |Blank(parts)| && Blank(parts)[i] == if parts[i].Lit? then parts[i].c else NUL
  {
    if i == 0 {
    } else {
      BlankAt(parts[1..], i - 1);
    }
  }

  lemma NoParameterNoValue(classes: Classes, parts: seq<Part>, j: nat)
    requires NotIn("sig=", Blank(parts)) && NotIn("sv=", Blank(parts)) && j <= |parts|
    ensures !InsideValue(classes, parts, j)
  {
    hide NotIn, Blank, StartsWith, RunsUpTo, InJwt;
    forall i | 0 <= i < |parts|
      ensures !ParameterAt(classes, parts, i)
    {
      NoNameAt(parts, "sig=", i);
      NoNameAt(parts, "sv=", i);
    }
  }
}

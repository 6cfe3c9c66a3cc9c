/**
 The JWT and SAS passes on a text with tokens as one scan from left to right:
 src/apim_mcp/common/redaction.py.
 */
module RedactionScan {
  import opened RedactionTokens
  import opened NamedValues
  import opened RedactionPasses
  import opened Redaction

  // ----- the JWT pass, match by match -----

  /** Length of the JWT match at the start, 0 when there is none: no match reaches into a token. */
  function JwtLength(classes: Classes, after: bool, parts: seq<Part>): (n: nat)
    ensures n <= FirstTok(parts)
  {
    var front := parts[..FirstTok(parts)];
    LitsOnly(front);
    MatchJwt(classes, after, Flat(front))
  }

  function JwtParts(classes: Classes, after: bool, parts: seq<Part>): seq<Part>
    decreases |parts|
  {
    if parts == [] then []
    else
      var n := JwtLength(classes, after, parts);
      if n > 0 then Lits(Marker(Jwt)) + JwtParts(classes, WordAfter(classes, parts[n - 1]), parts[n..])
      else [parts[0]] + JwtParts(classes, WordAfter(classes, parts[0]), parts[1..])
  }

  /** Part `i` lies in a match of the JWT pattern. */
  predicate InJwt(classes: Classes, after: bool, parts: seq<Part>, i: nat)
    requires i < |parts|
    decreases |parts|
  {
    var n := JwtLength(classes, after, parts);
    if n > 0 then i < n || InJwt(classes, WordAfter(classes, parts[n - 1]), parts[n..], i - n)
    else i > 0 && InJwt(classes, WordAfter(classes, parts[0]), parts[1..], i - 1)
  }

  lemma FirstTokOfRest(parts: seq<Part>, n: nat)
    requires n <= FirstTok(parts)
    ensures FirstTok(parts[n..]) == FirstTok(parts) - n
  {
    var m, rest := FirstTok(parts), parts[n..];
    assert forall i :: 0 <= i < m - n ==> rest[i] == parts[i + n];
    assert FirstTok(rest) < |rest| ==> rest[FirstTok(rest)] == parts[FirstTok(rest) + n];
  }

  lemma LitsSum(a: string, b: string)
    ensures Lits(a + b) == Lits(a) + Lits(b)
  {
  }

  /** The text before the first token, from its `n`-th character on. */
  lemma FrontFrom(parts: seq<Part>, n: nat)
    requires n <= FirstTok(parts)
    ensures var front := parts[..FirstTok(parts)];
              && parts[n..][..FirstTok(parts[n..])] == front[n..]
              && |Flat(front)| == |front| && Flat(front)[n..] == Flat(front[n..])
              && forall i :: 0 <= i < |front| ==> Flat(front)[i] == parts[i].c
  {
    hide Flat, FirstTok;
    FirstTokOfRest(parts, n);
    var front := parts[..FirstTok(parts)];
    LitsOnly(front);
    LitsOnly(front[n..]);
  }

  /** One step of the JWT pass as PassParts describes it. */
  lemma JwtStep(classes: Classes, after: bool, parts: seq<Part>, n: nat, a: string)
    requires 0 < n <= FirstTok(parts)
    requires var front := Flat(parts[..FirstTok(parts)]);
             && |front| == FirstTok(parts)
             && Sub(classes, Jwt, after, front) == a + Sub(classes, Jwt, classes.word(front[n - 1]), front[n..])
    ensures PassParts(classes, Jwt, after, parts)
         == Lits(a) + PassParts(classes, Jwt, WordAfter(classes, parts[n - 1]), parts[n..])
  {
    hide Sub, Flat, Lits, FirstTok;
    FrontFrom(parts, n);
    FirstTokOfRest(parts, n);
    var m := FirstTok(parts);
    var word := WordAfter(classes, parts[n - 1]);
    assert parts[..m] == parts[..m];
    LitsSum(a, Sub(classes, Jwt, word, Flat(parts[..m])[n..]));
    if m == |parts| {
      assert parts[..m] == parts;
      assert parts[n..][..m - n] == parts[n..];
    } else {
      assert parts[n..][m - n] == parts[m] && parts[n..][m - n + 1..] == parts[m + 1..];
    }
  }

  lemma {:induction false} JwtPassIsStepwise(classes: Classes, after: bool, parts: seq<Part>)
    ensures PassParts(classes, Jwt, after, parts) == JwtParts(classes, after, parts)
    decreases |parts|
  {
    hide Sub, Flat, MatchJwt, Lits, FirstTok, Marker, PassParts;
    if parts == [] {
      NothingToPass(classes, after);
    } else if FirstTok(parts) == 0 {
      TokenFirst(classes, after, parts);
      JwtPassIsStepwise(classes, false, parts[1..]);
    } else {
      var n := JwtLength(classes, after, parts);
      FrontFrom(parts, 0);
      var front := Flat(parts[..FirstTok(parts)]);
      SubStep(classes, Jwt, after, front);
      if n > 0 {
        JwtStep(classes, after, parts, n, Marker(Jwt));
        JwtPassIsStepwise(classes, WordAfter(classes, parts[n - 1]), parts[n..]);
      } else {
        JwtStep(classes, after, parts, 1, [front[0]]);
        OneLit(front[0]);
        JwtPassIsStepwise(classes, WordAfter(classes, parts[0]), parts[1..]);
      }
    }
  }

  lemma OneLit(c: char)
    ensures Lits([c]) == [Lit(c)]
  {
  }

  lemma NothingToPass(classes: Classes, after: bool)
    ensures PassParts(classes, Jwt, after, []) == []
  {
  }

  lemma TokenFirst(classes: Classes, after: bool, parts: seq<Part>)
    requires parts != [] && FirstTok(parts) == 0
    ensures PassParts(classes, Jwt, after, parts) == [parts[0]] + PassParts(classes, Jwt, false, parts[1..])
    ensures JwtLength(classes, after, parts) == 0 && parts[0].Tok?
  {
    assert parts[..0] == [];
    assert Sub(classes, Jwt, after, []) == [] && Lits([]) == [];
  }

  /** A match consists of characters that a SAS value may hold, begins with `e` and ends at a word boundary. */
  lemma JwtMatch(classes: Classes, after: bool, parts: seq<Part>)
    requires IsPython(classes) && JwtLength(classes, after, parts) > 0
    ensures var n := JwtLength(classes, after, parts);
            && parts[0] == Lit('e')
            && (forall i :: 0 <= i < n ==> parts[i].Lit? && InValue(classes, parts[i]))
            && (n < |parts| && WordAfter(classes, parts[n - 1]) ==> !WordAfter(classes, parts[n]))
  {
    hide IsPython, MatchJwt, InRun, FirstTok, Flat;
    var m, n := FirstTok(parts), JwtLength(classes, after, parts);
    FrontFrom(parts, 0);
    var front := Flat(parts[..m]);
    JwtChars(classes, after, front);
    forall i | 0 <= i < n
      ensures parts[i].Lit? && InValue(classes, parts[i])
    {
      JwtCharInValue(classes, front[i]);
      assert front[i] == parts[i].c;
    }
    if n < m {
      assert front[n] == parts[n].c;
    }
  }

  lemma JwtCharInValue(classes: Classes, c: char)
    requires IsPython(classes) && (InRun(classes, Jwt, c) || c == '.')
    ensures InRun(classes, Sas, c)
  {
    assert (c as int) < 128;
  }

  lemma JwtChars(classes: Classes, after: bool, s: string)
    requires MatchJwt(classes, after, s) > 0
    ensures var n := MatchJwt(classes, after, s);
            && s[0] == 'e' && BoundaryAt(classes, s, n)
            && forall i :: 0 <= i < n ==> InRun(classes, Jwt, s[i]) || s[i] == '.'
  {
    hide InRun, LastBoundary, Run;
    var a := Segment(classes, s, 3);
    var b := Segment(classes, s, a + 1);
    var c := Segment(classes, s, b + 1);
    assert InRun(classes, Jwt, 'e') && InRun(classes, Jwt, 'y') && InRun(classes, Jwt, 'J') by { HeadChars(classes); }
    assert s[0] == "eyJ"[0] && s[1] == "eyJ"[1] && s[2] == "eyJ"[2];
    assert forall i :: 3 <= i < a ==> s[i] == s[3..][i - 3];
    assert forall i :: a + 1 <= i < b ==> s[i] == s[a + 1..][i - a - 1];
    assert forall i :: b + 1 <= i < c ==> s[i] == s[b + 1..][i - b - 1];
  }

  lemma HeadChars(classes: Classes)
    ensures InRun(classes, Jwt, 'e') && InRun(classes, Jwt, 'y') && InRun(classes, Jwt, 'J')
  {
  }

  // ----- one scan from left to right -----

  /** A SAS parameter name stands at the start, on a word boundary. */
  predicate NameHere(after: bool, parts: seq<Part>)
  {
    !after && (StartsWith(parts, "sig=") || StartsWith(parts, "sv="))
  }

  /** The tokens left when everything inside an open value is dropped. */
  function ScanSas(classes: Classes, after: bool, open: bool, parts: seq<Part>): seq<string>
    decreases |parts|
  {
    if parts == [] then []
    else
      (if parts[0].Tok? && !open then [parts[0].body] else [])
      + ScanSas(classes, WordAfter(classes, parts[0]),
                InValue(classes, parts[0]) && (open || NameHere(after, parts)), parts[1..])
  }

  /** The same on a text that the JWT pass has not seen yet. */
  function Scan(classes: Classes, after: bool, open: bool, parts: seq<Part>): seq<string>
    decreases |parts|
  {
    if parts == [] then []
    else
      var n := JwtLength(classes, after, parts);
      if n > 0 then Scan(classes, WordAfter(classes, parts[n - 1]), open, parts[n..])
      else
        (if parts[0].Tok? && !open then [parts[0].body] else [])
        + Scan(classes, WordAfter(classes, parts[0]),
               InValue(classes, parts[0]) && (open || NameHere(after, parts)), parts[1..])
  }

  lemma ScanSasFirst(classes: Classes, after: bool, open: bool, parts: seq<Part>)
    requires parts != []
    ensures ScanSas(classes, after, open, parts)
         == (if parts[0].Tok? && !open then [parts[0].body] else [])
          + ScanSas(classes, WordAfter(classes, parts[0]),
                    InValue(classes, parts[0]) && (open || NameHere(after, parts)), parts[1..])
  {
    hide InValue, NameHere, WordAfter;
  }

  /** Characters other than `s` open nothing, and those of a value close nothing. */
  lemma {:induction false} PlainRun(classes: Classes, after: bool, open: bool, parts: seq<Part>, n: nat)
    requires n <= |parts|
    requires forall i :: 0 <= i < n ==> parts[i].Lit? && parts[i] != Lit('s') && (open ==> InValue(classes, parts[i]))
    ensures ScanSas(classes, after, open, parts)
         == ScanSas(classes, if n > 0 then WordAfter(classes, parts[n - 1]) else after, open, parts[n..])
    decreases n
  {
    hide InValue, NameHere, WordAfter, ScanSas;
    if n == 0 {
      assert parts[0..] == parts;
    } else {
      NoNameUnlessS(after, parts);
      ScanSasFirst(classes, after, open, parts);
      assert parts[1..][n - 1..] == parts[n..];
      PlainRun(classes, WordAfter(classes, parts[0]), open, parts[1..], n - 1);
    }
  }

  lemma NoNameUnlessS(after: bool, parts: seq<Part>)
    requires parts != [] && parts[0] != Lit('s')
    ensures !NameHere(after, parts)
  {
    assert "sig="[0] == 's' && "sv="[0] == 's';
  }

  lemma JwtMarkerChars(classes: Classes)
    requires IsPython(classes)
    ensures var m := Marker(Jwt);
            && (forall i :: 0 <= i < |m| ==> m[i] != 's' && InRun(classes, Sas, m[i]))
            && |m| > 0 && m[0] == '[' && m[|m| - 1] == ']' && !classes.word(']')
  {
    var m := Marker(Jwt);
    assert forall i :: 0 <= i < |m| ==> (m[i] as int) < 128;
    assert (']' as int) < 128;
  }

  /** The marker of the JWT pass neither opens nor closes a value. */
  lemma JwtMarkerOpensNothing(classes: Classes, after: bool, open: bool, rest: seq<Part>)
    requires IsPython(classes)
    ensures ScanSas(classes, after, open, Lits(Marker(Jwt)) + rest) == ScanSas(classes, false, open, rest)
  {
    hide IsPython, InRun, Marker, ScanSas;
    JwtMarkerChars(classes);
    var n, parts := |Marker(Jwt)|, Lits(Marker(Jwt)) + rest;
    assert forall i :: 0 <= i < n ==> parts[i] == Lit(Marker(Jwt)[i]);
    PlainRun(classes, after, open, parts, n);
    assert parts[n..] == rest;
  }

  /** An open value whose run has ended makes no difference. */
  lemma ClosedByNext(classes: Classes, after: bool, parts: seq<Part>)
    requires parts != [] ==> !InValue(classes, parts[0])
    ensures ScanSas(classes, after, true, parts) == ScanSas(classes, after, false, parts)
  {
  }

  /** Inside a value nothing is kept. */
  lemma {:induction false} ValueIsDropped(classes: Classes, after: bool, parts: seq<Part>, n: nat)
    requires n <= |parts| && forall i :: 0 <= i < n ==> InValue(classes, parts[i])
    ensures ScanSas(classes, after, true, parts)
         == ScanSas(classes, if n > 0 then WordAfter(classes, parts[n - 1]) else after, true, parts[n..])
    decreases n
  {
    hide InValue, NameHere, WordAfter, ScanSas;
    if n == 0 {
      assert parts[0..] == parts;
    } else {
      ScanSasFirst(classes, after, true, parts);
      assert parts[1..][n - 1..] == parts[n..];
      ValueIsDropped(classes, WordAfter(classes, parts[0]), parts[1..], n - 1);
    }
  }

  lemma NameIsValue(classes: Classes, parts: seq<Part>, name: string)
    requires IsPython(classes) && StartsWith(parts, name) && (name == "sig=" || name == "sv=")
    ensures forall i :: 0 <= i < |name| ==> parts[i].Lit? && InValue(classes, parts[i])
  {
    forall i | 0 <= i < |name|
      ensures parts[i].Lit? && InValue(classes, parts[i])
    {
      assert parts[i] == Lit(name[i]) && (name[i] as int) < 128;
    }
  }

  /** A SAS match is a name and the run of value characters behind it. */
  lemma SasMatch(classes: Classes, after: bool, parts: seq<Part>)
    requires IsPython(classes) && parts != []
    ensures var n := SasLength(classes, after, parts);
            && (n > 0 ==> NameHere(after, parts) && n > 1 && parts[0].Lit?)
            && (forall i :: 0 <= i < n ==> InValue(classes, parts[i]))
            && (0 < n < |parts| ==> !InValue(classes, parts[n]))
  {
    hide IsPython, InValue, StartsWith;
    var n := SasLength(classes, after, parts);
    if n > 0 {
      var name := if StartsWith(parts, "sig=") then "sig=" else "sv=";
      NameIsValue(classes, parts, name);
      var k := |name|;
      assert n == k + ValueRun(classes, parts[k..]);
      forall i | 0 <= i < n
        ensures InValue(classes, parts[i])
      {
        assert i >= k ==> parts[i] == parts[k..][i - k];
      }
    }
  }

  /** Where a name stands but nothing is matched, the value is empty. */
  lemma EmptyValue(classes: Classes, after: bool, parts: seq<Part>)
    requires IsPython(classes) && parts != [] && SasLength(classes, after, parts) == 0
    ensures ScanSas(classes, WordAfter(classes, parts[0]), NameHere(after, parts), parts[1..])
         == ScanSas(classes, WordAfter(classes, parts[0]), false, parts[1..])
  {
    hide IsPython, InValue, ScanSas;
    if NameHere(after, parts) {
      var name := if StartsWith(parts, "sig=") then "sig=" else "sv=";
      NameIsValue(classes, parts, name);
      var k := |name|;
      var word, rest := WordAfter(classes, parts[0]), parts[1..];
      assert forall i :: 0 <= i < k - 1 ==> rest[i] == parts[i + 1] == Lit(name[i + 1]);
      assert rest[k - 1..] == parts[k..];
      ValueIsDropped(classes, word, rest, k - 1);
      PlainRun(classes, word, false, rest, k - 1);
      ClosedByNext(classes, WordAfter(classes, rest[k - 2]), parts[k..]);
    }
  }

  lemma NoToks()
    ensures Toks([]) == []
  {
  }

  lemma ToksFirst(p: Part, rest: seq<Part>)
    ensures Toks([p] + rest) == (if p.Tok? then [p.body] else []) + Toks(rest)
  {
    assert ([p] + rest)[1..] == rest;
  }

  lemma ScanStep(classes: Classes, after: bool, parts: seq<Part>)
    requires IsPython(classes) && parts != [] && SasLength(classes, after, parts) == 0
    ensures ScanSas(classes, after, false, parts)
         == (if parts[0].Tok? then [parts[0].body] else [])
          + ScanSas(classes, WordAfter(classes, parts[0]), NameHere(after, parts), parts[1..])
  {
    hide IsPython, StartsWith, InValue;
    if NameHere(after, parts) {
      NameIsValue(classes, parts, if StartsWith(parts, "sig=") then "sig=" else "sv=");
    }
  }

  /** The tokens that the SAS pass leaves are those of the scan. */
  lemma {:induction false} SasKeepsScanned(classes: Classes, after: bool, parts: seq<Part>)
    requires IsPython(classes)
    ensures Toks(SasParts(classes, after, parts)) == ScanSas(classes, after, false, parts)
    decreases |parts|
  {
    hide IsPython, InValue, NameHere, SasLength, Lits, Marker, Toks;
    if parts == [] {
      NoToks();
    } else {
      var n := SasLength(classes, after, parts);
      SasMatch(classes, after, parts);
      if n > 0 {
        var word := WordAfter(classes, parts[n - 1]);
        SasKeepsScanned(classes, word, parts[n..]);
        ToksSum(Lits(Marker(Sas)), SasParts(classes, word, parts[n..]));
        FlatLits(Marker(Sas));
        assert parts[1..][n - 1..] == parts[n..];
        ValueIsDropped(classes, WordAfter(classes, parts[0]), parts[1..], n - 1);
        ClosedByNext(classes, word, parts[n..]);
      } else {
        SasKeepsScanned(classes, WordAfter(classes, parts[0]), parts[1..]);
        ToksFirst(parts[0], SasParts(classes, WordAfter(classes, parts[0]), parts[1..]));
        EmptyValue(classes, after, parts);
        ScanStep(classes, after, parts);
      }
    }
  }

  // ----- the JWT pass hides parameter names, nothing else -----

  lemma {:induction false} StartsAfterJwt(classes: Classes, after: bool, parts: seq<Part>, text: string)
    requires IsPython(classes) && 'e' !in text && '[' !in text
    ensures StartsWith(JwtParts(classes, after, parts), text) <==> StartsWith(parts, text)
    decreases |text|
  {
    hide IsPython, Marker, Lits, StartsWith, JwtLength;
    if text == [] {
      EmptyStarts(JwtParts(classes, after, parts));
      EmptyStarts(parts);
    } else if parts != [] {
      var q := JwtParts(classes, after, parts);
      StartsWithStep(parts, text);
      JwtMarkerChars(classes);
      var n := JwtLength(classes, after, parts);
      assert text[0] in text;
      if n > 0 {
        JwtMatch(classes, after, parts);
        LitsFirst(Marker(Jwt), JwtParts(classes, WordAfter(classes, parts[n - 1]), parts[n..]));
        StartsWithStep(q, text);
      } else {
        assert q == [parts[0]] + q[1..];
        StartsWithStep(q, text);
        StartsAfterJwt(classes, WordAfter(classes, parts[0]), parts[1..], text[1..]);
      }
    }
  }

  lemma EmptyStarts(parts: seq<Part>)
    ensures StartsWith(parts, [])
  {
  }

  lemma LitsFirst(s: string, rest: seq<Part>)
    requires s != []
    ensures Lits(s) + rest != [] && (Lits(s) + rest)[0] == Lit(s[0])
  {
  }

  lemma NameAfterJwt(classes: Classes, after: bool, now: bool, parts: seq<Part>)
    requires IsPython(classes)
    ensures NameHere(now, JwtParts(classes, after, parts)) <==> NameHere(now, parts)
  {
    hide StartsWith, JwtParts;
    StartsAfterJwt(classes, after, parts, "sig=");
    StartsAfterJwt(classes, after, parts, "sv=");
  }

  /** No name can stand at `parts` that is told apart by what the previous character was. */
  ghost predicate SameNames(after: bool, now: bool, parts: seq<Part>)
  {
    NameHere(after, parts) <==> NameHere(now, parts)
  }

  lemma NoNameAtBoundary(classes: Classes, after: bool, parts: seq<Part>)
    requires IsPython(classes) && (after && parts != [] ==> !WordAfter(classes, parts[0]))
    ensures SameNames(after, false, parts)
  {
    if parts != [] && parts[0] == Lit('s') {
      assert ('s' as int) < 128;
    } else if parts != [] {
      NoNameUnlessS(after, parts);
      NoNameUnlessS(false, parts);
    }
  }

  /** Scanning after the JWT pass and scanning around its matches leave the same tokens. */
  lemma {:induction false} ScanAfterJwt(classes: Classes, after: bool, now: bool, open: bool, parts: seq<Part>)
    requires IsPython(classes) && SameNames(after, now, parts)
    ensures ScanSas(classes, now, open, JwtParts(classes, after, parts)) == Scan(classes, after, open, parts)
    decreases |parts|
  {
    hide IsPython, Marker, Lits, StartsWith, InValue, JwtLength, WordAfter, NameHere, Scan, ScanSas, JwtParts;
    if parts == [] {
      NothingToScan(classes, after, now, open);
    } else {
      var n := JwtLength(classes, after, parts);
      ScanUnfolds(classes, after, open, parts);
      JwtPartsFirst(classes, after, parts);
      if n > 0 {
        var word := WordAfter(classes, parts[n - 1]);
        JwtMatch(classes, after, parts);
        JwtMarkerOpensNothing(classes, now, open, JwtParts(classes, word, parts[n..]));
        NoNameAtBoundary(classes, word, parts[n..]);
        ScanAfterJwt(classes, word, false, open, parts[n..]);
      } else {
        var word := WordAfter(classes, parts[0]);
        NameAfterJwt(classes, after, now, parts);
        var rest := JwtParts(classes, word, parts[1..]);
        assert JwtParts(classes, after, parts) == [parts[0]] + rest;
        ScanSasFirst(classes, now, open, [parts[0]] + rest);
        assert ([parts[0]] + rest)[1..] == rest;
        ScanAfterJwt(classes, word, word, InValue(classes, parts[0]) && (open || NameHere(after, parts)), parts[1..]);
      }
    }
  }

  lemma NothingToScan(classes: Classes, after: bool, now: bool, open: bool)
    ensures JwtParts(classes, after, []) == []
    ensures ScanSas(classes, now, open, []) == [] == Scan(classes, after, open, [])
  {
  }

  lemma JwtPartsFirst(classes: Classes, after: bool, parts: seq<Part>)
    requires parts != []
    ensures var n := JwtLength(classes, after, parts);
              JwtParts(classes, after, parts)
              == if n > 0 then Lits(Marker(Jwt)) + JwtParts(classes, WordAfter(classes, parts[n - 1]), parts[n..])
                 else [parts[0]] + JwtParts(classes, WordAfter(classes, parts[0]), parts[1..])
  {
    hide JwtLength, Lits, Marker, WordAfter;
  }

  lemma InJwtStep(classes: Classes, after: bool, parts: seq<Part>, i: nat)
    requires i < |parts|
    ensures var n := JwtLength(classes, after, parts);
              InJwt(classes, after, parts, i)
              <==> if n > 0 then i < n || InJwt(classes, WordAfter(classes, parts[n - 1]), parts[n..], i - n)
                   else i > 0 && InJwt(classes, WordAfter(classes, parts[0]), parts[1..], i - 1)
  {
    hide JwtLength, WordAfter;
  }

  lemma ScanUnfolds(classes: Classes, after: bool, open: bool, parts: seq<Part>)
    requires parts != []
    ensures var n := JwtLength(classes, after, parts);
              Scan(classes, after, open, parts)
              == if n > 0 then Scan(classes, WordAfter(classes, parts[n - 1]), open, parts[n..])
                 else (if parts[0].Tok? && !open then [parts[0].body] else [])
                      + Scan(classes, WordAfter(classes, parts[0]),
                             InValue(classes, parts[0]) && (open || NameHere(after, parts)), parts[1..])
  {
    hide JwtLength, WordAfter, InValue, NameHere;
  }

  lemma ScanOfNothing(classes: Classes, after: bool, open: bool)
    ensures Scan(classes, after, open, []) == []
  {
  }
}

/**
 Which parts of a text are `{{name}}` references, and which characters are stripped:
 src/apim_mcp/common/redaction.py.
 */
module RedactionReferences {
  import opened RedactionTokens
  import opened NamedValues
  import opened Redaction
  import opened RedactionMatches

  // ----- which parts of a text are references -----

  /** Two opening braces, at least one character that is no closing brace, two closing braces. */
  predicate IsReference(s: string, n: nat)
  {
    && 5 <= n <= |s|
    && s[0] == '{' && s[1] == '{' && s[n - 2] == '}' && s[n - 1] == '}'
    && forall i :: 2 <= i < n - 2 ==> s[i] != '}'
  }

  lemma {:induction false} NameEnds(s: string, n: nat)
    requires n <= |s| && (forall i :: 0 <= i < n ==> s[i] != '}') && (n < |s| ==> s[n] == '}')
    ensures NameLength(s) == n
  {
    if n == 0 {
    } else {
      NameEnds(s[1..], n - 1);
    }
  }

  lemma {:induction false} NameHasNoBrace(s: string)
    ensures forall i :: 0 <= i < NameLength(s) ==> s[i] != '}'
  {
    if s == [] || s[0] == '}' {
    } else {
      NameHasNoBrace(s[1..]);
      assert forall i :: 1 <= i < |s| ==> s[i] == s[1..][i - 1];
    }
  }

  /** The length found is that of the one reference that starts here, and 0 when none does. */
  lemma RefLengthIs(s: string)
    ensures RefLength(s) > 0 ==> IsReference(s, RefLength(s))
    ensures forall n: nat :: IsReference(s, n) ==> n == RefLength(s)
  {
    hide NameLength;
    if |s| >= 2 {
      var t := s[2..];
      assert forall i :: 0 <= i < |t| ==> t[i] == s[i + 2];
      NameHasNoBrace(t);
      forall n: nat | IsReference(s, n)
        ensures n == RefLength(s)
      {
        NameEnds(t, n - 4);
      }
    }
  }

  /** The references of a text from position `from` on, each the first after the one before. */
  ghost predicate AreReferences(text: string, from: nat, spans: seq<Span>)
    requires from <= |text|
    decreases |spans|
  {
    if spans == [] then forall i, n: nat :: from <= i < |text| ==> !IsReference(text[i..], n)
    else
      var Span(start, end) := spans[0];
      && from <= start < end <= |text|
      && (forall i, n: nat :: from <= i < start ==> !IsReference(text[i..], n))
      && IsReference(text[start..], end - start)
      && AreReferences(text, end, spans[1..])
  }

  /** The text with a token for each of the spans, in order. */
  function Tokenized(text: string, from: nat, spans: seq<Span>, bodies: seq<string>): seq<Part>
    requires InOrder(text, from, spans) && |bodies| == |spans|
    decreases |spans|
  {
    if spans == [] then Lits(text[from..])
    else Lits(text[from..spans[0].start]) + [Tok(bodies[0])] + Tokenized(text, spans[0].end, spans[1..], bodies[1..])
  }

  function Slices(text: string, spans: seq<Span>): (r: seq<string>)
    requires forall k :: 0 <= k < |spans| ==> spans[k].start <= spans[k].end <= |text|
    ensures |r| == |spans| && forall k :: 0 <= k < |spans| ==> r[k] == text[spans[k].start..spans[k].end]
  {
    seq(|spans|, k requires 0 <= k < |spans| => text[spans[k].start..spans[k].end])
  }

  lemma {:induction false} SpansAreInside(text: string, from: nat, spans: seq<Span>)
    requires InOrder(text, from, spans)
    ensures forall k :: 0 <= k < |spans| ==> spans[k].start <= spans[k].end <= |text|
    decreases |spans|
  {
    if spans == [] {
    } else {
      SpansAreInside(text, spans[0].end, spans[1..]);
    }
  }

  lemma NoReferenceHere(text: string, from: nat, spans: seq<Span>)
    requires from < |text| && RefLength(text[from..]) == 0
    requires AreReferences(text, from + 1, spans) && InOrder(text, from + 1, spans)
    ensures AreReferences(text, from, spans) && InOrder(text, from, spans)
    ensures forall bodies: seq<string> :: |bodies| == |spans| ==>
              Tokenized(text, from, spans, bodies) == [Lit(text[from])] + Tokenized(text, from + 1, spans, bodies)
  {
    hide IsReference, RefLength;
    RefLengthIs(text[from..]);
    assert forall n: nat :: !IsReference(text[from..], n) by { NoneOfLengthZero(text[from..]); }
    forall bodies: seq<string> | |bodies| == |spans|
      ensures Tokenized(text, from, spans, bodies) == [Lit(text[from])] + Tokenized(text, from + 1, spans, bodies)
    {
      OneMoreLit(text, from, spans, bodies);
    }
  }

  lemma NoneOfLengthZero(s: string)
    requires forall n: nat :: IsReference(s, n) ==> n == 0
    ensures forall n: nat :: !IsReference(s, n)
  {
  }

  lemma OneMoreLit(text: string, from: nat, spans: seq<Span>, bodies: seq<string>)
    requires from < |text| && InOrder(text, from + 1, spans) && |bodies| == |spans|
    ensures InOrder(text, from, spans)
    ensures Tokenized(text, from, spans, bodies) == [Lit(text[from])] + Tokenized(text, from + 1, spans, bodies)
  {
    hide Lits;
    if spans == [] {
      assert Lits(text[from..]) == [Lit(text[from])] + Lits(text[from + 1..]);
    } else {
      var start := spans[0].start;
      assert Lits(text[from..start]) == [Lit(text[from])] + Lits(text[from + 1..start]);
    }
  }

  lemma OneMoreReference(text: string, from: nat, n: nat, more: seq<Span>, bodies: seq<string>)
    requires 0 < n <= |text| - from && from <= |text| && IsReference(text[from..], n)
    requires AreReferences(text, from + n, more) && InOrder(text, from + n, more)
    requires |bodies| == |more| + 1
    requires forall k :: 0 <= k < |more| ==> more[k].start <= more[k].end <= |text|
    ensures var spans := [Span(from, from + n)] + more;
            && AreReferences(text, from, spans) && InOrder(text, from, spans)
            && (forall k :: 0 <= k < |spans| ==> spans[k].start <= spans[k].end <= |text|)
            && Slices(text, spans) == [text[from..from + n]] + Slices(text, more)
            && Tokenized(text, from, spans, bodies)
                 == [Tok(bodies[0])] + Tokenized(text, from + n, more, bodies[1..])
  {
    hide IsReference;
    var spans := [Span(from, from + n)] + more;
    assert spans[1..] == more;
    assert text[from..from] == [] && Lits([]) == [];
  }

  lemma NoReferences(text: string, from: nat, bodies: seq<string>)
    requires from == |text| && |bodies| == |Refs(text[from..])|
    ensures Refs(text[from..]) == [] == bodies && AreReferences(text, from, []) && InOrder(text, from, [])
    ensures Protect(text[from..], bodies) == [] == Tokenized(text, from, [], bodies)
  {
    assert text[from..] == [] && Lits([]) == [];
  }

  lemma {:induction false} ReferencesFrom(text: string, from: nat, bodies: seq<string>) returns (spans: seq<Span>)
    requires from <= |text| && |bodies| == |Refs(text[from..])|
    ensures AreReferences(text, from, spans) && InOrder(text, from, spans) && |spans| == |bodies|
    ensures forall k :: 0 <= k < |spans| ==> spans[k].start <= spans[k].end <= |text|
    ensures Refs(text[from..]) == Slices(text, spans)
    ensures Protect(text[from..], bodies) == Tokenized(text, from, spans, bodies)
    decreases |text| - from
  {
    hide IsReference, RefLength, Refs, Protect, Tokenized, AreReferences, InOrder;
    var rest := text[from..];
    if rest == [] {
      spans := [];
      NoReferences(text, from, bodies);
    } else {
      var n := RefLength(rest);
      RefsStep(rest);
      ProtectStep(rest, bodies);
      if n > 0 {
        RefLengthIs(rest);
        assert rest[n..] == text[from + n..];
        var more := ReferencesFrom(text, from + n, bodies[1..]);
        OneMoreReference(text, from, n, more, bodies);
        spans := [Span(from, from + n)] + more;
        assert rest[..n] == text[from..from + n];
      } else {
        assert rest[1..] == text[from + 1..];
        spans := ReferencesFrom(text, from + 1, bodies);
        NoReferenceHere(text, from, spans);
      }
    }
  }

  /** Protecting a text puts one token in the place of every leftmost reference and changes nothing else. */
  lemma ProtectReplacesReferences(text: string, bodies: seq<string>) returns (spans: seq<Span>)
    requires |bodies| == |Refs(text)|
    ensures AreReferences(text, 0, spans) && InOrder(text, 0, spans) && |spans| == |bodies|
    ensures forall k :: 0 <= k < |spans| ==> spans[k].start <= spans[k].end <= |text|
    ensures Refs(text) == Slices(text, spans)
    ensures Protect(text, bodies) == Tokenized(text, 0, spans, bodies)
  {
    assert text[0..] == text;
    spans := ReferencesFrom(text, 0, bodies);
  }

  // ----- which characters are stripped -----

  /** ASCII control characters but tab, newline and carriage return; zero-width characters and direction marks. */
  lemma StrippedAre(c: char)
    ensures IsStripped(c) <==>
         || c as int in {0, 1, 2, 3, 4, 5, 6, 7, 8, 11, 12, 14, 15, 16, 17, 18, 19, 20, 21, 22, 23, 24, 25, 26, 27, 28,
                         29, 30, 31, 127}
         || c in ['\U{200b}', '\U{200c}', '\U{200d}', '\U{200e}', '\U{200f}', '\U{2060}', '\U{feff}']
         || c in ['\U{202a}', '\U{202b}', '\U{202c}', '\U{202d}', '\U{202e}']
         || c in ['\U{2066}', '\U{2067}', '\U{2068}', '\U{2069}']
  {
  }
}

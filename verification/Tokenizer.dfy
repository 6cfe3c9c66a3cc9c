/** Tokenization for the API index: src/apim_mcp/index/tokenize.py. */
module Tokenizer {
  import opened Options

  predicate IsLower(c: char) { 'a' <= c <= 'z' }
  predicate IsUpper(c: char) { 'A' <= c <= 'Z' }
  predicate IsDigit(c: char) { '0' <= c <= '9' }
  predicate IsAlnum(c: char) { IsLower(c) || IsUpper(c) || IsDigit(c) }

  // ----- splitting on separators -----

  /** Length of the leading run of alphanumeric characters. */
  function WordLength(text: string): (n: nat)
    ensures n <= |text|
    ensures forall i :: 0 <= i < n ==> IsAlnum(text[i])
    ensures n < |text| ==> !IsAlnum(text[n])
  {
    if text == [] || !IsAlnum(text[0]) then 0 else 1 + WordLength(text[1..])
  }

  /** Length of the leading run of separators. */
  function SeparatorLength(text: string): (n: nat)
    ensures n <= |text|
    ensures forall i :: 0 <= i < n ==> !IsAlnum(text[i])
    ensures n < |text| ==> IsAlnum(text[n])
  {
    if text == [] || IsAlnum(text[0]) then 0 else 1 + SeparatorLength(text[1..])
  }

  /** `_SEPARATOR_RE.split`: the chunks between maximal separator runs, empty ones at the ends included. */
  function Chunks(text: string): seq<string>
    decreases |text|
  {
    var n := WordLength(text);
    if n == |text| then [text]
    else [text[..n]] + Chunks(text[n + SeparatorLength(text[n..])..])
  }

  // ----- splitting on camel case -----

  /** `_LOWER_TO_UPPER_RE.sub(" ", word)` */
  function SpaceLowerUpper(w: string): string
  {
    if |w| < 2 then w
    else if (IsLower(w[0]) || IsDigit(w[0])) && IsUpper(w[1]) then [w[0], ' '] + SpaceLowerUpper(w[1..])
    else [w[0]] + SpaceLowerUpper(w[1..])
  }

  /** `_ACRONYM_BOUNDARY_RE.sub(" ", word)` */
  function SpaceAcronym(w: string): string
  {
    if |w| < 3 then w
    else if IsUpper(w[0]) && IsUpper(w[1]) && IsLower(w[2]) then [w[0], ' '] + SpaceAcronym(w[1..])
    else [w[0]] + SpaceAcronym(w[1..])
  }

  function FieldLength(s: string): (n: nat)
    ensures n <= |s|
    ensures forall i :: 0 <= i < n ==> s[i] != ' '
    ensures n < |s| ==> s[n] == ' '
  {
    if s == [] || s[0] == ' ' then 0 else 1 + FieldLength(s[1..])
  }

  /** `str.split()` on text whose only whitespace is the space. */
  function Fields(s: string): seq<string>
    decreases |s|
  {
    if s == [] then []
    else if s[0] == ' ' then Fields(s[1..])
    else [s[..FieldLength(s)]] + Fields(s[FieldLength(s)..])
  }

  function SplitCamel(word: string): seq<string>
  {
    Fields(SpaceAcronym(SpaceLowerUpper(word)))
  }

  // ----- what camel-case splitting means: cut at every boundary of the word -----

  /** A word breaks before an upper-case letter that follows a lower-case letter or digit,
      and before the last capital of a run when a lower-case letter follows it. */
  predicate Boundary(w: string, p: nat)
  {
    && 0 < p < |w|
    && IsUpper(w[p])
    && (IsLower(w[p - 1]) || IsDigit(w[p - 1])
        || (IsUpper(w[p - 1]) && p + 1 < |w| && IsLower(w[p + 1])))
  }

  function FirstBoundary(w: string, from: nat): (p: nat)
    requires 0 < from <= |w|
    ensures from <= p <= |w|
    ensures p < |w| ==> Boundary(w, p)
    ensures forall q :: from <= q < p ==> !Boundary(w, q)
    decreases |w| - from
  {
    if from == |w| || Boundary(w, from) then from else FirstBoundary(w, from + 1)
  }

  function Pieces(w: string): seq<string>
    decreases |w|
  {
    if w == [] then []
    else
      var p := FirstBoundary(w, 1);
      [w[..p]] + Pieces(w[p..])
  }

  /** One pass that puts a space at every boundary. */
  function Marked(w: string): string
  {
    if |w| < 2 then w
    else if Boundary(w, 1) then [w[0], ' '] + Marked(w[1..])
    else [w[0]] + Marked(w[1..])
  }

  ghost predicate AllAlnum(w: string)
  {
    forall i :: 0 <= i < |w| ==> IsAlnum(w[i])
  }

  lemma SpaceLowerUpperStart(w: string)
    requires w != []
    ensures SpaceLowerUpper(w) != [] && SpaceLowerUpper(w)[0] == w[0]
    ensures |w| >= 2 ==> |SpaceLowerUpper(w)| >= 2
    ensures |w| >= 2 && !((IsLower(w[0]) || IsDigit(w[0])) && IsUpper(w[1])) ==> SpaceLowerUpper(w)[1] == w[1]
  {
  }

  /** The second substitution is not disturbed by the spaces of the first. */
  lemma {:induction false} TwoPassesAreOne(w: string)
    requires AllAlnum(w)
    ensures SpaceAcronym(SpaceLowerUpper(w)) == Marked(w)
  {
    if |w| < 2 {
    } else {
      var rest := SpaceLowerUpper(w[1..]);
      TwoPassesAreOne(w[1..]);
      SpaceLowerUpperStart(w[1..]);
      if (IsLower(w[0]) || IsDigit(w[0])) && IsUpper(w[1]) {
        var spaced := [w[0], ' '] + rest;
        assert spaced[1..] == [' '] + rest;
        assert spaced[1..][1..] == rest;
      } else {
        var spaced := [w[0]] + rest;
        assert spaced[1..] == rest;
        if |w| == 2 {
          assert rest == w[1..];
          assert spaced == w;
        }
      }
    }
  }

  lemma {:induction false} MarkedUpToBoundary(w: string)
    requires w != []
    ensures var p := FirstBoundary(w, 1);
              Marked(w) == if p == |w| then w else w[..p] + [' '] + Marked(w[p..])
  {
    hide Boundary;
    if |w| >= 2 && !Boundary(w, 1) {
      var p := FirstBoundary(w, 1);
      var tail := w[1..];
      MarkedUpToBoundary(tail);
      FirstBoundaryShift(w, 1);
      assert w == [w[0]] + tail;
      if p < |w| {
        assert w[p..] == tail[p - 1..];
        assert w[..p] == [w[0]] + tail[..p - 1];
      }
    }
  }

  lemma {:induction false} FirstBoundaryShift(w: string, from: nat)
    requires 0 < from < |w|
    ensures FirstBoundary(w, from + 1) == FirstBoundary(w[1..], from) + 1
    decreases |w| - from
  {
    if from + 1 >= |w| {
    } else {
      assert Boundary(w[1..], from) <==> Boundary(w, from + 1);
      FirstBoundaryShift(w, from + 1);
    }
  }

  lemma FieldOfWord(w: string)
    requires w != [] && AllAlnum(w)
    ensures FieldLength(w) == |w| && Fields(w) == [w]
  {
    FieldLengthOfWord(w, []);
    assert w + [] == w && w[..|w|] == w && w[|w|..] == [];
  }

  lemma {:induction false} FieldLengthOfWord(w: string, rest: string)
    requires AllAlnum(w) && (rest == [] || rest[0] == ' ')
    ensures FieldLength(w + rest) == |w|
  {
    if w == [] {
      assert w + rest == rest;
    } else {
      assert (w + rest)[1..] == w[1..] + rest;
      FieldLengthOfWord(w[1..], rest);
    }
  }

  lemma FirstField(w: string, rest: string)
    requires w != [] && AllAlnum(w)
    ensures Fields(w + [' '] + rest) == [w] + Fields(rest)
  {
    var text := w + [' '] + rest;
    assert text == w + ([' '] + rest);
    FieldLengthOfWord(w, [' '] + rest);
    assert text[..|w|] == w && text[|w|..] == [' '] + rest;
    assert ([' '] + rest)[1..] == rest;
  }

  lemma {:induction false} FieldsOfMarked(w: string)
    requires AllAlnum(w)
    ensures Fields(Marked(w)) == Pieces(w)
    decreases |w|
  {
    hide Fields, FieldLength, Marked, IsAlnum;
    if w == [] {
      NothingMarked();
    } else {
      var p := FirstBoundary(w, 1);
      MarkedUpToBoundary(w);
      FieldsOfMarked(w[p..]);
      if p == |w| {
        FieldOfWord(w);
        assert w[..p] == w && w[p..] == [] && [w] + [] == [w];
      } else {
        FirstField(w[..p], Marked(w[p..]));
      }
    }
  }

  lemma NothingMarked()
    ensures Fields(Marked([])) == []
  {
  }

  /** The two substitutions and the split cut the word at exactly its boundaries. */
  lemma SplitCamelCutsAtBoundaries(w: string)
    requires AllAlnum(w)
    ensures SplitCamel(w) == Pieces(w)
  {
    TwoPassesAreOne(w);
    FieldsOfMarked(w);
  }

  // ----- tokenize -----

  function LowerChar(c: char): char
  {
    if IsUpper(c) then (c as int - 'A' as int + 'a' as int) as char else c
  }

  function Lower(s: string): (r: string)
    ensures |r| == |s|
    ensures forall i :: 0 <= i < |s| ==> r[i] == LowerChar(s[i])
  {
    if s == [] then [] else [LowerChar(s[0])] + Lower(s[1..])
  }

  function LowerAll(parts: seq<string>): (r: seq<string>)
    ensures |r| == |parts|
    ensures forall i :: 0 <= i < |parts| ==> r[i] == Lower(parts[i])
  {
    if parts == [] then [] else [Lower(parts[0])] + LowerAll(parts[1..])
  }

  /** The tokens of one chunk. */
  function WordTokens(word: string): seq<string>
  {
    if word == [] then [] else LowerAll(SplitCamel(word))
  }

  function TokenizeChunks(chunks: seq<string>): seq<string>
  {
    if chunks == [] then [] else WordTokens(chunks[0]) + TokenizeChunks(chunks[1..])
  }

  function Tokens(text: string): seq<string>
  {
    TokenizeChunks(Chunks(text))
  }

  function TokensOf(text: Option<string>): seq<string>
  {
    match text case None => [] case Some(t) => Tokens(t)
  }

  /** The loop of `tokenize`. */
  method Tokenize(text: Option<string>) returns (tokens: seq<string>)
    ensures tokens == TokensOf(text)
  {
    hide SplitCamel, LowerAll, Chunks, TokenizeChunks;
    if text.None? || text.value == [] {
      EmptyChunk();
      return [];
    }
    tokens := [];
    var chunks := Chunks(text.value);
    assert chunks[0..] == chunks;
    for i := 0 to |chunks|
      invariant tokens + TokenizeChunks(chunks[i..]) == TokenizeChunks(chunks)
    {
      assert chunks[i..] == [chunks[i]] + chunks[i + 1..];
      TokenizeMore(chunks[i], chunks[i + 1..]);
      if chunks[i] != [] {
        tokens := tokens + LowerAll(SplitCamel(chunks[i]));
      }
    }
    assert TokenizeChunks(chunks[|chunks|..]) == [] by { NoChunks(); }
  }

  lemma NoChunks()
    ensures TokenizeChunks([]) == []
  {
  }

  lemma EmptyChunk()
    ensures Tokens([]) == []
  {
    var chunks := Chunks([]);
    assert chunks == [[]] && chunks[1..] == [];
  }

  // ----- conservation: tokens hold exactly the lower-cased alphanumeric characters, in order -----

  function Concat(parts: seq<string>): string
  {
    if parts == [] then [] else parts[0] + Concat(parts[1..])
  }

  function KeepAlnum(text: string): string
  {
    if text == [] then []
    else if IsAlnum(text[0]) then [text[0]] + KeepAlnum(text[1..])
    else KeepAlnum(text[1..])
  }

  lemma {:induction false} ConcatOfPieces(w: string)
    ensures Concat(Pieces(w)) == w
    decreases |w|
  {
    if w == [] {
    } else {
      var p := FirstBoundary(w, 1);
      ConcatOfPieces(w[p..]);
      assert ([w[..p]] + Pieces(w[p..]))[1..] == Pieces(w[p..]);
      assert w == w[..p] + w[p..];
    }
  }

  lemma {:induction false} ConcatSum(a: seq<string>, b: seq<string>)
    ensures Concat(a + b) == Concat(a) + Concat(b)
  {
    if a == [] {
      assert a + b == b;
    } else {
      assert (a + b)[1..] == a[1..] + b;
      ConcatSum(a[1..], b);
    }
  }

  lemma {:induction false} LowerOfSum(a: string, b: string)
    ensures Lower(a + b) == Lower(a) + Lower(b)
  {
  }

  lemma {:induction false} ConcatOfLower(parts: seq<string>)
    ensures Concat(LowerAll(parts)) == Lower(Concat(parts))
  {
    if parts == [] {
    } else {
      ConcatOfLower(parts[1..]);
      assert LowerAll(parts)[1..] == LowerAll(parts[1..]);
      LowerOfSum(parts[0], Concat(parts[1..]));
    }
  }

  lemma {:induction false} KeepAlnumSum(a: string, b: string)
    ensures KeepAlnum(a + b) == KeepAlnum(a) + KeepAlnum(b)
  {
    if a == [] {
      assert a + b == b;
    } else {
      assert (a + b)[1..] == a[1..] + b;
      KeepAlnumSum(a[1..], b);
    }
  }

  lemma {:induction false} KeepAlnumOfRun(s: string)
    ensures AllAlnum(s) ==> KeepAlnum(s) == s
    ensures (forall i :: 0 <= i < |s| ==> !IsAlnum(s[i])) ==> KeepAlnum(s) == []
  {
    if s == [] {
    } else {
      KeepAlnumOfRun(s[1..]);
      assert s == [s[0]] + s[1..];
    }
  }

  /** How `tokenize` consumes text: one word, one separator run, the rest. */
  lemma TokensStep(text: string)
    ensures var n := WordLength(text);
              Tokens(text) == WordTokens(text[..n])
                + if n == |text| then [] else Tokens(text[n + SeparatorLength(text[n..])..])
  {
    hide Tokens, WordTokens, WordLength, SeparatorLength;
    var n := WordLength(text);
    if n == |text| {
      TokensOfLast(text);
      assert text[..n] == text;
    } else {
      TokensOfMore(text);
    }
  }

  lemma TokensOfLast(text: string)
    requires WordLength(text) == |text|
    ensures Tokens(text) == WordTokens(text)
  {
    hide Chunks, TokenizeChunks, WordTokens, WordLength, SeparatorLength;
    ChunksStep(text);
    TokenizeOne(text);
  }

  lemma TokensOfMore(text: string)
    requires WordLength(text) < |text|
    ensures var n := WordLength(text);
              Tokens(text) == WordTokens(text[..n]) + Tokens(text[n + SeparatorLength(text[n..])..])
  {
    hide Chunks, TokenizeChunks, WordTokens, WordLength, SeparatorLength;
    ChunksStep(text);
    var n := WordLength(text);
    TokenizeMore(text[..n], Chunks(text[n + SeparatorLength(text[n..])..]));
  }

  lemma ChunksStep(text: string)
    ensures var n := WordLength(text);
              Chunks(text) == if n == |text| then [text]
                              else [text[..n]] + Chunks(text[n + SeparatorLength(text[n..])..])
  {
    hide WordLength, SeparatorLength;
    if WordLength(text) == |text| {
      assert Chunks(text) == [text];
    }
  }

  lemma TokenizeOne(word: string)
    ensures TokenizeChunks([word]) == WordTokens(word)
  {
    hide WordTokens;
    assert [word][1..] == [];
  }

  lemma TokenizeMore(word: string, rest: seq<string>)
    ensures TokenizeChunks([word] + rest) == WordTokens(word) + TokenizeChunks(rest)
  {
    hide WordTokens;
    assert ([word] + rest)[1..] == rest;
  }

  lemma {:induction false} TokensConserve(text: string)
    ensures Concat(Tokens(text)) == Lower(KeepAlnum(text))
    decreases |text|
  {
    hide Tokens, Chunks, KeepAlnum, WordTokens, Concat, Lower, WordLength, SeparatorLength;
    TokensStep(text);
    var n := WordLength(text);
    var word := text[..n];
    KeepAlnumOfRun(word);
    WordConserves(word);
    if n == |text| {
      assert word == text;
      assert Tokens(text) == WordTokens(word);
    } else {
      var gap := SeparatorLength(text[n..]);
      var separators, rest := text[n..][..gap], text[n + gap..];
      KeepAlnumOfRun(separators);
      TokensConserve(rest);
      assert text == word + (separators + rest);
      KeepAlnumSum(separators, rest);
      KeepAlnumSum(word, separators + rest);
      ConcatSum(WordTokens(word), Tokens(rest));
      LowerOfSum(word, KeepAlnum(rest));
    }
  }

  lemma WordConserves(word: string)
    requires AllAlnum(word)
    ensures Concat(WordTokens(word)) == Lower(word)
  {
    hide SplitCamel;
    if word != [] {
      SplitCamelCutsAtBoundaries(word);
      ConcatOfPieces(word);
      ConcatOfLower(Pieces(word));
    }
  }

  // ----- tokens are words, and words are their own tokens -----

  ghost predicate IsWord(t: string)
  {
    t != [] && forall i :: 0 <= i < |t| ==> IsLower(t[i]) || IsDigit(t[i])
  }

  ghost predicate AllWords(tokens: seq<string>)
  {
    forall i :: 0 <= i < |tokens| ==> IsWord(tokens[i])
  }

  lemma {:induction false} PiecesAreNonempty(w: string, i: nat)
    requires AllAlnum(w) && i < |Pieces(w)|
    ensures Pieces(w)[i] != [] && AllAlnum(Pieces(w)[i])
    decreases |w|
  {
    var p := FirstBoundary(w, 1);
    if i == 0 {
    } else {
      PiecesAreNonempty(w[p..], i - 1);
    }
  }

  lemma WordTokensAreWords(word: string)
    requires AllAlnum(word)
    ensures AllWords(WordTokens(word))
  {
    hide SplitCamel, Pieces;
    if word != [] {
      SplitCamelCutsAtBoundaries(word);
      forall i | 0 <= i < |WordTokens(word)|
        ensures IsWord(WordTokens(word)[i])
      {
        PiecesAreNonempty(word, i);
      }
    }
  }

  lemma {:induction false} TokensAreWords(text: string)
    ensures AllWords(Tokens(text))
    decreases |text|
  {
    hide Tokens, Chunks, WordTokens;
    TokensStep(text);
    var n := WordLength(text);
    WordTokensAreWords(text[..n]);
    if n == |text| {
    } else {
      TokensAreWords(text[n + SeparatorLength(text[n..])..]);
    }
  }

  /** Without separators the tokens are the lower-cased pieces between camel-case boundaries;
      with TokensSplitAt this determines the tokens of every text. */
  lemma TokensOfChunk(word: string)
    requires AllAlnum(word) && word != []
    ensures Tokens(word) == LowerAll(Pieces(word))
  {
    hide Tokens, Chunks, SplitCamel, Pieces, LowerAll;
    TokensStep(word);
    SplitCamelCutsAtBoundaries(word);
    assert WordLength(word) == |word| && word[..|word|] == word;
  }

  lemma WordIsItsOwnToken(t: string)
    requires IsWord(t)
    ensures Tokens(t) == [t]
  {
    hide Tokens, Pieces, LowerAll;
    TokensOfChunk(t);
    WordIsOnePiece(t);
    WordIsLower(t);
  }

  lemma WordIsOnePiece(t: string)
    requires IsWord(t)
    ensures Pieces(t) == [t]
  {
    assert FirstBoundary(t, 1) == |t|;
    assert t[..|t|] == t && t[|t|..] == [];
  }

  lemma WordIsLower(t: string)
    requires IsWord(t)
    ensures LowerAll([t]) == [t]
  {
    assert Lower(t) == t;
    assert [t][1..] == [];
  }

  // ----- any separator splits -----

  lemma WordLengthAppend(a: string, sep: char, b: string)
    requires !IsAlnum(sep)
    ensures WordLength(a + [sep] + b) == WordLength(a)
  {
    var text, n := a + [sep] + b, WordLength(a);
    assert n < |a| ==> text[n] == a[n];
    assert n == |a| ==> text[n] == sep;
    assert forall i :: 0 <= i < n ==> text[i] == a[i];
  }

  lemma TokensSkipSeparators(b: string)
    ensures Tokens(b) == Tokens(b[SeparatorLength(b)..])
  {
    hide Tokens, Chunks;
    var gap := SeparatorLength(b);
    if gap == 0 {
      assert b[0..] == b;
    } else {
      TokensStep(b);
      assert WordLength(b) == 0;
      assert b[0..] == b && b[..0] == [];
      assert WordTokens([]) == [];
    }
  }

  lemma TokensOfOneWord(a: string)
    requires WordLength(a) + SeparatorLength(a[WordLength(a)..]) == |a|
    ensures Tokens(a) == WordTokens(a[..WordLength(a)])
  {
    hide Tokens, WordTokens, WordLength, SeparatorLength, IsAlnum;
    TokensStep(a);
    EmptyChunk();
    assert a[|a|..] == [];
  }

  /** After the only word of `a`, the separators reach as far into `b` as they go. */
  lemma AfterLastWord(a: string, sep: char, b: string, n: nat)
    requires !IsAlnum(sep) && n <= |a| && n + SeparatorLength(a[n..]) == |a|
    ensures var text := a + [sep] + b;
            && text[..n] == a[..n]
            && text[n + SeparatorLength(text[n..])..] == b[SeparatorLength(b)..]
  {
    hide SeparatorLength, IsAlnum;
    var text := a + [sep] + b;
    assert text[n..] == a[n..] + [sep] + b;
    SeparatorLengthAppend(a[n..], sep, b);
    assert text[|a| + 1 + SeparatorLength(b)..] == b[SeparatorLength(b)..];
  }

  lemma TokensPastLastWord(text: string, word: string, rest: string)
    requires WordLength(text) < |text| && text[..WordLength(text)] == word
    requires text[WordLength(text) + SeparatorLength(text[WordLength(text)..])..] == rest
    ensures Tokens(text) == WordTokens(word) + Tokens(rest)
  {
    hide Tokens, WordTokens, WordLength, SeparatorLength;
    TokensOfMore(text);
  }

  lemma TokensAroundLastWord(a: string, sep: char, b: string, n: nat)
    requires !IsAlnum(sep) && n == WordLength(a) && n + SeparatorLength(a[n..]) == |a|
    ensures Tokens(a + [sep] + b) == WordTokens(a[..n]) + Tokens(b[SeparatorLength(b)..])
  {
    hide *;
    WordLengthAppend(a, sep, b);
    AfterLastWord(a, sep, b, n);
    var text := a + [sep] + b;
    assert WordLength(text) == n < |text|;
    TokensPastLastWord(text, a[..n], b[SeparatorLength(b)..]);
  }

  /** The case of a single word, possibly empty, with nothing but separators behind it. */
  lemma LastWordSplits(a: string, sep: char, b: string)
    requires !IsAlnum(sep) && WordLength(a) + SeparatorLength(a[WordLength(a)..]) == |a|
    ensures Tokens(a + [sep] + b) == Tokens(a) + Tokens(b)
  {
    hide *;
    TokensAroundLastWord(a, sep, b, WordLength(a));
    TokensOfOneWord(a);
    TokensSkipSeparators(b);
  }

  /** Text around a separator is tokenized independently. */
  lemma {:induction false} TokensSplitAt(a: string, sep: char, b: string)
    requires !IsAlnum(sep)
    ensures Tokens(a + [sep] + b) == Tokens(a) + Tokens(b)
    decreases |a|
  {
    hide Tokens, WordTokens, WordLength, SeparatorLength, IsAlnum;
    var text, n := a + [sep] + b, WordLength(a);
    var k := n + SeparatorLength(a[n..]);
    if k == |a| {
      LastWordSplits(a, sep, b);
    } else {
      WordLengthAppend(a, sep, b);
      TokensStep(a);
      TokensStep(text);
      assert text[..n] == a[..n] && text[n..] == a[n..] + [sep] + b;
      SeparatorLengthAppend(a[n..], sep, b);
      assert text[k..] == a[k..] + [sep] + b;
      TokensSplitAt(a[k..], sep, b);
    }
  }

  lemma SeparatorLengthAppend(a: string, sep: char, b: string)
    requires !IsAlnum(sep)
    ensures var n := SeparatorLength(a);
              SeparatorLength(a + [sep] + b) == if n < |a| then n else n + 1 + SeparatorLength(b)
  {
    var text, n := a + [sep] + b, SeparatorLength(a);
    assert forall i :: 0 <= i < n ==> text[i] == a[i];
    if n < |a| {
      assert text[n] == a[n];
      SeparatorLengthIs(text, n);
    } else {
      assert text[n] == sep;
      assert forall i :: 0 <= i < |b| ==> text[n + 1 + i] == b[i];
      SeparatorLengthIs(text, n + 1 + SeparatorLength(b));
    }
  }

  lemma SeparatorLengthIs(s: string, n: nat)
    requires n <= |s|
    requires forall i :: 0 <= i < n ==> !IsAlnum(s[i])
    requires n < |s| ==> IsAlnum(s[n])
    ensures SeparatorLength(s) == n
  {
  }

  // ----- printing tokens and reading them back -----

  /** `" ".join(parts)` */
  function JoinSpaces(parts: seq<string>): string
  {
    if parts == [] then []
    else if |parts| == 1 then parts[0]
    else parts[0] + [' '] + JoinSpaces(parts[1..])
  }

  /** Tokenizing space-separated tokens gives the tokens back. */
  lemma {:induction false} JoinedWordsRoundTrip(tokens: seq<string>)
    requires AllWords(tokens)
    ensures Tokens(JoinSpaces(tokens)) == tokens
  {
    hide Tokens, Chunks;
    if tokens == [] {
      EmptyChunk();
    } else {
      WordIsItsOwnToken(tokens[0]);
      if |tokens| > 1 {
        TokensSplitAt(tokens[0], ' ', JoinSpaces(tokens[1..]));
        JoinedWordsRoundTrip(tokens[1..]);
      }
    }
  }

  /** Idempotence: re-tokenizing the joined tokens of any text changes nothing. */
  lemma TokenizeIsIdempotent(text: string)
    ensures Tokens(JoinSpaces(Tokens(text))) == Tokens(text)
  {
    TokensAreWords(text);
    JoinedWordsRoundTrip(Tokens(text));
  }
}

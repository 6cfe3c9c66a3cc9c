/** The weighted search text of an operation: `_compose_search_text` of src/apim_mcp/index/builder.py. */
module SearchText {
  import opened Options
  import opened Tokenizer

  datatype SearchFields = SearchFields(
    operationName: string,
    apiName: string,
    urlTemplate: string,
    operationDescription: Option<string>,
    apiDescription: Option<string>,
    parameterNames: seq<string>,
    propertyNames: seq<string>,
    apiTags: seq<string>)

  /** Python's `tokens * n`. */
  function Repeat(tokens: seq<string>, n: nat): seq<string>
  {
    if n == 0 then [] else Repeat(tokens, n - 1) + tokens
  }

  /** The tokens of every name in turn, each repeated `n` times. */
  function TokensOfAll(names: seq<string>, n: nat): seq<string>
  {
    if names == [] then []
    else TokensOfAll(names[..|names| - 1], n) + Repeat(Tokens(names[|names| - 1]), n)
  }

  function WeightedTokens(f: SearchFields): seq<string>
  {
    Repeat(Tokens(f.operationName), 3)
    + Repeat(Tokens(f.apiName), 2)
    + Repeat(Tokens(f.urlTemplate), 2)
    + TokensOf(f.operationDescription)
    + TokensOf(f.apiDescription)
    + TokensOfAll(f.parameterNames, 1)
    + TokensOfAll(f.propertyNames, 1)
    + TokensOfAll(f.apiTags, 2)
  }

  method TokenizeEach(names: seq<string>, n: nat, parts: seq<string>) returns (r: seq<string>)
    ensures r == parts + TokensOfAll(names, n)
  {
    hide Tokens;
    r := parts;
    for i := 0 to |names|
      invariant r == parts + TokensOfAll(names[..i], n)
    {
      assert names[..i + 1][..i] == names[..i];
      var tokens := Tokenize(Some(names[i]));
      r := r + Repeat(tokens, n);
    }
    assert names[..|names|] == names;
  }

  method ComposeSearchText(f: SearchFields) returns (text: string)
    ensures text == JoinSpaces(WeightedTokens(f))
  {
    hide Tokens, Repeat, TokensOfAll, JoinSpaces;
    var operation := Tokenize(Some(f.operationName));
    var parts := Repeat(operation, 3);
    var api := Tokenize(Some(f.apiName));
    parts := parts + Repeat(api, 2);
    var url := Tokenize(Some(f.urlTemplate));
    parts := parts + Repeat(url, 2);
    var operationDescription := Tokenize(f.operationDescription);
    parts := parts + operationDescription;
    var apiDescription := Tokenize(f.apiDescription);
    parts := parts + apiDescription;
    parts := TokenizeEach(f.parameterNames, 1, parts);
    parts := TokenizeEach(f.propertyNames, 1, parts);
    parts := TokenizeEach(f.apiTags, 2, parts);
    text := JoinSpaces(parts);
  }

  // ----- the stored text reads back as the weighted list -----

  lemma {:induction false} RepeatOfWords(tokens: seq<string>, n: nat)
    requires AllWords(tokens)
    ensures AllWords(Repeat(tokens, n))
  {
    if n == 0 {
    } else {
      RepeatOfWords(tokens, n - 1);
    }
  }

  lemma {:induction false} TokensOfAllAreWords(names: seq<string>, n: nat)
    ensures AllWords(TokensOfAll(names, n))
  {
    hide Tokens, Repeat;
    if names == [] {
    } else {
      TokensOfAllAreWords(names[..|names| - 1], n);
      TokensAreWords(names[|names| - 1]);
      RepeatOfWords(Tokens(names[|names| - 1]), n);
    }
  }

  lemma OptionalTokensAreWords(text: Option<string>)
    ensures AllWords(TokensOf(text))
  {
    if text.Some? {
      TokensAreWords(text.value);
    }
  }

  lemma WeightedTokensAreWords(f: SearchFields)
    ensures AllWords(WeightedTokens(f))
  {
    hide Tokens, TokensOf, Repeat, TokensOfAll;
    TokensAreWords(f.operationName);
    TokensAreWords(f.apiName);
    TokensAreWords(f.urlTemplate);
    RepeatOfWords(Tokens(f.operationName), 3);
    RepeatOfWords(Tokens(f.apiName), 2);
    RepeatOfWords(Tokens(f.urlTemplate), 2);
    OptionalTokensAreWords(f.operationDescription);
    OptionalTokensAreWords(f.apiDescription);
    TokensOfAllAreWords(f.parameterNames, 1);
    TokensOfAllAreWords(f.propertyNames, 1);
    TokensOfAllAreWords(f.apiTags, 2);
  }

  /** Building the corpus tokenizes the stored text again: that recovers the weighted list exactly. */
  lemma SearchTextRoundTrip(f: SearchFields)
    ensures Tokens(JoinSpaces(WeightedTokens(f))) == WeightedTokens(f)
  {
    hide Tokens, WeightedTokens;
    WeightedTokensAreWords(f);
    JoinedWordsRoundTrip(WeightedTokens(f));
  }

  // ----- the weights -----

  function Count(tokens: seq<string>, t: string): nat
  {
    multiset(tokens)[t]
  }

  /** How often `t` is a token of any of the names. */
  function CountIn(names: seq<string>, t: string): nat
  {
    if names == [] then 0
    else CountIn(names[..|names| - 1], t) + Count(Tokens(names[|names| - 1]), t)
  }

  /** A description may be missing. */
  function CountInText(text: Option<string>, t: string): nat
  {
    if text.None? then 0 else Count(Tokens(text.value), t)
  }

  lemma CountOptional(text: Option<string>, t: string)
    ensures Count(TokensOf(text), t) == CountInText(text, t)
  {
    hide Tokens;
  }

  lemma CountSum(a: seq<string>, b: seq<string>, t: string)
    ensures Count(a + b, t) == Count(a, t) + Count(b, t)
  {
    assert multiset(a + b) == multiset(a) + multiset(b);
  }

  lemma {:induction false} CountRepeat(tokens: seq<string>, n: nat, t: string)
    ensures Count(Repeat(tokens, n), t) == n * Count(tokens, t)
  {
    hide Count;
    if n > 0 {
      CountRepeat(tokens, n - 1, t);
      CountSum(Repeat(tokens, n - 1), tokens, t);
    } else {
      CountNone(t);
    }
  }

  lemma CountNone(t: string)
    ensures Count([], t) == 0
  {
  }

  lemma {:induction false} CountTokensOfAll(names: seq<string>, n: nat, t: string)
    ensures Count(TokensOfAll(names, n), t) == n * CountIn(names, t)
  {
    hide Tokens, Repeat, Count;
    if names != [] {
      var front, last := names[..|names| - 1], Tokens(names[|names| - 1]);
      CountTokensOfAll(front, n, t);
      CountSum(TokensOfAll(front, n), Repeat(last, n), t);
      CountRepeat(last, n, t);
      Distribute(n, CountIn(front, t), Count(last, t));
    } else {
      CountNone(t);
    }
  }

  lemma Distribute(n: nat, a: nat, b: nat)
    ensures n * (a + b) == n * a + n * b
  {
  }

  /** Every token's frequency in the corpus is the weighted sum of its field frequencies. */
  lemma CorpusFrequency(f: SearchFields, t: string)
    ensures Count(Tokens(JoinSpaces(WeightedTokens(f))), t)
         == 3 * Count(Tokens(f.operationName), t)
          + 2 * Count(Tokens(f.apiName), t)
          + 2 * Count(Tokens(f.urlTemplate), t)
          + CountInText(f.operationDescription, t)
          + CountInText(f.apiDescription, t)
          + CountIn(f.parameterNames, t)
          + CountIn(f.propertyNames, t)
          + 2 * CountIn(f.apiTags, t)
  {
    hide Tokens, TokensOf, Repeat, TokensOfAll, Count, CountIn, CountInText, JoinSpaces;
    SearchTextRoundTrip(f);
    CountOptional(f.operationDescription, t);
    CountOptional(f.apiDescription, t);
    var names := Repeat(Tokens(f.operationName), 3);
    var apis := Repeat(Tokens(f.apiName), 2);
    var urls := Repeat(Tokens(f.urlTemplate), 2);
    var od, ad := TokensOf(f.operationDescription), TokensOf(f.apiDescription);
    var parameters := TokensOfAll(f.parameterNames, 1);
    var properties := TokensOfAll(f.propertyNames, 1);
    var tags := TokensOfAll(f.apiTags, 2);
    CountRepeat(Tokens(f.operationName), 3, t);
    CountRepeat(Tokens(f.apiName), 2, t);
    CountRepeat(Tokens(f.urlTemplate), 2, t);
    CountTokensOfAll(f.parameterNames, 1, t);
    CountTokensOfAll(f.propertyNames, 1, t);
    CountTokensOfAll(f.apiTags, 2, t);
    CountSum(names, apis, t);
    CountSum(names + apis, urls, t);
    CountSum(names + apis + urls, od, t);
    CountSum(names + apis + urls + od, ad, t);
    CountSum(names + apis + urls + od + ad, parameters, t);
    CountSum(names + apis + urls + od + ad + parameters, properties, t);
    CountSum(names + apis + urls + od + ad + parameters + properties, tags, t);
  }
}

/**
 The `declare query_parameters` preamble of src/apim_mcp/clients/logs.py and the splitting
 of a query by `_query_body` in src/apim_mcp/clients/_loganalytics.py.
 */
module KqlDeclarations {
  import opened Options
  import opened Decimals
  import opened KqlStrings
  import opened TextLines

  const DECLARE := "declare query_parameters("
  const CLOSE := ");"
  const UNAVAILABLE := "<query body " + "unavailable: " + "unrecognized " + "declaration " + "shape>"

  datatype Value = Text(s: string) | Flag(b: bool) | Long(n: nat)
  datatype Param = Param(name: string, value: Value)

  // ----- printing -----

  function PrintValue(v: Value): string
  {
    match v
    case Text(s) => KqlString(s)
    case Flag(b) => if b then "true" else "false"
    case Long(n) => Decimal(n)
  }

  function TypeMark(v: Value): string
  {
    match v
    case Text(_) => ":string = "
    case Flag(_) => ":bool = "
    case Long(_) => ":long = "
  }

  function PrintParam(p: Param): string
  {
    p.name + TypeMark(p.value) + PrintValue(p.value)
  }

  function PrintParams(params: seq<Param>): string
  {
    if params == [] then []
    else if |params| == 1 then PrintParam(params[0])
    else PrintParam(params[0]) + ", " + PrintParams(params[1..])
  }

  function Declaration(params: seq<Param>): string
  {
    DECLARE + PrintParams(params) + CLOSE
  }

  // ----- reading a declaration back -----

  predicate IsNameChar(c: char)
  {
    'a' <= c <= 'z' || c == '_'
  }

  function NameLength(s: string): (n: nat)
    ensures n <= |s|
    ensures forall i :: 0 <= i < n ==> IsNameChar(s[i])
    ensures n < |s| ==> !IsNameChar(s[n])
  {
    if s == [] || !IsNameChar(s[0]) then 0 else 1 + NameLength(s[1..])
  }

  function NumberLength(s: string): (n: nat)
    ensures n <= |s|
    ensures forall i :: 0 <= i < n ==> IsDecimalDigit(s[i])
    ensures n < |s| ==> !IsDecimalDigit(s[n])
  {
    if s == [] || !IsDecimalDigit(s[0]) then 0 else 1 + NumberLength(s[1..])
  }

  datatype OneValue = OneValue(value: Value, rest: string)

  function ReadTyped(s: string): (r: Option<OneValue>)
  {
    if ":string = " <= s then
      match ReadString(s[10..])
      case None => None
      case Some(one) => Some(OneValue(Text(one.value), one.rest))
    else if ":bool = " <= s then
      var v := s[8..];
      if "true" <= v then Some(OneValue(Flag(true), v[4..]))
      else if "false" <= v then Some(OneValue(Flag(false), v[5..]))
      else None
    else if ":long = " <= s then
      var v := s[8..];
      var n := NumberLength(v);
      if n == 0 then None else Some(OneValue(Long(NumberOf(v[..n])), v[n..]))
    else None
  }

  /** Parameters separated by `, ` up to the closing `);`, which must end the text. */
  function ReadParams(s: string): Option<seq<Param>>
    decreases |s|
  {
    var n := NameLength(s);
    match ReadTyped(s[n..])
    case None => None
    case Some(one) =>
      var p := Param(s[..n], one.value);
      if one.rest == CLOSE then Some([p])
      else if ", " <= one.rest && |one.rest| < |s| then
        match ReadParams(one.rest[2..])
        case None => None
        case Some(more) => Some([p] + more)
      else None
  }

  function ReadDeclaration(s: string): Option<seq<Param>>
  {
    if DECLARE <= s then ReadParams(s[|DECLARE|..]) else None
  }

  // ----- the declaration is one clean line -----

  ghost predicate IsName(name: string)
  {
    forall c :: c in name ==> IsNameChar(c)
  }

  ghost predicate WellNamed(params: seq<Param>)
  {
    params != [] && forall i :: 0 <= i < |params| ==> IsName(params[i].name)
  }

  lemma PrintParamIsClean(p: Param)
    requires IsName(p.name)
    ensures IsClean(PrintParam(p))
  {
    hide KqlString, Decimal;
    match p.value
    case Text(s) => KqlStringIsClean(s);
    case Flag(_) =>
    case Long(n) => DecimalDigits(n);
  }

  lemma {:induction false} PrintParamsAreClean(params: seq<Param>)
    requires WellNamed(params)
    ensures IsClean(PrintParams(params))
  {
    hide PrintParam;
    PrintParamIsClean(params[0]);
    if |params| == 1 {
    } else {
      assert WellNamed(params[1..]);
      PrintParamsAreClean(params[1..]);
    }
  }

  /** Whatever the values, the declaration has no newline and its only `;` is its last character. */
  lemma DeclarationIsOneStatement(params: seq<Param>)
    requires WellNamed(params)
    ensures var d := Declaration(params);
              && "declare query_parameters(" <= d && d[|d| - 2..] == ");"
              && '\n' !in d
              && d[|d| - 1] == ';'
              && ';' !in d[..|d| - 1]
  {
    hide PrintParams;
    PrintParamsAreClean(params);
    var d := Declaration(params);
    DeclareIsClean();
    assert d[..|d| - 1] == DECLARE + PrintParams(params) + ")";
  }

  lemma DeclareIsClean()
    ensures IsClean(DECLARE)
  {
  }

  // ----- every bound value is recovered -----

  lemma NameLengthIs(s: string, n: nat)
    requires n <= |s|
    requires forall i :: 0 <= i < n ==> IsNameChar(s[i])
    requires n < |s| ==> !IsNameChar(s[n])
    ensures NameLength(s) == n
  {
  }

  lemma NumberLengthIs(s: string, n: nat)
    requires n <= |s|
    requires forall i :: 0 <= i < n ==> IsDecimalDigit(s[i])
    requires n < |s| ==> !IsDecimalDigit(s[n])
    ensures NumberLength(s) == n
  {
  }

  lemma ReadLongBack(n: nat, rest: string)
    requires rest != [] && !IsDecimalDigit(rest[0])
    ensures ReadTyped(":long = " + Decimal(n) + rest) == Some(OneValue(Long(n), rest))
  {
    hide Decimal, ReadString, NumberOf, NumberLength;
    DecimalDigits(n);
    var d := Decimal(n);
    var after := d + rest;
    var s := ":long = " + d + rest;
    assert s[1] == 'l' && ":long = " <= s && s[8..] == after;
    assert forall i :: 0 <= i < |d| ==> after[i] == d[i];
    NumberLengthIs(after, |d|);
    assert after[..|d|] == d && after[|d|..] == rest;
  }

  lemma ReadFlagBack(b: bool, rest: string)
    ensures ReadTyped(":bool = " + PrintValue(Flag(b)) + rest) == Some(OneValue(Flag(b), rest))
  {
    hide ReadString, NumberOf, NumberLength;
    var word := PrintValue(Flag(b));
    var s := ":bool = " + word + rest;
    assert s[1] == 'b' && ":bool = " <= s && s[8..] == word + rest;
    assert word <= word + rest && (word + rest)[|word|..] == rest;
    assert (word + rest)[0] == if b then 't' else 'f';
  }

  lemma ReadTextBack(t: string, rest: string)
    ensures ReadTyped(":string = " + KqlString(t) + rest) == Some(OneValue(Text(t), rest))
  {
    hide KqlString, ReadString;
    KqlStringRoundTrip(t, rest);
    var s := ":string = " + KqlString(t) + rest;
    assert ":string = " <= s && s[10..] == KqlString(t) + rest;
  }

  lemma ReadTypedBack(v: Value, rest: string)
    requires rest != [] && !IsDecimalDigit(rest[0])
    ensures ReadTyped(TypeMark(v) + PrintValue(v) + rest) == Some(OneValue(v, rest))
  {
    hide KqlString, ReadTyped, Decimal;
    match v
    case Text(t) => ReadTextBack(t, rest);
    case Flag(b) => ReadFlagBack(b, rest);
    case Long(n) => ReadLongBack(n, rest);
  }

  lemma ReadParamBack(p: Param, rest: string)
    requires IsName(p.name)
    requires rest != [] && !IsDecimalDigit(rest[0])
    ensures var s := PrintParam(p) + rest;
              && NameLength(s) == |p.name|
              && s[..|p.name|] == p.name
              && ReadTyped(s[|p.name|..]) == Some(OneValue(p.value, rest))
  {
    hide PrintValue, ReadTyped;
    var s := PrintParam(p) + rest;
    assert forall i :: 0 <= i < |p.name| ==> s[i] == p.name[i];
    assert s[|p.name|] == ':';
    NameLengthIs(s, |p.name|);
    ReadTypedBack(p.value, rest);
    assert s[|p.name|..] == TypeMark(p.value) + PrintValue(p.value) + rest;
  }

  lemma {:induction false} ReadParamsBack(params: seq<Param>)
    requires WellNamed(params)
    ensures ReadParams(PrintParams(params) + CLOSE) == Some(params)
  {
    hide PrintParam, ReadTyped, ReadParams, IsName, NameLength;
    var p := params[0];
    PrintParamNonempty(p);
    if |params| == 1 {
      ReadParamBack(p, CLOSE);
      ReadLast(PrintParam(p) + CLOSE, p);
      assert params == [p];
    } else {
      var more := PrintParams(params[1..]) + CLOSE;
      ReadParamsBack(params[1..]);
      ReadParamBack(p, ", " + more);
      var s := PrintParam(p) + (", " + more);
      assert PrintParams(params) + CLOSE == s;
      ReadOneMore(s, p, more, params[1..]);
      assert params == [p] + params[1..];
    }
  }

  lemma ReadLast(s: string, p: Param)
    requires NameLength(s) == |p.name| <= |s| && s[..|p.name|] == p.name
    requires ReadTyped(s[|p.name|..]) == Some(OneValue(p.value, CLOSE))
    ensures ReadParams(s) == Some([p])
  {
    hide ReadTyped, NameLength;
  }

  lemma ReadOneMore(s: string, p: Param, more: string, rest: seq<Param>)
    requires NameLength(s) == |p.name| <= |s| && s[..|p.name|] == p.name
    requires ReadTyped(s[|p.name|..]) == Some(OneValue(p.value, ", " + more))
    requires |", " + more| < |s|
    requires ReadParams(more) == Some(rest)
    ensures ReadParams(s) == Some([p] + rest)
  {
    hide ReadTyped, NameLength;
    NotTheClose(more);
    assert (", " + more)[2..] == more;
    assert ", " <= ", " + more;
  }

  lemma NotTheClose(more: string)
    ensures ", " + more != CLOSE
  {
    assert (", " + more)[0] == ',';
  }

  lemma PrintParamNonempty(p: Param)
    ensures PrintParam(p) != []
  {
    hide PrintValue;
  }

  /** A reader of declarations recovers every name and value exactly. */
  lemma DeclarationRoundTrip(params: seq<Param>)
    requires WellNamed(params)
    ensures ReadDeclaration(Declaration(params)) == Some(params)
  {
    hide PrintParams, ReadParams;
    ReadParamsBack(params);
    assert Declaration(params)[|DECLARE|..] == PrintParams(params) + CLOSE;
  }

  // ----- splitting a query -----

  predicate Contains(s: string, part: string)
  {
    exists i :: 0 <= i <= |s| && OccursAt(s, part, i)
  }

  predicate EndsWith(s: string, end: string)
  {
    |end| <= |s| && s[|s| - |end|..] == end
  }

  function QueryBody(query: string): string
  {
    var n := LineLength(query);
    if n == |query| then UNAVAILABLE
    else
      var declaration, body := query[..n], query[n + 1..];
      if !(DECLARE <= declaration) || !EndsWith(declaration, CLOSE) || Contains(body, DECLARE)
      then UNAVAILABLE
      else body
  }

  /** The marker itself is not a declaration: it has no parenthesis at all. */
  lemma MarkerIsNoDeclaration()
    ensures !Contains(UNAVAILABLE, DECLARE)
  {
    hide Contains;
    assert '(' !in UNAVAILABLE;
    assert DECLARE[24] == '(';
    ContainedChar(UNAVAILABLE, DECLARE, 24);
  }

  lemma ContainedChar(s: string, part: string, k: nat)
    requires k < |part|
    ensures Contains(s, part) ==> part[k] in s
  {
    if Contains(s, part) {
      var i :| 0 <= i <= |s| && OccursAt(s, part, i);
      assert s[i + k] == part[k];
    }
  }

  /** Splitting a built query returns the body if and only if the body declares no parameters itself. */
  lemma QueryBodyIsTheBody(params: seq<Param>, body: string)
    requires WellNamed(params)
    ensures QueryBody(Declaration(params) + ['\n'] + body) == if Contains(body, DECLARE) then UNAVAILABLE else body
    ensures QueryBody(Declaration(params) + ['\n'] + body) == body <==> !Contains(body, DECLARE)
  {
    hide PrintParams, Contains;
    var d := Declaration(params);
    DeclarationIsOneStatement(params);
    var query := d + ['\n'] + body;
    assert query[..|d|] == d && query[|d| + 1..] == body;
    LineLengthIs(query, |d|);
    assert EndsWith(d, CLOSE);
    MarkerIsNoDeclaration();
  }

  /** For any query at all: what is returned is the marker or the text after a declaration line. */
  lemma QueryBodyHidesValues(query: string)
    ensures QueryBody(query) == UNAVAILABLE
         || exists line: string :: '\n' !in line && DECLARE <= line && EndsWith(line, CLOSE)
              && query == line + ['\n'] + QueryBody(query)
  {
    hide Contains;
    var n := LineLength(query);
    if n < |query| {
      assert query == query[..n] + ['\n'] + query[n + 1..];
    }
  }
}

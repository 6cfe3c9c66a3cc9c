/**
 KQL string literals: `kql_string` of src/apim_mcp/clients/_loganalytics.py, and a reader
 for JSON strings (section 7 of RFC 8259) to check what it prints.  A Dafny char is a
 Unicode scalar value.
 */
module KqlStrings {
  import opened Options

  // ----- printing -----

  function HexDigit(n: nat): char
    requires n < 16
  {
    if n < 10 then ('0' as int + n) as char else ('a' as int + n - 10) as char
  }

  function Hex4(n: nat): string
    requires n < 0x10000
  {
    [HexDigit(n / 4096), HexDigit(n / 256 % 16), HexDigit(n / 16 % 16), HexDigit(n % 16)]
  }

  function UnicodeEscape(n: nat): string
    requires n < 0x10000
  {
    ['\\', 'u'] + Hex4(n)
  }

  /** What `json.dumps` writes for one character, non-ASCII escaped. */
  function EscapeChar(c: char): string
  {
    if c == '"' then ['\\', '"']
    else if c == '\\' then ['\\', '\\']
    else if c == '\n' then ['\\', 'n']
    else if c == '\r' then ['\\', 'r']
    else if c == '\t' then ['\\', 't']
    else if c as int == 8 then ['\\', 'b']
    else if c as int == 12 then ['\\', 'f']
    else if ' ' <= c <= '~' then [c]
    else if c as int < 0x10000 then UnicodeEscape(c as int)
    else
      var m := c as int - 0x10000;
      UnicodeEscape(0xD800 + m / 0x400) + UnicodeEscape(0xDC00 + m % 0x400)
  }

  function EscapeAll(v: string): string
  {
    if v == [] then [] else EscapeChar(v[0]) + EscapeAll(v[1..])
  }

  function JsonDumps(v: string): string
  {
    ['"'] + EscapeAll(v) + ['"']
  }

  /** `text.replace(";", "\\u003b")` */
  function ReplaceSemicolons(s: string): string
  {
    if s == [] then []
    else (if s[0] == ';' then UnicodeEscape(0x3b) else [s[0]]) + ReplaceSemicolons(s[1..])
  }

  function KqlString(v: string): string
  {
    ReplaceSemicolons(JsonDumps(v))
  }

  // ----- a JSON string reader -----

  function HexValue(c: char): Option<nat>
  {
    if '0' <= c <= '9' then Some(c as int - '0' as int)
    else if 'a' <= c <= 'f' then Some(c as int - 'a' as int + 10)
    else if 'A' <= c <= 'F' then Some(c as int - 'A' as int + 10)
    else None
  }

  /** The code unit of a leading `\uXXXX`. */
  function ReadUnit(s: string): (r: Option<nat>)
    ensures r.Some? ==> |s| >= 6
  {
    if |s| < 6 || s[0] != '\\' || s[1] != 'u' then None
    else
      var (a, b, c, d) := (HexValue(s[2]), HexValue(s[3]), HexValue(s[4]), HexValue(s[5]));
      if a.Some? && b.Some? && c.Some? && d.Some?
      then Some(a.value * 4096 + b.value * 256 + c.value * 16 + d.value)
      else None
  }

  datatype OneChar = OneChar(c: char, rest: string)

  /** One character of a string body that has not ended: plain, short escape, `\u` escape or surrogate pair. */
  function ReadChar(s: string): (r: Option<OneChar>)
    ensures r.Some? ==> |r.value.rest| < |s|
  {
    if s == [] || s[0] as int < 0x20 then None
    else if s[0] != '\\' then Some(OneChar(s[0], s[1..]))
    else if |s| < 2 then None
    else match s[1]
      case '"' => Some(OneChar('"', s[2..]))
      case '\\' => Some(OneChar('\\', s[2..]))
      case '/' => Some(OneChar('/', s[2..]))
      case 'n' => Some(OneChar('\n', s[2..]))
      case 'r' => Some(OneChar('\r', s[2..]))
      case 't' => Some(OneChar('\t', s[2..]))
      case 'b' => Some(OneChar(8 as char, s[2..]))
      case 'f' => Some(OneChar(12 as char, s[2..]))
      case 'u' => ReadUnicode(s)
      case _ => None
  }

  function ReadUnicode(s: string): (r: Option<OneChar>)
    ensures r.Some? ==> |r.value.rest| < |s|
  {
    match ReadUnit(s)
    case None => None
    case Some(u) =>
      if u < 0xD800 || 0xE000 <= u < 0x10000 then Some(OneChar(u as char, s[6..]))
      else match ReadUnit(s[6..])
        case None => None
        case Some(w) =>
          if 0xD800 <= u < 0xDC00 && 0xDC00 <= w < 0xE000
          then Some(OneChar((0x10000 + (u - 0xD800) * 0x400 + (w - 0xDC00)) as char, s[12..]))
          else None
  }

  datatype OneString = OneString(value: string, rest: string)

  /** The rest of a string literal after its opening quote. */
  function ReadBody(s: string): Option<OneString>
    decreases |s|
  {
    if s == [] then None
    else if s[0] == '"' then Some(OneString([], s[1..]))
    else match ReadChar(s)
      case None => None
      case Some(one) =>
        match ReadBody(one.rest)
        case None => None
        case Some(more) => Some(OneString([one.c] + more.value, more.rest))
  }

  function ReadString(s: string): Option<OneString>
  {
    if s == [] || s[0] != '"' then None else ReadBody(s[1..])
  }

  // ----- printing one character -----

  /** One character as it appears between the quotes of a KQL literal. */
  function KqlChar(c: char): string
  {
    if c == ';' then UnicodeEscape(0x3b) else EscapeChar(c)
  }

  function KqlChars(v: string): string
  {
    if v == [] then [] else KqlChar(v[0]) + KqlChars(v[1..])
  }

  lemma {:induction false} ReplaceSum(a: string, b: string)
    ensures ReplaceSemicolons(a + b) == ReplaceSemicolons(a) + ReplaceSemicolons(b)
  {
    if a == [] {
      assert a + b == b;
    } else {
      assert (a + b)[1..] == a[1..] + b;
      ReplaceSum(a[1..], b);
    }
  }

  lemma {:induction false} ReplaceNothing(s: string)
    requires ';' !in s
    ensures ReplaceSemicolons(s) == s
  {
    if s == [] {
    } else {
      ReplaceNothing(s[1..]);
    }
  }

  /** Printable ASCII without the characters that could end a declaration. */
  ghost predicate IsClean(s: string)
  {
    forall c :: c in s ==> ' ' <= c <= '~' && c != ';'
  }

  lemma HexDigitIsClean(n: nat)
    requires n < 16
    ensures '0' <= HexDigit(n) <= '9' || 'a' <= HexDigit(n) <= 'f'
    ensures HexValue(HexDigit(n)) == Some(n)
  {
  }

  lemma UnicodeEscapeIsClean(n: nat)
    requires n < 0x10000
    ensures IsClean(UnicodeEscape(n))
  {
    hide HexDigit;
    HexDigitIsClean(n / 4096);
    HexDigitIsClean(n / 256 % 16);
    HexDigitIsClean(n / 16 % 16);
    HexDigitIsClean(n % 16);
  }

  lemma SurrogatesOf(c: char)
    requires c as int >= 0x10000
    ensures var m := c as int - 0x10000;
              0 <= m / 0x400 < 0x400 && 0 <= m % 0x400 < 0x400 && m == (m / 0x400) * 0x400 + m % 0x400
  {
    assert c as int < 0x11_0000;
  }

  lemma KqlCharIsClean(c: char)
    ensures IsClean(KqlChar(c))
  {
    hide UnicodeEscape;
    if c == ';' {
      UnicodeEscapeIsClean(0x3b);
    } else if c as int >= 0x10000 {
      SurrogatesOf(c);
      var m := c as int - 0x10000;
      UnicodeEscapeIsClean(0xD800 + m / 0x400);
      UnicodeEscapeIsClean(0xDC00 + m % 0x400);
    } else if !(' ' <= c <= '~') {
      UnicodeEscapeIsClean(c as int);
    }
  }

  lemma ReplaceInChar(c: char)
    ensures ReplaceSemicolons(EscapeChar(c)) == KqlChar(c)
  {
    hide EscapeChar, UnicodeEscape;
    if c == ';' {
      assert EscapeChar(c) == [c] by { EscapeSemicolon(); }
      assert [c][1..] == [];
    } else {
      KqlCharIsClean(c);
      ReplaceNothing(EscapeChar(c));
    }
  }

  lemma EscapeSemicolon()
    ensures EscapeChar(';') == [';']
  {
  }

  /** Escaping `;` after JSON printing amounts to one more escape per character. */
  lemma {:induction false} ReplaceInAll(v: string)
    ensures ReplaceSemicolons(EscapeAll(v)) == KqlChars(v)
  {
    hide EscapeChar, KqlChar;
    if v == [] {
    } else {
      ReplaceSum(EscapeChar(v[0]), EscapeAll(v[1..]));
      ReplaceInChar(v[0]);
      ReplaceInAll(v[1..]);
    }
  }

  lemma KqlStringIs(v: string)
    ensures KqlString(v) == ['"'] + KqlChars(v) + ['"']
  {
    hide EscapeAll, KqlChars;
    ReplaceSum(['"'] + EscapeAll(v), ['"']);
    ReplaceSum(['"'], EscapeAll(v));
    ReplaceInAll(v);
    ReplaceNothing(['"']);
  }

  lemma {:induction false} KqlCharsAreClean(v: string)
    ensures IsClean(KqlChars(v))
  {
    hide KqlChar;
    if v == [] {
    } else {
      KqlCharIsClean(v[0]);
      KqlCharsAreClean(v[1..]);
    }
  }

  /** No value can put a newline or a `;` into its literal. */
  lemma KqlStringIsClean(v: string)
    ensures IsClean(KqlString(v))
  {
    hide KqlString, KqlChars;
    KqlStringIs(v);
    KqlCharsAreClean(v);
  }

  // ----- reading back -----

  lemma HexDigitsSum(n: nat)
    requires n < 0x10000
    ensures n / 4096 < 16
    ensures n == n / 4096 * 4096 + n / 256 % 16 * 256 + n / 16 % 16 * 16 + n % 16
  {
    assert n / 256 == n / 4096 * 16 + n / 256 % 16;
    assert n / 16 == n / 256 * 16 + n / 16 % 16;
  }

  lemma ReadUnitBack(n: nat, rest: string)
    requires n < 0x10000
    ensures ReadUnit(UnicodeEscape(n) + rest) == Some(n)
    ensures (UnicodeEscape(n) + rest)[6..] == rest
  {
    hide HexDigit, HexValue;
    var a, b, c, d := n / 4096, n / 256 % 16, n / 16 % 16, n % 16;
    HexDigitsSum(n);
    HexDigitIsClean(a);
    HexDigitIsClean(b);
    HexDigitIsClean(c);
    HexDigitIsClean(d);
    var s := UnicodeEscape(n) + rest;
    assert s[2] == HexDigit(a) && s[3] == HexDigit(b) && s[4] == HexDigit(c) && s[5] == HexDigit(d);
  }

  lemma ReadCharBack(c: char, rest: string)
    ensures KqlChar(c) != [] && KqlChar(c)[0] != '"'
    ensures ReadChar(KqlChar(c) + rest) == Some(OneChar(c, rest))
  {
    hide UnicodeEscape, ReadUnit;
    if c == ';' {
      ReadBmpBack(0x3b, rest);
    } else if c as int >= 0x10000 {
      ReadPairBack(c, rest);
    } else if !(' ' <= c <= '~') && EscapeChar(c) == UnicodeEscape(c as int) {
      ReadBmpBack(c as int, rest);
    } else if |EscapeChar(c)| == 1 {
      assert ([c] + rest)[1..] == rest;
    } else {
      assert (EscapeChar(c) + rest)[2..] == rest;
    }
  }

  lemma ReadBmpBack(n: nat, rest: string)
    requires n < 0xD800 || 0xE000 <= n < 0x10000
    ensures var s := UnicodeEscape(n) + rest;
              s[0] == '\\' && ReadChar(s) == Some(OneChar(n as char, rest))
  {
    hide Hex4, ReadUnit;
    ReadUnitBack(n, rest);
  }

  lemma ReadPairBack(c: char, rest: string)
    requires c as int >= 0x10000
    ensures KqlChar(c) != [] && KqlChar(c)[0] == '\\'
    ensures ReadChar(KqlChar(c) + rest) == Some(OneChar(c, rest))
  {
    hide Hex4, ReadUnit;
    SurrogatesOf(c);
    var m := c as int - 0x10000;
    var high, low := UnicodeEscape(0xD800 + m / 0x400), UnicodeEscape(0xDC00 + m % 0x400);
    assert high + low + rest == high + (low + rest);
    ReadUnitBack(0xD800 + m / 0x400, low + rest);
    ReadUnitBack(0xDC00 + m % 0x400, rest);
    assert (high + low + rest)[12..] == rest;
  }

  lemma {:induction false} ReadCharsBack(v: string, rest: string)
    ensures ReadBody(KqlChars(v) + ['"'] + rest) == Some(OneString(v, rest))
  {
    hide KqlChar, ReadChar;
    var text := KqlChars(v) + ['"'] + rest;
    if v == [] {
      assert text[1..] == rest;
    } else {
      var more := KqlChars(v[1..]) + ['"'] + rest;
      assert text == KqlChar(v[0]) + more;
      ReadCharBack(v[0], more);
      ReadCharsBack(v[1..], rest);
      assert [v[0]] + v[1..] == v;
    }
  }

  /** A JSON-string reader recovers every value exactly, whatever follows the literal. */
  lemma KqlStringRoundTrip(v: string, rest: string)
    ensures ReadString(KqlString(v) + rest) == Some(OneString(v, rest))
  {
    hide KqlString, KqlChars, ReadBody;
    KqlStringIs(v);
    ReadCharsBack(v, rest);
    assert (KqlString(v) + rest)[1..] == KqlChars(v) + ['"'] + rest;
  }
}

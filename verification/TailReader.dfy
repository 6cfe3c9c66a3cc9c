/**
 The incremental reader of scripts/bench/copilot_bench.py and its independence from how an
 append-only file arrives.
 */
module TailReader {
  import opened Options
  import opened SessionEvents
  import opened TextLines

  /** `json.loads` on one line: None when it raises; a value that is no object is Ignored. */
  type Decoder = string -> Option<Event>

  // ----- reading what is available -----

  /** The first line as `readline` returns it, with its newline if there is one. */
  function FirstLine(text: string): (line: string)
    ensures line <= text
    ensures text != [] ==> line != []
  {
    var n := LineLength(text);
    if n < |text| then text[..n + 1] else text
  }

  /** The lines accepted from the available text: all complete ones, and an unterminated one that decodes. */
  function Accepted(decode: Decoder, text: string): (lines: seq<string>)
    decreases |text|
  {
    if text == [] then []
    else
      var line := FirstLine(text);
      if line[|line| - 1] != '\n' && decode(line).None? then []
      else [line] + Accepted(decode, text[|line|..])
  }

  /** How far the position moves. */
  function Consumed(decode: Decoder, text: string): (n: nat)
    ensures n <= |text|
    decreases |text|
  {
    if text == [] then 0
    else
      var line := FirstLine(text);
      if line[|line| - 1] != '\n' && decode(line).None? then 0
      else |line| + Consumed(decode, text[|line|..])
  }

  /** What the reader does with the first available line. */
  lemma ReadOne(decode: Decoder, text: string)
    ensures text == [] ==> Accepted(decode, text) == [] && Consumed(decode, text) == 0
    ensures text != [] ==>
      var line := FirstLine(text);
      if line[|line| - 1] != '\n' && decode(line).None? then Accepted(decode, text) == [] && Consumed(decode, text) == 0
      else
        && Accepted(decode, text) == [line] + Accepted(decode, text[|line|..])
        && Consumed(decode, text) == |line| + Consumed(decode, text[|line|..])
  {
    hide FirstLine;
  }

  function JoinText(lines: seq<string>): string
  {
    if lines == [] then "" else lines[0] + JoinText(lines[1..])
  }

  /** A line with its newline at the end and nowhere else. */
  predicate IsLine(line: string)
  {
    line != "" && line[|line| - 1] == '\n' && '\n' !in line[..|line| - 1]
  }

  /**
   Nothing is skipped or read twice: the accepted lines, put together, are what was consumed; every one
   but the last is a whole line, the last is one too unless it decodes and ends the text; and what is
   left is a last line that is not finished and does not decode, or nothing.
   */
  lemma {:induction false} AcceptedIsConsumed(decode: Decoder, text: string)
    ensures var lines, n := Accepted(decode, text), Consumed(decode, text);
            && JoinText(lines) == text[..n]
            && (forall i :: 0 <= i < |lines| ==>
                  IsLine(lines[i]) || (i == |lines| - 1 && n == |text| && decode(lines[i]).Some? && lines[i] != ""))
            && '\n' !in text[n..]
            && (n < |text| ==> decode(text[n..]).None?)
    decreases |text|
  {
    hide Accepted, Consumed, FirstLine;
    ReadOne(decode, text);
    if text == [] {
    } else {
      var line := FirstLine(text);
      var rest := text[|line|..];
      FirstLineIs(text);
      if line[|line| - 1] == '\n' || decode(line).Some? {
        AcceptedIsConsumed(decode, rest);
        ReadOne(decode, rest);
        var n := Consumed(decode, rest);
        assert text[|line| + n..] == rest[n..] && text[..|line| + n] == line + rest[..n];
        assert ([line] + Accepted(decode, rest))[1..] == Accepted(decode, rest);
      } else {
        assert text[0..] == text && text[..0] == [];
      }
    }
  }

  lemma FirstLineIs(text: string)
    requires text != []
    ensures var line := FirstLine(text);
            && line != [] && line <= text
            && (line[|line| - 1] == '\n' ==> IsLine(line))
            && (line[|line| - 1] != '\n' ==> line == text && '\n' !in text)
  {
    var n := LineLength(text);
    if n < |text| {
      assert text[..n + 1][..n] == text[..n];
    } else {
      assert text[..n] == text && text[|text| - 1] in text[..n];
    }
  }

  /** A text file that others append to, and the position reached in it. */
  class TextStream {
    var content: string
    var position: nat

    ghost predicate Valid()
      reads this
    {
      position <= |content|
    }

    constructor ()
      ensures Valid() && content == [] && position == 0
    {
      content, position := [], 0;
    }

    method ReadLine() returns (line: string)
      requires Valid()
      modifies this`position
      ensures Valid()
      ensures line == FirstLine(old(content[position..]))
      ensures position == old(position) + |line|
    {
      line := FirstLine(content[position..]);
      position := position + |line|;
    }
  }

  /** `_read_available_lines` */
  method ReadAvailableLines(decode: Decoder, stream: TextStream) returns (lines: seq<string>)
    requires stream.Valid()
    modifies stream`position
    ensures stream.Valid()
    ensures lines == Accepted(decode, old(stream.content[stream.position..]))
    ensures stream.position == old(stream.position) + Consumed(decode, old(stream.content[stream.position..]))
  {
    hide FirstLine, Accepted, Consumed;
    lines := [];
    ghost var rest := stream.content[stream.position..];
    while true
      invariant stream.Valid() && stream.content == old(stream.content)
      invariant lines + Accepted(decode, stream.content[stream.position..]) == Accepted(decode, rest)
      invariant stream.position + Consumed(decode, stream.content[stream.position..])
             == old(stream.position) + Consumed(decode, rest)
      decreases |stream.content| - stream.position
    {
      var position := stream.position;
      ReadOne(decode, stream.content[stream.position..]);
      var line := stream.ReadLine();
      if line == [] {
        assert stream.content[stream.position..] == [];
        break;
      }
      if line[|line| - 1] != '\n' {
        if decode(line).None? {
          stream.position := position;
          break;
        }
      }
      assert stream.content[position..][|line|..] == stream.content[stream.position..];
      lines := lines + [line];
    }
  }

  // ----- chunking -----

  /** The events of the lines that decode; consume_line drops the others. */
  function Events(decode: Decoder, lines: seq<string>): seq<Event>
  {
    if lines == [] then []
    else EventOf(decode(lines[0])) + Events(decode, lines[1..])
  }

  function EventOf(e: Option<Event>): seq<Event>
  {
    match e case Some(v) => [v] case None => []
  }

  /** What is assumed of the file: no proper prefix of a line decodes, and the newline does not matter. */
  ghost predicate LineFormat(decode: Decoder, text: string)
    decreases |text|
  {
    var n := LineLength(text);
    && PrefixesDoNotDecode(decode, text, n)
    && (n < |text| ==> decode(text[..n + 1]) == decode(text[..n]) && LineFormat(decode, text[n + 1..]))
  }

  ghost predicate PrefixesDoNotDecode(decode: Decoder, text: string, n: nat)
    requires n <= |text|
  {
    forall k :: 0 <= k < n ==> decode(text[..k]).None?
  }

  ghost predicate BlankIsNoEvent(decode: Decoder)
  {
    decode([]).None? && decode(['\n']).None?
  }

  /** All lines returned by polling when the file has the given lengths, from a position on. */
  function Polls(decode: Decoder, content: string, lengths: seq<nat>, position: nat): seq<string>
    requires Growing(lengths, position, |content|)
    decreases |lengths|
  {
    if lengths == [] then []
    else
      assert Growing(lengths[1..], lengths[0], |content|);
      var available := content[position..lengths[0]];
      Accepted(decode, available) + Polls(decode, content, lengths[1..], position + Consumed(decode, available))
  }

  /** The file only grows. */
  predicate Growing(lengths: seq<nat>, from: nat, to: nat)
  {
    from <= to && (lengths == [] || (from <= lengths[0] && Growing(lengths[1..], lengths[0], to)))
  }

  lemma {:induction false} GrowingIs(lengths: seq<nat>, from: nat, to: nat)
    ensures Growing(lengths, from, to)
       <==> && from <= to
            && (forall i :: 0 <= i < |lengths| ==> from <= lengths[i] <= to)
            && (forall i, j :: 0 <= i < j < |lengths| ==> lengths[i] <= lengths[j])
  {
    if lengths == [] {
    } else {
      GrowingIs(lengths[1..], lengths[0], to);
      assert forall i :: 1 <= i < |lengths| ==> lengths[i] == lengths[1..][i - 1];
    }
  }

  lemma FirstLineStep(text: string)
    requires text != []
    ensures var n := LineLength(text);
              if n < |text| then FirstLine(text) == text[..n + 1] && FirstLine(text)[n] == '\n'
              else FirstLine(text) == text && text[|text| - 1] != '\n' && n == |text|
  {
    var n := LineLength(text);
    if n < |text| {
    } else {
      assert text[..n] == text && text[|text| - 1] in text[..n];
    }
  }

  lemma EventsFirst(decode: Decoder, line: string, rest: seq<string>)
    ensures Events(decode, [line] + rest) == EventOf(decode(line)) + Events(decode, rest)
  {
    assert ([line] + rest)[1..] == rest;
  }

  lemma AcceptedStep(decode: Decoder, text: string)
    requires text != []
    ensures var n := LineLength(text);
              if n < |text| then
                && Events(decode, Accepted(decode, text))
                     == EventOf(decode(text[..n + 1])) + Events(decode, Accepted(decode, text[n + 1..]))
                && Consumed(decode, text) == n + 1 + Consumed(decode, text[n + 1..])
              else
                && Events(decode, Accepted(decode, text)) == EventOf(decode(text))
                && Consumed(decode, text) == if decode(text).None? then 0 else n
  {
    hide Accepted, Consumed, FirstLine, LineLength, Events, EventOf;
    var n := LineLength(text);
    FirstLineStep(text);
    ReadOne(decode, text);
    if n < |text| {
      EventsFirst(decode, text[..n + 1], Accepted(decode, text[n + 1..]));
    } else {
      assert text[|text|..] == [];
      NothingAvailable(decode);
      NoEvents(decode);
      ReadOne(decode, []);
      EventsFirst(decode, text, []);
      assert [text] + [] == [text];
    }
  }

  /** What the format says about the first line and what follows it. */
  lemma FormatOfFirst(decode: Decoder, text: string)
    requires LineFormat(decode, text)
    ensures var n := LineLength(text);
              n < |text| ==> decode(text[..n + 1]) == decode(text[..n]) && LineFormat(decode, text[n + 1..])
  {
    hide PrefixesDoNotDecode, LineLength;
  }

  lemma NoPrefixDecodes(decode: Decoder, text: string, k: nat)
    requires LineFormat(decode, text) && k < LineLength(text)
    ensures decode(text[..k]).None?
  {
  }

  lemma FormatAfterLine(decode: Decoder, text: string)
    requires BlankIsNoEvent(decode) && LineFormat(decode, text)
    ensures LineFormat(decode, text[LineLength(text)..])
  {
    hide LineLength;
    var n := LineLength(text);
    var rest := text[n..];
    LineLengthIs(rest, 0);
    if n < |text| {
      FormatOfFirst(decode, text);
      assert rest[..1] == ['\n'] && rest[..0] == [] && rest[1..] == text[n + 1..];
    }
  }

  /** Reading part of the text first and the rest later yields the same events. */
  lemma {:induction false} ReadInTwo(decode: Decoder, text: string, m: nat)
    requires BlankIsNoEvent(decode) && LineFormat(decode, text) && m <= |text|
    ensures var k := Consumed(decode, text[..m]);
              && k <= m
              && LineFormat(decode, text[k..])
              && Events(decode, Accepted(decode, text[..m])) + Events(decode, Accepted(decode, text[k..]))
                   == Events(decode, Accepted(decode, text))
    decreases |text|
  {
    hide Accepted, Consumed, Events, EventOf, LineFormat, BlankIsNoEvent, LineLength;
    var n := LineLength(text);
    var part := text[..m];
    if m == 0 {
      NothingAvailable(decode);
      assert text[0..] == text;
    } else if n < m {
      assert part[..n] == text[..n];
      LineLengthIs(part, n);
      AcceptedStep(decode, part);
      AcceptedStep(decode, text);
      FormatOfFirst(decode, text);
      assert part[..n + 1] == text[..n + 1];
      assert part[n + 1..] == text[n + 1..][..m - n - 1];
      ReadInTwo(decode, text[n + 1..], m - n - 1);
      var k := Consumed(decode, part[n + 1..]);
      assert text[n + 1..][k..] == text[n + 1 + k..];
    } else {
      assert part == text[..n][..m];
      assert part[..m] == part;
      LineLengthIs(part, m);
      AcceptedStep(decode, part);
      if decode(part).None? {
        NoEvents(decode);
        assert text[0..] == text;
      } else {
        if m < n {
          NoPrefixDecodes(decode, text, m);
        }
        ReadAcceptedRest(decode, text);
      }
    }
  }

  lemma NothingAvailable(decode: Decoder)
    ensures Accepted(decode, []) == [] && Consumed(decode, []) == 0 && Events(decode, []) == []
  {
  }

  lemma NoEvents(decode: Decoder)
    ensures EventOf(None) == []
  {
  }

  /** After a record was accepted before its newline arrived, only the newline is left of its line. */
  lemma ReadAcceptedRest(decode: Decoder, text: string)
    requires BlankIsNoEvent(decode) && LineFormat(decode, text) && text != []
    ensures var n := LineLength(text);
              && LineFormat(decode, text[n..])
              && EventOf(decode(text[..n])) + Events(decode, Accepted(decode, text[n..]))
                   == Events(decode, Accepted(decode, text))
  {
    hide Accepted, Consumed, Events, LineFormat, LineLength;
    var n := LineLength(text);
    AcceptedStep(decode, text);
    FormatAfterLine(decode, text);
    var rest := text[n..];
    if n < |text| {
      FormatOfFirst(decode, text);
      LineLengthIs(rest, 0);
      AcceptedStep(decode, rest);
      assert rest[..1] == ['\n'] && rest[1..] == text[n + 1..];
    } else {
      assert rest == [] && text[..n] == text;
      NothingAvailable(decode);
    }
  }

  lemma {:induction false} EventsSum(decode: Decoder, a: seq<string>, b: seq<string>)
    ensures Events(decode, a + b) == Events(decode, a) + Events(decode, b)
  {
    if a == [] {
      assert a + b == b;
    } else {
      assert (a + b)[1..] == a[1..] + b;
      EventsSum(decode, a[1..], b);
    }
  }

  /**
   However the file arrives, polling it until its last byte is there yields the events of one
   read of the complete file.
   */
  lemma {:induction false} PollingIsReadingOnce(decode: Decoder, content: string, lengths: seq<nat>, position: nat)
    requires lengths != [] && Growing(lengths, position, |content|) && lengths[|lengths| - 1] == |content|
    requires BlankIsNoEvent(decode) && LineFormat(decode, content[position..])
    ensures Events(decode, Polls(decode, content, lengths, position))
         == Events(decode, Accepted(decode, content[position..]))
    decreases |lengths|
  {
    hide Accepted, Consumed, Events, LineFormat;
    var text := content[position..];
    var available := content[position..lengths[0]];
    assert available == text[..lengths[0] - position];
    var k := Consumed(decode, available);
    ReadInTwo(decode, text, lengths[0] - position);
    EventsSum(decode, Accepted(decode, available), Polls(decode, content, lengths[1..], position + k));
    if |lengths| == 1 {
      assert available == text;
      NothingAvailable(decode);
    } else {
      assert text[k..] == content[position + k..];
      PollingIsReadingOnce(decode, content, lengths[1..], position + k);
    }
  }

  // ----- the rows -----

  /** `consume_line`: a line that does not decode leaves the parser alone. */
  function ConsumeLine(clock: Clock, decode: Decoder, s: State, line: string): (State, seq<Row>)
  {
    match decode(line) case Some(e) => Consume(clock, s, e) case None => (s, [])
  }

  function ConsumeLines(clock: Clock, decode: Decoder, lines: seq<string>): (State, seq<Row>)
  {
    if lines == [] then (INITIAL, [])
    else
      var (s, rows) := ConsumeLines(clock, decode, lines[..|lines| - 1]);
      var (s', more) := ConsumeLine(clock, decode, s, lines[|lines| - 1]);
      (s', rows + more)
  }

  lemma {:induction false} LinesRunTheirEvents(clock: Clock, decode: Decoder, lines: seq<string>)
    ensures ConsumeLines(clock, decode, lines) == Run(clock, Events(decode, lines))
  {
    hide Consume;
    if lines == [] {
    } else {
      var front, last := lines[..|lines| - 1], lines[|lines| - 1];
      assert lines == front + [last];
      LinesRunTheirEvents(clock, decode, front);
      EventsSum(decode, front, [last]);
      assert Events(decode, [last]) == EventOf(decode(last)) by {
        assert [last][1..] == [];
      }
      var events := Events(decode, lines);
      if decode(last).Some? {
        assert events[..|events| - 1] == Events(decode, front);
      } else {
        assert events == Events(decode, front);
        var rows := ConsumeLines(clock, decode, front).1;
        assert rows + [] == rows;
      }
    }
  }

  /** The parser's state and rows do not depend on how the file arrived. */
  lemma RowsAreIndependentOfChunking(clock: Clock, decode: Decoder, content: string, lengths: seq<nat>)
    requires lengths != [] && Growing(lengths, 0, |content|) && lengths[|lengths| - 1] == |content|
    requires BlankIsNoEvent(decode) && LineFormat(decode, content)
    ensures ConsumeLines(clock, decode, Polls(decode, content, lengths, 0))
         == ConsumeLines(clock, decode, Accepted(decode, content))
  {
    hide Accepted, Consumed, Events, LineFormat, ConsumeLines, Run, Polls;
    assert content[0..] == content;
    PollingIsReadingOnce(decode, content, lengths, 0);
    LinesRunTheirEvents(clock, decode, Polls(decode, content, lengths, 0));
    LinesRunTheirEvents(clock, decode, Accepted(decode, content));
  }
}

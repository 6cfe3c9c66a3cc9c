/**
 What a run of the event parser means, read off the event stream itself: which messages open
 interactions, which events close them, and what a row says about the events in between.
 */
module SessionRuns {
  import opened Options
  import opened SessionEvents

  /** The last user message, checkpoint or shutdown before position `n` is a user message. */
  predicate OpenAt(events: seq<Event>, n: nat)
    requires n <= |events|
  {
    if n == 0 then false
    else match events[n - 1].kind
      case UserMessage(_, _, _) => true
      case UsageCheckpoint(_, _, _) => false
      case Shutdown(_, _, _) => false
      case _ => OpenAt(events, n - 1)
  }

  /** The event at `i` opens an interaction: a user message that does not steer an open one. */
  predicate Opens(events: seq<Event>, i: nat)
    requires i < |events|
  {
    events[i].kind.UserMessage? && !(events[i].kind.steering && OpenAt(events, i))
  }

  /** The event at `i` ends whatever interaction is open there. */
  predicate Closes(events: seq<Event>, i: nat)
    requires i < |events|
  {
    events[i].kind.UsageCheckpoint? || events[i].kind.Shutdown? || Opens(events, i)
  }

  /** Where the interaction that is open at `n` was opened. */
  function OpenedAt(events: seq<Event>, n: nat): (o: nat)
    requires n <= |events| && OpenAt(events, n)
    ensures o < n && Opens(events, o)
    ensures forall i :: o < i < n ==> !Closes(events, i)
  {
    if Opens(events, n - 1) then n - 1 else OpenedAt(events, n - 1)
  }

  // ----- what happened between an opening at `o` and position `n` -----

  /** The start that a completion at `n` pairs with: the latest start of the call since the
      opening, unless the call completed after it. */
  function PairedStart(events: seq<Event>, o: nat, n: nat, callId: string): (r: Option<nat>)
    requires o < n <= |events|
    ensures r.Some? ==>
      && o < r.value < n
      && events[r.value].kind.ToolStart? && events[r.value].kind.callId == Some(callId)
      && events[r.value].kind.toolName.Some?
      && forall i :: r.value < i < n ==> !(events[i].kind.ToolComplete? && events[i].kind.callId == Some(callId))
  {
    if n == o + 1 then None
    else
      var k := events[n - 1].kind;
      if k.ToolStart? && k.callId == Some(callId) && k.toolName.Some? then Some(n - 1)
      else if k.ToolComplete? && k.callId == Some(callId) then None
      else PairedStart(events, o, n - 1, callId)
  }

  function StartAt(events: seq<Event>, o: nat, n: nat, callId: Option<string>): Option<ToolStarted>
    requires o < n <= |events|
  {
    if callId.None? then None
    else match PairedStart(events, o, n, callId.value)
      case None => None
      case Some(j) => Some((events[j].kind.toolName.value, events[j].timestamp))
  }

  /** The name that the completion at `n` is counted under: its own, or else that of its start. */
  function NameCounted(events: seq<Event>, o: nat, n: nat): string
    requires o < n < |events| && events[n].kind.ToolComplete?
  {
    match events[n].kind.givenName
    case Named(name) => name
    case NotText => "unknown"
    case NoName =>
      if events[n].kind.callId.None? then "unknown"
      else match PairedStart(events, o, n, events[n].kind.callId.value)
        case None => "unknown"
        case Some(j) => if events[j].kind.toolName.value == "" then "unknown" else events[j].kind.toolName.value
  }

  /** The time that the completion at `n` adds: measured only when both timestamps are there and parse. */
  function TimeCounted(clock: Clock, events: seq<Event>, o: nat, n: nat): int
    requires o < n < |events| && events[n].kind.ToolComplete?
  {
    if events[n].kind.callId.None? then 0
    else match PairedStart(events, o, n, events[n].kind.callId.value)
      case None => 0
      case Some(j) =>
        if events[j].timestamp.None? || events[n].timestamp.None? then 0
        else match clock(events[j].timestamp.value, events[n].timestamp.value)
          case None => 0
          case Some(ms) => ms
  }

  /** Completions between the opening and `n` that are counted under `name`. */
  function CallsNamed(events: seq<Event>, o: nat, n: nat, name: string): nat
    requires o < n <= |events|
  {
    if n == o + 1 then 0
    else
      var k := events[n - 1].kind;
      CallsNamed(events, o, n - 1, name)
      + if k.ToolComplete? && NameCounted(events, o, n - 1) == name then 1 else 0
  }

  function Completions(events: seq<Event>, o: nat, n: nat): nat
    requires o < n <= |events|
  {
    if n == o + 1 then 0
    else Completions(events, o, n - 1) + if events[n - 1].kind.ToolComplete? then 1 else 0
  }

  /** The measured time of the completions between the opening and `n`. */
  function ToolTime(clock: Clock, events: seq<Event>, o: nat, n: nat): int
    requires o < n <= |events|
  {
    if n == o + 1 then 0
    else
      var k := events[n - 1].kind;
      ToolTime(clock, events, o, n - 1)
      + if k.ToolComplete? then TimeCounted(clock, events, o, n - 1) else 0
  }

  function ModelCalls(events: seq<Event>, o: nat, n: nat): nat
    requires o < n <= |events|
  {
    if n == o + 1 then 0
    else
      ModelCalls(events, o, n - 1)
      + if events[n - 1].kind.AssistantMessage? && events[n - 1].kind.apiCall then 1 else 0
  }

  /** The last non-empty answer. */
  function LastAnswer(events: seq<Event>, o: nat, n: nat): Option<string>
    requires o < n <= |events|
  {
    if n == o + 1 then None
    else
      var k := events[n - 1].kind;
      if k.AssistantMessage? && k.content.Some? && k.content.value != [] then k.content
      else LastAnswer(events, o, n - 1)
  }

  /** The first model that answered. */
  function FirstModel(events: seq<Event>, o: nat, n: nat): Option<string>
    requires o < n <= |events|
  {
    if n == o + 1 then None
    else
      var before := FirstModel(events, o, n - 1);
      if before.None? && events[n - 1].kind.AssistantMessage? then events[n - 1].kind.model else before
  }

  function TextOf(content: Option<string>): string
  {
    match content case Some(text) => text case None => ""
  }

  /** The opening message with every later steering message that is not empty on a line of its own. */
  function PromptAt(events: seq<Event>, o: nat, n: nat): Option<string>
    requires o < n <= |events| && events[o].kind.UserMessage?
  {
    if n == o + 1 then events[o].kind.content
    else
      var before := PromptAt(events, o, n - 1);
      var more := if events[n - 1].kind.UserMessage? then TextOf(events[n - 1].kind.content) else "";
      if more == "" then before
      else if TextOf(before) == "" then Some(more)
      else Some(TextOf(before) + "\n" + more)
  }

  function CallsUnder(i: Interaction, name: string): nat
  {
    if name in i.toolCalls then i.toolCalls[name] else 0
  }

  /** `i` describes the interaction opened at `o` as it stands before event `n`. */
  ghost predicate Describes(clock: Clock, events: seq<Event>, o: nat, n: nat, i: Interaction)
    requires o < n <= |events| && events[o].kind.UserMessage?
  {
    && i.interactionId == events[o].kind.interactionId
    && i.timestamp == events[o].timestamp
    && i.prompt == PromptAt(events, o, n)
    && (forall name :: CallsUnder(i, name) == CallsNamed(events, o, n, name))
    && Total(i.toolCalls) == Completions(events, o, n)
    && i.toolDurationMs == ToolTime(clock, events, o, n)
    && i.modelCalls == ModelCalls(events, o, n)
    && i.model == FirstModel(events, o, n)
    && i.response == LastAnswer(events, o, n)
  }

  /** The pending starts of the parser are exactly the starts a completion could still pair with. */
  ghost predicate PendingStarts(events: seq<Event>, o: nat, n: nat, starts: map<string, ToolStarted>)
    requires o < n <= |events|
  {
    forall id :: StartOf(starts, Some(id)) == StartAt(events, o, n, Some(id))
  }

  // ----- counters -----

  /** The usage reading carried by an event: None when it carries none, Some(None) when it is not a number. */
  function ReadingOf(meter: Meter, e: Event): Option<Option<int>>
  {
    if e.kind.UsageCheckpoint? || e.kind.Shutdown? then
      Some(match meter case Premium => e.kind.premium case NanoAiu => e.kind.nanoAiu)
    else None
  }

  function Readings(meter: Meter, events: seq<Event>, n: nat): seq<Option<int>>
    requires n <= |events|
  {
    if n == 0 then []
    else Readings(meter, events, n - 1) + OneReading(ReadingOf(meter, events[n - 1]))
  }

  function OneReading(r: Option<Option<int>>): seq<Option<int>>
  {
    match r case Some(v) => [v] case None => []
  }

  // ----- every state of every run -----

  ghost predicate Matches(clock: Clock, events: seq<Event>, n: nat, s: State)
    requires n <= |events|
  {
    && (s.current.Some? <==> OpenAt(events, n))
    && s.premium == CounterAfter(Readings(Premium, events, n))
    && s.nanoAiu == CounterAfter(Readings(NanoAiu, events, n))
    && (OpenAt(events, n) ==>
          && Describes(clock, events, OpenedAt(events, n), n, s.current.value)
          && PendingStarts(events, OpenedAt(events, n), n, s.toolStarts))
  }

  lemma DescribesOpening(clock: Clock, events: seq<Event>, o: nat)
    requires o < |events| && events[o].kind.UserMessage?
    ensures Describes(clock, events, o, o + 1, Opened(events[o]))
    ensures PendingStarts(events, o, o + 1, map[])
  {
  }

  lemma StartOfCall(events: seq<Event>, o: nat, n: nat, starts: map<string, ToolStarted>, callId: Option<string>)
    requires o < n <= |events| && PendingStarts(events, o, n, starts)
    ensures StartOf(starts, callId) == StartAt(events, o, n, callId)
  {
    if callId.Some? {
      assert StartOf(starts, Some(callId.value)) == StartAt(events, o, n, Some(callId.value));
    }
  }

  /** The parser's name and time of a completion are those the stream gives it. */
  lemma CountedAs(clock: Clock, events: seq<Event>, o: nat, n: nat)
    requires o < n < |events| && events[n].kind.ToolComplete?
    ensures var start := StartAt(events, o, n, events[n].kind.callId);
            && ResolvedName(events[n].kind.givenName, start) == NameCounted(events, o, n)
            && Duration(clock, start, events[n].timestamp) == TimeCounted(clock, events, o, n)
  {
    hide PairedStart;
  }

  lemma SteeredPrompt(prompt: Option<string>, more: Option<string>)
    ensures Steer(prompt, more)
         == if TextOf(more) == "" then prompt
            else if TextOf(prompt) == "" then Some(TextOf(more))
            else Some(TextOf(prompt) + "\n" + TextOf(more))
  {
  }

  /** One event inside an open interaction: it stays open and its description stays right. */
  lemma StepDescribes(clock: Clock, events: seq<Event>, o: nat, n: nat, s: State)
    requires o < n < |events| && events[o].kind.UserMessage?
    requires s.current.Some? && Describes(clock, events, o, n, s.current.value)
    requires PendingStarts(events, o, n, s.toolStarts)
    requires !events[n].kind.UsageCheckpoint? && !events[n].kind.Shutdown?
    requires events[n].kind.UserMessage? ==> events[n].kind.steering
    ensures var (s', rows) := Consume(clock, s, events[n]);
              rows == [] && s'.current.Some? && Describes(clock, events, o, n + 1, s'.current.value)
  {
    hide PendingStarts, StartOf, StartAt, ResolvedName, Duration, Without, Steer, Total, NameCounted, TimeCounted;
    var e := events[n];
    var i, i' := s.current.value, Consume(clock, s, e).0.current.value;
    if e.kind.UserMessage? {
      SteeredPrompt(i.prompt, e.kind.content);
    }
    if e.kind.ToolComplete? {
      StartOfCall(events, o, n, s.toolStarts, e.kind.callId);
      CountedAs(clock, events, o, n);
      AddCallTotal(i.toolCalls, ResolvedName(e.kind.givenName, StartOf(s.toolStarts, e.kind.callId)));
    }
    forall name
      ensures CallsUnder(i', name) == CallsNamed(events, o, n + 1, name)
    {
      assert CallsUnder(i, name) == CallsNamed(events, o, n, name);
    }
  }

  lemma StepStarts(clock: Clock, events: seq<Event>, o: nat, n: nat, s: State)
    requires o < n < |events| && s.current.Some?
    requires PendingStarts(events, o, n, s.toolStarts)
    requires events[n].kind.UserMessage? ==> events[n].kind.steering
    ensures PendingStarts(events, o, n + 1, Consume(clock, s, events[n]).0.toolStarts)
  {
    hide ResolvedName, Duration, Steer, AddCall, Answer;
    var starts := Consume(clock, s, events[n]).0.toolStarts;
    forall id
      ensures StartOf(starts, Some(id)) == StartAt(events, o, n + 1, Some(id))
    {
      assert StartOf(s.toolStarts, Some(id)) == StartAt(events, o, n, Some(id));
    }
  }

  // ----- the rows of a run -----

  function ReportedDelta(before: seq<Option<int>>, reading: Option<Option<int>>): Option<int>
  {
    match reading case None => None case Some(v) => CounterDelta(v, CounterAfter(before)).0
  }

  function DeltaAt(meter: Meter, events: seq<Event>, n: nat): Option<int>
    requires n < |events|
  {
    ReportedDelta(Readings(meter, events, n), ReadingOf(meter, events[n]))
  }

  function ModelsOf(e: Event): seq<ModelUse>
  {
    if e.kind.UsageCheckpoint? || e.kind.Shutdown? then e.kind.models else []
  }

  /** The interaction's own model, unless it has none and the checkpoint names one: then the last named. */
  function ModelShown(own: Option<string>, models: seq<ModelUse>): Option<string>
  {
    if TextOf(own) == "" && |models| > 0 then Some(models[|models| - 1].name) else own
  }

  function TokenSum(models: seq<ModelUse>, tokens: ModelUse -> int): int
  {
    if models == [] then 0 else tokens(models[0]) + TokenSum(models[1..], tokens)
  }

  /** Each kind of token added up over all models; nothing without a model. */
  function TokensShown(models: seq<ModelUse>): Option<Snapshot>
  {
    if |models| == 0 then None
    else
      Some(Snapshot(TokenSum(models, (m: ModelUse) => m.promptTokens),
                    TokenSum(models, (m: ModelUse) => m.cacheRead),
                    TokenSum(models, (m: ModelUse) => m.cacheWrite)))
  }

  /** The row that event `n` emits for the interaction `i` it closes. */
  function ClosingRow(events: seq<Event>, n: nat, i: Interaction): Row
    requires n < |events|
  {
    InteractionRow(i, events[n].timestamp, DeltaAt(Premium, events, n), DeltaAt(NanoAiu, events, n),
                   ModelShown(i.model, ModelsOf(events[n])), TokensShown(ModelsOf(events[n])))
  }

  lemma {:induction false} TokenSumAppend(a: seq<ModelUse>, last: ModelUse, tokens: ModelUse -> int)
    ensures TokenSum(a + [last], tokens) == TokenSum(a, tokens) + tokens(last)
  {
    if a == [] {
      assert [last][1..] == [];
    } else {
      assert (a + [last])[1..] == a[1..] + [last];
      TokenSumAppend(a[1..], last, tokens);
    }
  }

  lemma {:induction false} SnapshotIsShown(models: seq<ModelUse>)
    ensures SnapshotOf(models) == TokensShown(models)
  {
    if models == [] {
    } else {
      var front, last := models[..|models| - 1], models[|models| - 1];
      assert models == front + [last];
      SnapshotIsShown(front);
      TokenSumAppend(front, last, (m: ModelUse) => m.promptTokens);
      TokenSumAppend(front, last, (m: ModelUse) => m.cacheRead);
      TokenSumAppend(front, last, (m: ModelUse) => m.cacheWrite);
    }
  }

  lemma RowIsClosing(events: seq<Event>, n: nat, i: Interaction)
    requires n < |events|
    ensures ResultRow(i, events[n].timestamp, DeltaAt(Premium, events, n), DeltaAt(NanoAiu, events, n),
                      ModelsOf(events[n])) == ClosingRow(events, n, i)
    ensures ClosingRow(events, n, i).InteractionRow? && ClosingRow(events, n, i).interaction == i
  {
    hide SnapshotOf, TokensShown, DeltaAt;
    SnapshotIsShown(ModelsOf(events[n]));
  }

  /** What event `n` emits, read off the stream. */
  ghost predicate RowsAt(clock: Clock, events: seq<Event>, n: nat, rows: seq<Row>)
    requires n < |events|
  {
    var summary := if events[n].kind.Shutdown? then [SummaryRow(events[n].timestamp)] else [];
    if Closes(events, n) && OpenAt(events, n) then
      && rows != [] && rows[0].InteractionRow?
      && Describes(clock, events, OpenedAt(events, n), n, rows[0].interaction)
      && rows == [ClosingRow(events, n, rows[0].interaction)] + summary
    else rows == summary
  }

  lemma CountersStep(clock: Clock, events: seq<Event>, n: nat, s: State)
    requires n < |events|
    requires s.premium == CounterAfter(Readings(Premium, events, n))
    requires s.nanoAiu == CounterAfter(Readings(NanoAiu, events, n))
    ensures var s' := Consume(clock, s, events[n]).0;
              && s'.premium == CounterAfter(Readings(Premium, events, n + 1))
              && s'.nanoAiu == CounterAfter(Readings(NanoAiu, events, n + 1))
  {
    hide CounterDelta, CounterAfter, Steer, AddCall, Answer, ResolvedName, Duration, StartOf;
    if events[n].kind.UsageCheckpoint? || events[n].kind.Shutdown? {
      CounterAfterStep(Readings(Premium, events, n), events[n].kind.premium);
      CounterAfterStep(Readings(NanoAiu, events, n), events[n].kind.nanoAiu);
    } else {
      assert Readings(Premium, events, n + 1) == Readings(Premium, events, n);
      assert Readings(NanoAiu, events, n + 1) == Readings(NanoAiu, events, n);
    }
  }

  lemma CounterAfterStep(readings: seq<Option<int>>, v: Option<int>)
    ensures CounterAfter(readings + [v]) == CounterDelta(v, CounterAfter(readings)).1
  {
    assert (readings + [v])[..|readings|] == readings;
  }

  /** An event inside an open interaction. */
  lemma StepInside(clock: Clock, events: seq<Event>, n: nat, s: State)
    requires n < |events| && Matches(clock, events, n, s) && OpenAt(events, n) && !Closes(events, n)
    ensures Matches(clock, events, n + 1, Consume(clock, s, events[n]).0)
    ensures Consume(clock, s, events[n]).1 == []
  {
    hide Describes, PendingStarts, CounterDelta, CounterAfter, Consume;
    CountersStep(clock, events, n, s);
    var o := OpenedAt(events, n);
    StepDescribes(clock, events, o, n, s);
    StepStarts(clock, events, o, n, s);
    assert OpenedAt(events, n + 1) == o;
  }

  /** One event of a run: what it emits is determined by the stream, and the state keeps up. */
  lemma StepMatches(clock: Clock, events: seq<Event>, n: nat, s: State)
    requires n < |events| && Matches(clock, events, n, s)
    ensures Matches(clock, events, n + 1, Consume(clock, s, events[n]).0)
    ensures RowsAt(clock, events, n, Consume(clock, s, events[n]).1)
  {
    hide Describes, PendingStarts, CounterDelta, CounterAfter, Steer, AddCall, Answer, ResolvedName, Duration,
      ResultRow, ClosingRow;
    CountersStep(clock, events, n, s);
    if s.current.Some? {
      RowIsClosing(events, n, s.current.value);
    }
    if OpenAt(events, n) && !Closes(events, n) {
      StepInside(clock, events, n, s);
    } else if Opens(events, n) {
      DescribesOpening(clock, events, n);
      assert OpenedAt(events, n + 1) == n;
    }
  }

  /** Every state of every run is the one the stream determines. */
  lemma {:induction false} RunMatches(clock: Clock, events: seq<Event>, n: nat)
    requires n <= |events|
    ensures Matches(clock, events, n, Run(clock, events[..n]).0)
  {
    hide Describes, PendingStarts, Consume, OpenedAt;
    if n == 0 {
    } else {
      RunMatches(clock, events, n - 1);
      assert events[..n][..n - 1] == events[..n - 1];
      StepMatches(clock, events, n - 1, Run(clock, events[..n - 1]).0);
    }
  }

  /** The (opening, closing) positions of the interactions that ended before `n`. */
  function Closed(events: seq<Event>, n: nat): seq<(nat, nat)>
    requires n <= |events|
  {
    if n == 0 then []
    else
      Closed(events, n - 1)
      + if Closes(events, n - 1) && OpenAt(events, n - 1) then [(OpenedAt(events, n - 1), n - 1)] else []
  }

  function Openings(events: seq<Event>, n: nat): seq<nat>
    requires n <= |events|
  {
    if n == 0 then [] else Openings(events, n - 1) + if Opens(events, n - 1) then [n - 1] else []
  }

  function OpeningsOf(closed: seq<(nat, nat)>): (r: seq<nat>)
    ensures |r| == |closed|
    ensures forall k :: 0 <= k < |closed| ==> r[k] == closed[k].0
  {
    seq(|closed|, k requires 0 <= k < |closed| => closed[k].0)
  }

  function InteractionRows(rows: seq<Row>): seq<Row>
  {
    if rows == [] then []
    else InteractionRows(rows[..|rows| - 1]) + if rows[|rows| - 1].InteractionRow? then [rows[|rows| - 1]] else []
  }

  lemma {:induction false} InteractionRowsSum(a: seq<Row>, b: seq<Row>)
    ensures InteractionRows(a + b) == InteractionRows(a) + InteractionRows(b)
    decreases |b|
  {
    if b == [] {
      assert a + b == a;
    } else {
      assert (a + b)[..|a + b| - 1] == a + b[..|b| - 1];
      InteractionRowsSum(a, b[..|b| - 1]);
    }
  }

  /** The `k`-th interaction row of a run is exactly the `k`-th interaction that ended. */
  ghost predicate RowsAreClosed(clock: Clock, events: seq<Event>, n: nat, rows: seq<Row>)
    requires n <= |events|
  {
    && |rows| == |Closed(events, n)|
    && forall k :: 0 <= k < |rows| ==> RowOf(clock, events, n, k, rows[k])
  }

  ghost predicate RowOf(clock: Clock, events: seq<Event>, n: nat, k: nat, row: Row)
    requires n <= |events| && k < |Closed(events, n)|
  {
    var (o, c) := Closed(events, n)[k];
    && o < c < n && Opens(events, o) && Closes(events, c)
    && row.InteractionRow?
    && Describes(clock, events, o, c, row.interaction)
    && row == ClosingRow(events, c, row.interaction)
  }

  lemma {:induction false} RunRows(clock: Clock, events: seq<Event>, n: nat)
    requires n <= |events|
    ensures RowsAreClosed(clock, events, n, InteractionRows(Run(clock, events[..n]).1))
  {
    hide Matches, RowsAt, RowsAreClosed, Consume;
    if n > 0 {
      RunRows(clock, events, n - 1);
      RunMatches(clock, events, n - 1);
      assert events[..n][..n - 1] == events[..n - 1];
      var (s, before) := Run(clock, events[..n - 1]);
      StepMatches(clock, events, n - 1, s);
      var more := Consume(clock, s, events[n - 1]).1;
      InteractionRowsSum(before, more);
      OneMoreClosed(clock, events, n - 1, InteractionRows(before), more);
    } else {
      assert events[..0] == [];
      NoRowsYet(clock, events);
    }
  }

  lemma NoRowsYet(clock: Clock, events: seq<Event>)
    ensures RowsAreClosed(clock, events, 0, [])
  {
  }

  lemma OneMoreClosed(clock: Clock, events: seq<Event>, n: nat, rows: seq<Row>, more: seq<Row>)
    requires n < |events| && RowsAreClosed(clock, events, n, rows) && RowsAt(clock, events, n, more)
    ensures RowsAreClosed(clock, events, n + 1, rows + InteractionRows(more))
  {
    hide Describes, ClosingRow, InteractionRows;
    RowsOfEvent(clock, events, n, more);
    var all := rows + InteractionRows(more);
    forall k | 0 <= k < |all|
      ensures RowOf(clock, events, n + 1, k, all[k])
    {
      if k < |rows| {
        assert RowOf(clock, events, n, k, rows[k]);
      }
    }
  }

  lemma RowsOfEvent(clock: Clock, events: seq<Event>, n: nat, rows: seq<Row>)
    requires n < |events| && RowsAt(clock, events, n, rows)
    ensures InteractionRows(rows) == if Closes(events, n) && OpenAt(events, n) then [rows[0]] else []
  {
    hide Describes, OpenedAt, ClosingRow, Closes, OpenAt;
    if |rows| == 1 {
      assert rows[..0] == [] && rows == [rows[0]];
    } else if |rows| == 2 {
      assert rows[..1] == [rows[0]] && [rows[0]][..0] == [];
      assert InteractionRows([rows[0]]) == [rows[0]];
    }
  }

  /** Every opening has at most one row, in opening order; only an interaction still open has none. */
  lemma {:induction false} OpeningsAreClosedInOrder(events: seq<Event>, n: nat)
    requires n <= |events|
    ensures Openings(events, n)
         == OpeningsOf(Closed(events, n)) + if OpenAt(events, n) then [OpenedAt(events, n)] else []
  {
    if n == 0 {
    } else {
      OpeningsAreClosedInOrder(events, n - 1);
    }
  }

  /**
   Over any event stream, the interaction rows are in opening order, one for each
   interaction that a later message, checkpoint or shutdown has closed.
   */
  lemma EveryClosedInteractionHasOneRow(clock: Clock, events: seq<Event>)
    ensures var n := |events|;
            var rows, openings := InteractionRows(Run(clock, events).1), Openings(events, n);
            && |openings| == |rows| + (if OpenAt(events, n) then 1 else 0)
            && |Closed(events, n)| == |rows|
            && (forall k :: 0 <= k < |rows| ==>
                  openings[k] == Closed(events, n)[k].0 && RowOf(clock, events, n, k, rows[k]))
            && (forall k, j :: 0 <= k < |openings| && openings[k] < j < n && Closes(events, j) ==> k < |rows|)
  {
    hide RowOf, Consume, Closed;
    var n := |events|;
    assert events[..n] == events;
    RunRows(clock, events, n);
    OpeningsAreClosedInOrder(events, n);
    var rows := InteractionRows(Run(clock, events).1);
    assert RowsAreClosed(clock, events, n, rows);
  }

  // ----- conservation of tool calls -----

  /** All completions consumed while an interaction was open. */
  function CompletionsWhileOpen(events: seq<Event>, n: nat): nat
    requires n <= |events|
  {
    if n == 0 then 0
    else
      CompletionsWhileOpen(events, n - 1)
      + if events[n - 1].kind.ToolComplete? && OpenAt(events, n - 1) then 1 else 0
  }

  ghost function TotalOfRows(rows: seq<Row>): nat
  {
    if rows == [] then 0
    else
      TotalOfRows(rows[..|rows| - 1])
      + if rows[|rows| - 1].InteractionRow? then Total(rows[|rows| - 1].interaction.toolCalls) else 0
  }

  ghost function TotalOfOpen(s: State): nat
  {
    if s.current.Some? then Total(s.current.value.toolCalls) else 0
  }

  lemma {:induction false} TotalOfRowsSum(a: seq<Row>, b: seq<Row>)
    ensures TotalOfRows(a + b) == TotalOfRows(a) + TotalOfRows(b)
    decreases |b|
  {
    hide Total;
    if b == [] {
      assert a + b == a;
    } else {
      assert (a + b)[..|a + b| - 1] == a + b[..|b| - 1];
      TotalOfRowsSum(a, b[..|b| - 1]);
    }
  }

  lemma ConsumeConserves(clock: Clock, s: State, e: Event)
    ensures var (s', rows) := Consume(clock, s, e);
              TotalOfRows(rows) + TotalOfOpen(s')
                == TotalOfOpen(s) + if e.kind.ToolComplete? && s.current.Some? then 1 else 0
  {
    hide Total, AddCall, ResolvedName, Duration, Steer, CounterDelta;
    assert Total(map[]) == 0 by { NoCalls(); }
    if e.kind.ToolComplete? && s.current.Some? {
      AddCallTotal(s.current.value.toolCalls, ResolvedName(e.kind.givenName, StartOf(s.toolStarts, e.kind.callId)));
    }
    TwoRows(Consume(clock, s, e).1);
  }

  lemma NoCalls()
    ensures Total(map[]) == 0
  {
  }

  lemma TwoRows(rows: seq<Row>)
    requires |rows| <= 2
    ensures TotalOfRows(rows)
         == (if |rows| > 0 && rows[0].InteractionRow? then Total(rows[0].interaction.toolCalls) else 0)
          + (if |rows| > 1 && rows[1].InteractionRow? then Total(rows[1].interaction.toolCalls) else 0)
  {
    hide Total;
    if |rows| == 2 {
      assert rows[..1] == [rows[0]] && [rows[0]][..0] == [];
    }
  }

  /** No completion is lost or counted twice: rows and the open interaction hold all of them. */
  lemma {:induction false} ToolCallsConserved(clock: Clock, events: seq<Event>, n: nat)
    requires n <= |events|
    ensures var (s, rows) := Run(clock, events[..n]);
              TotalOfRows(rows) + TotalOfOpen(s) == CompletionsWhileOpen(events, n)
  {
    hide Consume, Describes, PendingStarts, CounterAfter;
    if n == 0 {
    } else {
      assert events[..n][..n - 1] == events[..n - 1];
      var (s, rows) := Run(clock, events[..n - 1]);
      ToolCallsConserved(clock, events, n - 1);
      RunMatches(clock, events, n - 1);
      ConsumeConserves(clock, s, events[n - 1]);
      TotalOfRowsSum(rows, Consume(clock, s, events[n - 1]).1);
    }
  }

  // ----- conservation of usage -----

  function DeltaOf(meter: Meter, row: Row): Option<int>
  {
    if row.SummaryRow? then None
    else match meter case Premium => row.premiumRequests case NanoAiu => row.nanoAiu
  }

  function OrZero(d: Option<int>): int
  {
    match d case Some(v) => v case None => 0
  }

  function UsageOfRows(meter: Meter, rows: seq<Row>): int
  {
    if rows == [] then 0 else UsageOfRows(meter, rows[..|rows| - 1]) + OrZero(DeltaOf(meter, rows[|rows| - 1]))
  }

  /** Deltas of checkpoints and shutdowns that found no interaction open: no row shows them. */
  function Unattributed(meter: Meter, events: seq<Event>, n: nat): int
    requires n <= |events|
  {
    if n == 0 then 0
    else Unattributed(meter, events, n - 1) + if OpenAt(events, n - 1) then 0 else OrZero(DeltaAt(meter, events, n - 1))
  }

  lemma {:induction false} UsageOfRowsSum(meter: Meter, a: seq<Row>, b: seq<Row>)
    ensures UsageOfRows(meter, a + b) == UsageOfRows(meter, a) + UsageOfRows(meter, b)
    decreases |b|
  {
    if b == [] {
      assert a + b == a;
    } else {
      assert (a + b)[..|a + b| - 1] == a + b[..|b| - 1];
      UsageOfRowsSum(meter, a, b[..|b| - 1]);
    }
  }

  /** What one event reports goes into its row if it closes an interaction, and else nowhere. */
  lemma UsageOfEvent(clock: Clock, events: seq<Event>, n: nat, meter: Meter, rows: seq<Row>)
    requires n < |events| && RowsAt(clock, events, n, rows)
    ensures UsageOfRows(meter, rows) == if OpenAt(events, n) then OrZero(DeltaAt(meter, events, n)) else 0
  {
    hide Describes, OpenedAt, CounterDelta, CounterAfter, Readings;
    if |rows| == 1 {
      assert rows[..0] == [];
    } else if |rows| == 2 {
      assert rows[..1] == [rows[0]] && [rows[0]][..0] == [];
      assert UsageOfRows(meter, [rows[0]]) == OrZero(DeltaOf(meter, rows[0]));
    }
  }

  lemma DeltasStep(meter: Meter, events: seq<Event>, n: nat)
    requires n < |events|
    ensures SumOfDeltas(Readings(meter, events, n + 1))
         == SumOfDeltas(Readings(meter, events, n)) + OrZero(DeltaAt(meter, events, n))
  {
    hide CounterDelta, CounterAfter;
    var before := Readings(meter, events, n);
    var after := Readings(meter, events, n + 1);
    match ReadingOf(meter, events[n])
    case Some(v) =>
      assert after == before + [v] && after[..|before|] == before;
    case None =>
      assert after == before;
  }

  /** The deltas of a run are those of its rows and of the events that had no interaction to close. */
  lemma {:induction false} DeltasAreInRows(clock: Clock, events: seq<Event>, n: nat, meter: Meter)
    requires n <= |events|
    ensures UsageOfRows(meter, Run(clock, events[..n]).1) + Unattributed(meter, events, n)
         == SumOfDeltas(Readings(meter, events, n))
  {
    hide Consume, Matches, RowsAt, DeltaAt, OpenAt;
    if n == 0 {
    } else {
      assert events[..n][..n - 1] == events[..n - 1];
      var (s, rows) := Run(clock, events[..n - 1]);
      DeltasAreInRows(clock, events, n - 1, meter);
      RunMatches(clock, events, n - 1);
      StepMatches(clock, events, n - 1, s);
      var more := Consume(clock, s, events[n - 1]).1;
      UsageOfEvent(clock, events, n - 1, meter, more);
      UsageOfRowsSum(meter, rows, more);
      DeltasStep(meter, events, n - 1);
    }
  }

  /**
   Usage is conserved over every run whose readings never fall: what the rows report, what was
   reported with nothing open, and what was swallowed after missing readings is the last reading.
   */
  lemma UsageConserved(clock: Clock, events: seq<Event>, meter: Meter)
    requires IsMonotone(Readings(meter, events, |events|))
    ensures var readings := Readings(meter, events, |events|);
              UsageOfRows(meter, Run(clock, events).1) + Unattributed(meter, events, |events|) + Swallowed(readings)
                == LastReading(readings)
  {
    assert events[..|events|] == events;
    DeltasAreInRows(clock, events, |events|, meter);
    NeverFallsExactlyWhen(Readings(meter, events, |events|));
    CounterConservation(Readings(meter, events, |events|));
  }

  /**
   A row reports usage exactly when a number closed it and none was missing just before: the
   growth since the last reading, or 0 when the counter fell.
   */
  lemma DeltasOfRows(clock: Clock, events: seq<Event>, k: nat, meter: Meter)
    requires k < |InteractionRows(Run(clock, events).1)|
    ensures var row := InteractionRows(Run(clock, events).1)[k];
            && k < |Closed(events, |events|)|
            && var c := Closed(events, |events|)[k].1;
            && c < |events|
            && var before := Readings(meter, events, c);
            && (DeltaOf(meter, row).Some? <==>
                  && ReadingOf(meter, events[c]).Some? && ReadingOf(meter, events[c]).value.Some?
                  && (before == [] || before[|before| - 1].Some?))
            && (DeltaOf(meter, row).Some? ==>
                  var growth := ReadingOf(meter, events[c]).value.value - LastReading(before);
                    DeltaOf(meter, row).value == if growth >= 0 then growth else 0)
  {
    hide Describes, Run, Closed, CounterAfter, Readings;
    var n := |events|;
    assert events[..n] == events;
    RunRows(clock, events, n);
    var row := InteractionRows(Run(clock, events).1)[k];
    assert RowOf(clock, events, n, k, row);
    var c := Closed(events, n)[k].1;
    BaselineIsLastReading(Readings(meter, events, c));
  }
}

/**
 The event-stream parser of scripts/bench/copilot_bench.py: one step per decoded line, and
 what a whole run amounts to.
 */
module SessionEvents {
  import opened Options

  /** `toolName or mcpToolName` of a completion: absent, text, or some other value. */
  datatype ToolName = NoName | Named(name: string) | NotText

  /** One model of the prompt-cache state that a checkpoint reports. */
  datatype ModelUse = ModelUse(name: string, promptTokens: int, cacheRead: int, cacheWrite: int)

  datatype Kind =
    | UserMessage(interactionId: Option<string>, content: Option<string>, steering: bool)
    | UsageCheckpoint(premium: Option<int>, nanoAiu: Option<int>, models: seq<ModelUse>)
    | Shutdown(premium: Option<int>, nanoAiu: Option<int>, models: seq<ModelUse>)
    | ToolStart(callId: Option<string>, toolName: Option<string>)
    | ToolComplete(callId: Option<string>, givenName: ToolName)
    | AssistantMessage(content: Option<string>, apiCall: bool, model: Option<string>)
    | Ignored  // malformed lines, lines that are no object, and every other event type

  datatype Event = Event(kind: Kind, timestamp: Option<string>)

  datatype Interaction = Interaction(
    interactionId: Option<string>,
    timestamp: Option<string>,
    prompt: Option<string>,
    toolCalls: map<string, nat>,
    toolDurationMs: int,
    modelCalls: nat,
    model: Option<string>,
    response: Option<string>)

  /** Token counts added up over the models of a checkpoint. */
  datatype Snapshot = Snapshot(promptTokens: int, cacheRead: int, cacheWrite: int)

  datatype Row =
    | InteractionRow(
        interaction: Interaction,
        completedAt: Option<string>,
        premiumRequests: Option<int>,
        nanoAiu: Option<int>,
        model: Option<string>,
        snapshot: Option<Snapshot>)
    | SummaryRow(shutdownAt: Option<string>)

  /** Milliseconds between two timestamps, None when either does not parse. */
  type Clock = (string, string) -> Option<int>

  /** A tool call that has started: its name and timestamp. */
  type ToolStarted = (string, Option<string>)

  // ----- counters -----

  /** The two usage totals that checkpoints and shutdowns report. */
  datatype Meter = Premium | NanoAiu

  datatype Counter = Counter(previous: int, valid: bool)

  function CounterDelta(value: Option<int>, c: Counter): (Option<int>, Counter)
  {
    match value
    case None => (None, Counter(c.previous, false))
    case Some(current) =>
      if !c.valid then (None, Counter(current, true))
      else (Some(if current - c.previous > 0 then current - c.previous else 0), Counter(current, true))
  }

  /** The counter after a list of readings. */
  function CounterAfter(readings: seq<Option<int>>): Counter
  {
    if readings == [] then Counter(0, true)
    else CounterDelta(readings[|readings| - 1], CounterAfter(readings[..|readings| - 1])).1
  }

  /** All deltas the readings report, added up. */
  function SumOfDeltas(readings: seq<Option<int>>): int
  {
    if readings == [] then 0
    else
      var before := readings[..|readings| - 1];
      var delta := CounterDelta(readings[|readings| - 1], CounterAfter(before)).0;
      SumOfDeltas(before) + match delta case Some(d) => d case None => 0
  }

  /** The last numeric reading, 0 before any. */
  function LastReading(readings: seq<Option<int>>): int
  {
    if readings == [] then 0
    else match readings[|readings| - 1]
      case Some(v) => v
      case None => LastReading(readings[..|readings| - 1])
  }

  /** The growth that no delta reports: a number right after a missing reading only sets the baseline. */
  function Swallowed(readings: seq<Option<int>>): int
  {
    if readings == [] then 0
    else
      var before := readings[..|readings| - 1];
      Swallowed(before)
      + match readings[|readings| - 1]
        case Some(v) => if before != [] && before[|before| - 1].None? then v - LastReading(before) else 0
        case None => 0
  }

  /** Numeric readings never fall, starting from 0. */
  predicate NeverFalls(readings: seq<Option<int>>)
  {
    readings == []
    || (var before := readings[..|readings| - 1];
        NeverFalls(before)
        && (readings[|readings| - 1].Some? ==> LastReading(before) <= readings[|readings| - 1].value))
  }

  lemma {:induction false} LastReadingIs(readings: seq<Option<int>>, i: nat)
    requires NeverFalls(readings) && i < |readings| && readings[i].Some?
    ensures 0 <= readings[i].value <= LastReading(readings)
  {
    var before := readings[..|readings| - 1];
    ReadingsAreNatural(before);
    if i < |before| {
      assert before[i] == readings[i];
      LastReadingIs(before, i);
    }
  }

  lemma {:induction false} ReadingsAreNatural(readings: seq<Option<int>>)
    requires NeverFalls(readings)
    ensures LastReading(readings) >= 0
  {
    if readings == [] {
    } else {
      ReadingsAreNatural(readings[..|readings| - 1]);
    }
  }

  /** No numeric reading is negative or below an earlier one. */
  ghost predicate IsMonotone(readings: seq<Option<int>>)
  {
    && (forall i :: 0 <= i < |readings| && readings[i].Some? ==> readings[i].value >= 0)
    && (forall i, j :: 0 <= i < j < |readings| && readings[i].Some? && readings[j].Some?
          ==> readings[i].value <= readings[j].value)
  }

  lemma {:induction false} NeverFallsExactlyWhen(readings: seq<Option<int>>)
    ensures NeverFalls(readings) <==> IsMonotone(readings)
  {
    if readings == [] {
    } else {
      var before, last := readings[..|readings| - 1], readings[|readings| - 1];
      NeverFallsExactlyWhen(before);
      if NeverFalls(readings) {
        forall i | 0 <= i < |before| && before[i].Some?
          ensures before[i].value <= LastReading(before)
        {
          LastReadingIs(before, i);
        }
        ReadingsAreNatural(before);
      }
      if IsMonotone(readings) {
        LastIsSome(before);
      }
    }
  }

  lemma {:induction false} LastIsSome(readings: seq<Option<int>>)
    ensures LastReading(readings) == 0 || Some(LastReading(readings)) in readings
  {
    if readings == [] {
    } else {
      LastIsSome(readings[..|readings| - 1]);
      assert readings == readings[..|readings| - 1] + [readings[|readings| - 1]];
    }
  }

  /** The baseline is always the last numeric reading, valid unless the last reading was missing. */
  lemma {:induction false} BaselineIsLastReading(readings: seq<Option<int>>)
    ensures CounterAfter(readings) == Counter(LastReading(readings), readings == [] || readings[|readings| - 1].Some?)
  {
    if readings == [] {
    } else {
      BaselineIsLastReading(readings[..|readings| - 1]);
    }
  }

  /** Deltas and swallowed growth add up to the last reading: nothing is counted twice or lost. */
  lemma {:induction false} CounterConservation(readings: seq<Option<int>>)
    requires NeverFalls(readings)
    ensures SumOfDeltas(readings) + Swallowed(readings) == LastReading(readings)
  {
    if readings == [] {
    } else {
      var before := readings[..|readings| - 1];
      CounterConservation(before);
      BaselineIsLastReading(before);
    }
  }

  // ----- one step -----

  datatype State = State(
    current: Option<Interaction>,
    toolStarts: map<string, ToolStarted>,
    premium: Counter,
    nanoAiu: Counter)

  const INITIAL := State(None, map[], Counter(0, true), Counter(0, true))

  function Opened(e: Event): Interaction
    requires e.kind.UserMessage?
  {
    Interaction(e.kind.interactionId, e.timestamp, e.kind.content, map[], 0, 0, None, None)
  }

  /** A steering message is added to the prompt of the open interaction. */
  function Steer(prompt: Option<string>, more: Option<string>): Option<string>
  {
    if more.None? || more.value == [] then prompt
    else if prompt.None? || prompt.value == [] then more
    else Some(prompt.value + ['\n'] + more.value)
  }

  function ResolvedName(given: ToolName, start: Option<ToolStarted>): string
  {
    match given
    case Named(name) => name
    case NotText => "unknown"
    case NoName => if start.Some? && start.value.0 != [] then start.value.0 else "unknown"
  }

  function Duration(clock: Clock, start: Option<ToolStarted>, completedAt: Option<string>): int
  {
    if start.Some? && start.value.1.Some? && completedAt.Some? then
      match clock(start.value.1.value, completedAt.value) case Some(ms) => ms case None => 0
    else 0
  }

  function StartOf(starts: map<string, ToolStarted>, callId: Option<string>): Option<ToolStarted>
  {
    if callId.Some? && callId.value in starts then Some(starts[callId.value]) else None
  }

  function Without<V>(m: map<string, V>, key: Option<string>): map<string, V>
  {
    if key.Some? then m - {key.value} else m
  }

  /** `sum(tool_calls_by_name.values())` */
  ghost function Total(calls: map<string, nat>): nat
  {
    if calls == map[] then 0 else var k :| k in calls; calls[k] + Total(calls - {k})
  }

  lemma {:induction false} TotalWithout(calls: map<string, nat>, k: string)
    requires k in calls
    ensures Total(calls) == calls[k] + Total(calls - {k})
    decreases |calls|
  {
    var j :| j in calls && Total(calls) == calls[j] + Total(calls - {j});
    if j == k {
    } else {
      TotalWithout(calls - {j}, k);
      TotalWithout(calls - {k}, j);
      assert calls - {j} - {k} == calls - {k} - {j};
    }
  }

  lemma AddCallTotal(calls: map<string, nat>, name: string)
    ensures Total(AddCall(calls, name)) == Total(calls) + 1
  {
    var more := AddCall(calls, name);
    TotalWithout(more, name);
    assert more - {name} == calls - {name};
    if name in calls {
      TotalWithout(calls, name);
    } else {
      assert calls - {name} == calls;
    }
  }

  function AddCall(calls: map<string, nat>, name: string): map<string, nat>
  {
    calls[name := (if name in calls then calls[name] else 0) + 1]
  }

  function Answer(i: Interaction, k: Kind): Interaction
    requires k.AssistantMessage?
  {
    i.(response := if k.content.Some? && k.content.value != [] then k.content else i.response,
       modelCalls := if k.apiCall then i.modelCalls + 1 else i.modelCalls,
       model := if i.model.None? then k.model else i.model)
  }

  function SnapshotOf(models: seq<ModelUse>): Option<Snapshot>
  {
    if models == [] then None
    else
      var last := models[|models| - 1];
      match SnapshotOf(models[..|models| - 1])
      case None => Some(Snapshot(last.promptTokens, last.cacheRead, last.cacheWrite))
      case Some(sum) =>
        Some(Snapshot(sum.promptTokens + last.promptTokens, sum.cacheRead + last.cacheRead,
                      sum.cacheWrite + last.cacheWrite))
  }

  /** `Interaction.result`: without a model of its own, the row names the last model of the checkpoint. */
  function ResultRow(i: Interaction, completedAt: Option<string>, premium: Option<int>, nanoAiu: Option<int>,
                     models: seq<ModelUse>): Row
  {
    var own := i.model.Some? && i.model.value != [];
    InteractionRow(i, completedAt, premium, nanoAiu,
                   if own || models == [] then i.model else Some(models[|models| - 1].name),
                   SnapshotOf(models))
  }

  /** `_complete_interaction`: the counters move even when no interaction is open. */
  function Complete(s: State, e: Event): (State, seq<Row>)
    requires e.kind.UsageCheckpoint? || e.kind.Shutdown?
  {
    var (premium, p) := CounterDelta(e.kind.premium, s.premium);
    var (nano, n) := CounterDelta(e.kind.nanoAiu, s.nanoAiu);
    (s.(current := None, premium := p, nanoAiu := n),
     if s.current.Some? then [ResultRow(s.current.value, e.timestamp, premium, nano, e.kind.models)] else [])
  }

  function Consume(clock: Clock, s: State, e: Event): (State, seq<Row>)
  {
    match e.kind
    case UserMessage(_, content, steering) =>
      if steering && s.current.Some? then
        (s.(current := Some(s.current.value.(prompt := Steer(s.current.value.prompt, content)))), [])
      else
        (s.(current := Some(Opened(e)), toolStarts := map[]),
         if s.current.Some? then [ResultRow(s.current.value, e.timestamp, None, None, [])] else [])
    case UsageCheckpoint(_, _, _) => Complete(s, e)
    case Shutdown(_, _, _) =>
      var (s', rows) := Complete(s, e);
      (s', rows + [SummaryRow(e.timestamp)])
    case ToolStart(callId, toolName) =>
      if s.current.Some? && callId.Some? && toolName.Some?
      then (s.(toolStarts := s.toolStarts[callId.value := (toolName.value, e.timestamp)]), [])
      else (s, [])
    case ToolComplete(callId, given) =>
      if s.current.None? then (s, [])
      else
        var start := StartOf(s.toolStarts, callId);
        var i := s.current.value;
        (s.(toolStarts := Without(s.toolStarts, callId),
            current := Some(i.(toolCalls := AddCall(i.toolCalls, ResolvedName(given, start)),
                               toolDurationMs := i.toolDurationMs + Duration(clock, start, e.timestamp)))),
         [])
    case AssistantMessage(_, _, _) =>
      if s.current.None? then (s, [])
      else (s.(current := Some(Answer(s.current.value, e.kind))), [])
    case Ignored => (s, [])
  }

  /** The parser object of the script. */
  class SessionEventParser {
    const clock: Clock
    var current: Option<Interaction>
    var toolStarts: map<string, ToolStarted>
    var previousPremiumRequests: int
    var premiumBaselineValid: bool
    var previousNanoAiu: int
    var nanoAiuBaselineValid: bool

    ghost function Abs(): State
      reads this
    {
      State(current, toolStarts,
            Counter(previousPremiumRequests, premiumBaselineValid),
            Counter(previousNanoAiu, nanoAiuBaselineValid))
    }

    constructor (clock: Clock)
      ensures Abs() == INITIAL && this.clock == clock
    {
      this.clock := clock;
      current, toolStarts := None, map[];
      previousPremiumRequests, premiumBaselineValid := 0, true;
      previousNanoAiu, nanoAiuBaselineValid := 0, true;
    }

    method CompleteInteraction(e: Event) returns (rows: seq<Row>)
      requires e.kind.UsageCheckpoint? || e.kind.Shutdown?
      modifies this
      ensures (Abs(), rows) == Complete(old(Abs()), e)
    {
      var (premium, p) := CounterDelta(e.kind.premium, Counter(previousPremiumRequests, premiumBaselineValid));
      previousPremiumRequests, premiumBaselineValid := p.previous, p.valid;
      var (nano, n) := CounterDelta(e.kind.nanoAiu, Counter(previousNanoAiu, nanoAiuBaselineValid));
      previousNanoAiu, nanoAiuBaselineValid := n.previous, n.valid;
      rows := [];
      if current.Some? {
        rows := [ResultRow(current.value, e.timestamp, premium, nano, e.kind.models)];
        current := None;
      }
    }

    method CompleteTool(e: Event)
      requires e.kind.ToolComplete? && current.Some?
      modifies this
      ensures (Abs(), []) == Consume(clock, old(Abs()), e)
    {
      var start := StartOf(toolStarts, e.kind.callId);
      toolStarts := Without(toolStarts, e.kind.callId);
      var name := ResolvedName(e.kind.givenName, start);
      var i := current.value;
      i := i.(toolCalls := AddCall(i.toolCalls, name));
      i := i.(toolDurationMs := i.toolDurationMs + Duration(clock, start, e.timestamp));
      current := Some(i);
    }

    /** `consume_line` on a decoded line. */
    method ConsumeEvent(e: Event) returns (rows: seq<Row>)
      modifies this
      ensures (Abs(), rows) == Consume(clock, old(Abs()), e)
    {
      rows := [];
      match e.kind {
        case UserMessage(_, content, steering) =>
          if steering && current.Some? {
            current := Some(current.value.(prompt := Steer(current.value.prompt, content)));
            return;
          }
          if current.Some? {
            rows := [ResultRow(current.value, e.timestamp, None, None, [])];
          }
          current := Some(Opened(e));
          toolStarts := map[];
        case UsageCheckpoint(_, _, _) =>
          rows := CompleteInteraction(e);
        case Shutdown(_, _, _) =>
          rows := CompleteInteraction(e);
          rows := rows + [SummaryRow(e.timestamp)];
        case ToolStart(callId, toolName) =>
          if current.Some? && callId.Some? && toolName.Some? {
            toolStarts := toolStarts[callId.value := (toolName.value, e.timestamp)];
          }
        case ToolComplete(_, _) =>
          if current.Some? {
            CompleteTool(e);
          }
        case AssistantMessage(_, _, _) =>
          if current.Some? {
            current := Some(Answer(current.value, e.kind));
          }
        case Ignored =>
      }
    }
  }

  /** A whole run: the state and all rows after the events, from the start. */
  function Run(clock: Clock, events: seq<Event>): (State, seq<Row>)
  {
    if events == [] then (INITIAL, [])
    else
      var (s, rows) := Run(clock, events[..|events| - 1]);
      var (s', more) := Consume(clock, s, events[|events| - 1]);
      (s', rows + more)
  }
}

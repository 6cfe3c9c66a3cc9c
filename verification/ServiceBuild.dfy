/**
 Building the index of one service: `_index_one_api` and `build_service_index` of
 src/apim_mcp/index/builder.py.  Between two awaits a task runs alone, so a build is a
 sequence of atomic steps, in any order the event loop picks.
 */
module ServiceBuild {
  import opened Options

  /** Schema property names by operation, from an exported document. */
  type Spec = map<string, seq<string>>

  datatype Entry = Entry(apiId: string, operation: string, propertyNames: seq<string>, specIndexed: bool)

  datatype Outcome = ListingFailed | Indexed(operations: seq<string>, spec: Option<Spec>)

  /** Where the task of one API stands. */
  datatype Phase =
    | Waiting  // not started, or queued at the semaphore
    | Listing
    | Exporting(operations: seq<string>)
    | Done(outcome: Outcome)
    | Cancelled

  /** Where `build_service_index` itself stands. */
  datatype Main = Watching | Draining | Returned(partial: bool)

  datatype State = State(
    apis: seq<string>,
    available: nat,
    phases: seq<Phase>,
    entries: seq<Entry>,
    specFailures: nat,
    cancelRequested: set<nat>,
    main: Main,
    indexed: seq<nat>)  // history: the tasks that appended their entries, in order

  datatype Step =
    | Acquire(task: nat)
    | OperationsListed(task: nat, operations: Option<seq<string>>)
    | SpecExported(task: nat, spec: Option<Spec>)
    | CancelTask(task: nat)
    | WaitReturns
    | GatherReturns

  function Start(apis: seq<string>, maxConcurrency: nat): State
  {
    State(apis, maxConcurrency, seq(|apis|, _ => Waiting), [], 0, {}, Watching, [])
  }

  predicate Finished(p: Phase)
  {
    p.Done? || p.Cancelled?
  }

  predicate Inside(p: Phase)
  {
    p.Listing? || p.Exporting?
  }

  /** The tasks that have not finished. */
  function Pending(phases: seq<Phase>): set<nat>
  {
    set i | 0 <= i < |phases| && !Finished(phases[i])
  }

  // ----- what each step does -----

  function NamesFor(spec: Option<Spec>, operation: string): seq<string>
  {
    if spec.Some? && operation in spec.value then spec.value[operation] else []
  }

  /** All entries of one API. */
  function Block(apiId: string, operations: seq<string>, spec: Option<Spec>): seq<Entry>
  {
    if operations == [] then []
    else
      var last := operations[|operations| - 1];
      Block(apiId, operations[..|operations| - 1], spec)
      + [Entry(apiId, last, NamesFor(spec, last), spec.Some?)]
  }

  /** An entry names its API and operation, and has property names only from an exported document. */
  predicate IsEntryFor(e: Entry, apiId: string, operation: string, spec: Option<Spec>)
  {
    && e.apiId == apiId && e.operation == operation
    && (e.specIndexed <==> spec.Some?)
    && e.propertyNames == if spec.Some? && operation in spec.value.Keys then spec.value[operation] else []
  }

  /** A block holds one entry per operation, in order: never part of an API. */
  lemma {:induction false} BlockIsWhole(apiId: string, operations: seq<string>, spec: Option<Spec>)
    ensures var block := Block(apiId, operations, spec);
              && |block| == |operations|
              && forall k :: 0 <= k < |operations| ==> IsEntryFor(block[k], apiId, operations[k], spec)
  {
    if operations == [] {
    } else {
      BlockIsWhole(apiId, operations[..|operations| - 1], spec);
    }
  }

  /** When the event loop can take a step: a task is cancelled only after the deadline asked for it. */
  predicate Enabled(s: State, step: Step)
  {
    match step
    case Acquire(i) => i < |s.phases| && s.phases[i].Waiting? && s.available > 0
    case OperationsListed(i, _) => i < |s.phases| && s.phases[i].Listing?
    case SpecExported(i, _) => i < |s.phases| && s.phases[i].Exporting? && i < |s.apis|
    case CancelTask(i) => i < |s.phases| && i in s.cancelRequested && !Finished(s.phases[i])
    case WaitReturns => s.main.Watching?
    case GatherReturns =>
      s.main.Draining? && forall i :: i in s.cancelRequested && i < |s.phases| ==> Finished(s.phases[i])
  }

  function Apply(s: State, step: Step): State
    requires Enabled(s, step)
  {
    match step
    case Acquire(i) => s.(available := s.available - 1, phases := s.phases[i := Listing])
    case OperationsListed(i, operations) =>
      if operations.None? then
        s.(phases := s.phases[i := Done(ListingFailed)],
           specFailures := s.specFailures + 1,
           available := s.available + 1)
      else s.(phases := s.phases[i := Exporting(operations.value)])
    case SpecExported(i, spec) =>
      var operations := s.phases[i].operations;
      s.(phases := s.phases[i := Done(Indexed(operations, spec))],
         specFailures := s.specFailures + (if spec.None? then 1 else 0),
         entries := s.entries + Block(s.apis[i], operations, spec),
         available := s.available + 1,
         indexed := s.indexed + [i])
    case CancelTask(i) =>
      s.(phases := s.phases[i := Cancelled], available := if Inside(s.phases[i]) then s.available + 1 else s.available)
    case WaitReturns =>
      if Pending(s.phases) == {} then s.(main := Returned(false))
      else s.(main := Draining, cancelRequested := Pending(s.phases))
    case GatherReturns => s.(main := Returned(true))
  }

  // ----- the invariant -----

  function Count(phases: seq<Phase>, counts: Phase -> bool): nat
  {
    if phases == [] then 0
    else Count(phases[..|phases| - 1], counts) + if counts(phases[|phases| - 1]) then 1 else 0
  }

  predicate Failed(p: Phase)
  {
    p.Done? && (p.outcome.ListingFailed? || p.outcome.spec.None?)
  }

  predicate HasIndexed(p: Phase)
  {
    p.Done? && p.outcome.Indexed?
  }

  /** The entries of the tasks in `order`, one whole block after the other. */
  function Blocks(apis: seq<string>, phases: seq<Phase>, order: seq<nat>): seq<Entry>
    requires forall k :: 0 <= k < |order| ==> order[k] < |phases| && order[k] < |apis| && HasIndexed(phases[order[k]])
  {
    if order == [] then []
    else
      var i := order[|order| - 1];
      assert HasIndexed(phases[i]);
      Blocks(apis, phases, order[..|order| - 1]) + Block(apis[i], phases[i].outcome.operations, phases[i].outcome.spec)
  }

  /** The history lists exactly the tasks that indexed their API, each once. */
  ghost predicate Lists(indexed: seq<nat>, phases: seq<Phase>)
  {
    && (forall k :: 0 <= k < |indexed| ==> indexed[k] < |phases| && HasIndexed(phases[indexed[k]]))
    && (forall i :: 0 <= i < |phases| && HasIndexed(phases[i]) ==> i in indexed)
    && (forall j, k :: 0 <= j < k < |indexed| ==> indexed[j] != indexed[k])
  }

  /** The semaphore's count and the failure count are right. */
  ghost predicate CountsAreRight(s: State, maxConcurrency: nat)
  {
    && s.available + Count(s.phases, Inside) == maxConcurrency
    && s.specFailures == Count(s.phases, Failed)
  }

  /** The shared list holds whole blocks of the tasks that indexed their API. */
  ghost predicate EntriesAreWhole(s: State)
    requires |s.phases| == |s.apis|
  {
    Lists(s.indexed, s.phases) && s.entries == Blocks(s.apis, s.phases, s.indexed)
  }

  /** Cancellation and return follow the deadline. */
  ghost predicate Control(s: State)
  {
    && (forall i :: i in s.cancelRequested ==> i < |s.phases|)
    && (forall i :: 0 <= i < |s.phases| && s.phases[i].Cancelled? ==> i in s.cancelRequested)
    && (match s.main
        case Watching => s.cancelRequested == {}
        case Draining => s.cancelRequested != {}
        case Returned(partial) => partial <==> s.cancelRequested != {})
    && (!s.main.Watching? ==> forall i :: 0 <= i < |s.phases| && i !in s.cancelRequested ==> s.phases[i].Done?)
    && (s.main.Returned? ==> forall i :: 0 <= i < |s.phases| ==> Finished(s.phases[i]))
  }

  ghost predicate Inv(s: State, maxConcurrency: nat)
  {
    |s.phases| == |s.apis| && CountsAreRight(s, maxConcurrency) && EntriesAreWhole(s) && Control(s)
  }

  lemma {:induction false} CountUpdate(phases: seq<Phase>, counts: Phase -> bool, i: nat, p: Phase)
    requires i < |phases|
    ensures Count(phases[i := p], counts) + (if counts(phases[i]) then 1 else 0)
         == Count(phases, counts) + (if counts(p) then 1 else 0)
    decreases |phases|
  {
    var n := |phases| - 1;
    if i < n {
      CountUpdate(phases[..n], counts, i, p);
      assert phases[i := p][..n] == phases[..n][i := p];
    } else {
      assert phases[i := p][..n] == phases[..n];
    }
  }

  lemma {:induction false} CountNone(phases: seq<Phase>, counts: Phase -> bool)
    requires forall i :: 0 <= i < |phases| ==> !counts(phases[i])
    ensures Count(phases, counts) == 0
  {
    if phases == [] {
    } else {
      CountNone(phases[..|phases| - 1], counts);
    }
  }

  /** Blocks depend only on the phases of the listed tasks. */
  lemma {:induction false} BlocksSame(apis: seq<string>, phases: seq<Phase>, phases': seq<Phase>, order: seq<nat>)
    requires forall k :: 0 <= k < |order| ==> order[k] < |phases| && order[k] < |apis| && HasIndexed(phases[order[k]])
    requires |phases'| == |phases|
    requires forall k :: 0 <= k < |order| ==> phases'[order[k]] == phases[order[k]]
    ensures Blocks(apis, phases', order) == Blocks(apis, phases, order)
  {
    if order == [] {
    } else {
      BlocksSame(apis, phases, phases', order[..|order| - 1]);
    }
  }

  lemma StartIsGood(apis: seq<string>, maxConcurrency: nat)
    ensures Inv(Start(apis, maxConcurrency), maxConcurrency)
  {
    var s := Start(apis, maxConcurrency);
    CountNone(s.phases, Inside);
    CountNone(s.phases, Failed);
  }

  lemma StepCounts(s: State, maxConcurrency: nat, step: Step)
    requires CountsAreRight(s, maxConcurrency) && Enabled(s, step)
    ensures CountsAreRight(Apply(s, step), maxConcurrency)
  {
    hide Block, Pending, Count;
    if !step.WaitReturns? && !step.GatherReturns? {
      var i := step.task;
      CountUpdate(s.phases, Inside, i, Apply(s, step).phases[i]);
      CountUpdate(s.phases, Failed, i, Apply(s, step).phases[i]);
    }
  }

  lemma ListsSame(indexed: seq<nat>, phases: seq<Phase>, i: nat, p: Phase)
    requires Lists(indexed, phases) && i < |phases| && !HasIndexed(phases[i]) && !HasIndexed(p)
    ensures Lists(indexed, phases[i := p])
    ensures i !in indexed
  {
  }

  lemma ListsMore(indexed: seq<nat>, phases: seq<Phase>, i: nat, p: Phase)
    requires Lists(indexed, phases) && i < |phases| && !HasIndexed(phases[i]) && HasIndexed(p)
    ensures Lists(indexed + [i], phases[i := p])
    ensures i !in indexed
  {
  }

  lemma StepEntries(s: State, step: Step)
    requires |s.phases| == |s.apis| && EntriesAreWhole(s) && Enabled(s, step)
    ensures |Apply(s, step).phases| == |Apply(s, step).apis| && EntriesAreWhole(Apply(s, step))
  {
    hide Block, Pending, Lists, Blocks;
    if !step.WaitReturns? && !step.GatherReturns? {
      var i, s' := step.task, Apply(s, step);
      if step.SpecExported? {
        ListsMore(s.indexed, s.phases, i, s'.phases[i]);
        OneMoreBlock(s, step);
      } else {
        ListsSame(s.indexed, s.phases, i, s'.phases[i]);
        ListedAreIndexed(s);
        BlocksSame(s.apis, s.phases, s'.phases, s.indexed);
      }
    }
  }

  lemma ListedAreIndexed(s: State)
    requires Lists(s.indexed, s.phases)
    ensures forall k :: 0 <= k < |s.indexed| ==> s.indexed[k] < |s.phases| && HasIndexed(s.phases[s.indexed[k]])
  {
  }

  lemma BlocksAppend(apis: seq<string>, phases: seq<Phase>, order: seq<nat>, i: nat)
    requires |phases| == |apis| && i < |phases| && HasIndexed(phases[i])
    requires forall k :: 0 <= k < |order| ==> order[k] < |phases| && HasIndexed(phases[order[k]])
    ensures Blocks(apis, phases, order + [i])
         == Blocks(apis, phases, order) + Block(apis[i], phases[i].outcome.operations, phases[i].outcome.spec)
  {
    hide Block;
    assert (order + [i])[..|order|] == order;
  }

  lemma OneMoreBlock(s: State, step: Step)
    requires step.SpecExported? && Enabled(s, step) && |s.phases| == |s.apis| && EntriesAreWhole(s)
    requires Lists(Apply(s, step).indexed, Apply(s, step).phases) && step.task !in s.indexed
    ensures var s' := Apply(s, step);
              s'.entries == Blocks(s'.apis, s'.phases, s'.indexed)
  {
    hide Block, Blocks, Lists;
    var s' := Apply(s, step);
    ListedAreIndexed(s);
    ListedAreIndexed(s');
    BlocksSame(s.apis, s.phases, s'.phases, s.indexed);
    BlocksAppend(s.apis, s'.phases, s.indexed, step.task);
  }

  lemma StepControl(s: State, step: Step)
    requires Control(s) && Enabled(s, step)
    ensures Control(Apply(s, step))
  {
    hide Block;
    if step.WaitReturns? {
      assert forall i :: 0 <= i < |s.phases| ==> (i in Pending(s.phases) <==> !Finished(s.phases[i]));
    }
  }

  /** Every step of every task keeps the invariant. */
  lemma StepKeepsInvariant(s: State, maxConcurrency: nat, step: Step)
    requires Inv(s, maxConcurrency) && Enabled(s, step)
    ensures Inv(Apply(s, step), maxConcurrency)
  {
    hide CountsAreRight, EntriesAreWhole, Control, Enabled, Apply;
    StepCounts(s, maxConcurrency, step);
    StepEntries(s, step);
    StepControl(s, step);
  }

  // ----- every interleaving -----

  ghost predicate IsRun(run: seq<State>, apis: seq<string>, maxConcurrency: nat)
  {
    && run != [] && run[0] == Start(apis, maxConcurrency)
    && forall k :: 0 < k < |run| ==> Next(run[k - 1], run[k])
  }

  ghost predicate Next(s: State, s': State)
  {
    exists step :: Enabled(s, step) && s' == Apply(s, step)
  }

  lemma {:induction false} EveryStateIsGood(run: seq<State>, apis: seq<string>, maxConcurrency: nat, k: nat)
    requires IsRun(run, apis, maxConcurrency) && k < |run|
    ensures Inv(run[k], maxConcurrency) && run[k].apis == apis
  {
    hide Inv, Enabled, Apply;
    if k == 0 {
      StartIsGood(apis, maxConcurrency);
    } else {
      EveryStateIsGood(run, apis, maxConcurrency, k - 1);
      assert Next(run[k - 1], run[k]);
      var step :| Enabled(run[k - 1], step) && run[k] == Apply(run[k - 1], step);
      StepKeepsInvariant(run[k - 1], maxConcurrency, step);
      assert run[k].apis == run[k - 1].apis by { ApisStay(run[k - 1], step); }
    }
  }

  lemma ApisStay(s: State, step: Step)
    requires Enabled(s, step)
    ensures Apply(s, step).apis == s.apis
  {
  }

  /** At no point of any interleaving are more than max_concurrency APIs inside the semaphore. */
  lemma ConcurrencyIsBounded(run: seq<State>, apis: seq<string>, maxConcurrency: nat, k: nat)
    requires IsRun(run, apis, maxConcurrency) && k < |run|
    ensures Count(run[k].phases, Inside) <= maxConcurrency
  {
    EveryStateIsGood(run, apis, maxConcurrency, k);
  }

  /**
   At the deadline exactly the APIs that have not finished are cancelled, and the build is partial
   exactly when there are any; until then nothing is cancelled.
   */
  lemma DeadlineCancelsUnfinished(run: seq<State>, apis: seq<string>, maxConcurrency: nat, k: nat)
    requires IsRun(run, apis, maxConcurrency) && k < |run| && Enabled(run[k], WaitReturns)
    ensures var s, s' := run[k], Apply(run[k], WaitReturns);
            && s.cancelRequested == {}
            && (forall i :: i in s'.cancelRequested <==>
                  0 <= i < |s.phases| && !s.phases[i].Done? && !s.phases[i].Cancelled?)
            && (s'.main == Returned(false) <==> forall i :: 0 <= i < |s.phases| ==> s.phases[i].Done?)
            && s' == s.(main := s'.main, cancelRequested := s'.cancelRequested)
  {
    hide Lists, Blocks, Count;
    EveryStateIsGood(run, apis, maxConcurrency, k);
    var s := run[k];
    assert forall i: nat :: i in Pending(s.phases) <==> i < |s.phases| && !Finished(s.phases[i]);
  }

  /** A waiting API can enter exactly when fewer than max_concurrency are inside. */
  lemma EntersExactlyWhenFree(run: seq<State>, apis: seq<string>, maxConcurrency: nat, k: nat, i: nat)
    requires IsRun(run, apis, maxConcurrency) && k < |run|
    ensures Enabled(run[k], Acquire(i))
       <==> i < |run[k].phases| && run[k].phases[i].Waiting? && Count(run[k].phases, Inside) < maxConcurrency
  {
    hide Count, Lists, Blocks;
    EveryStateIsGood(run, apis, maxConcurrency, k);
  }

  /**
   What a returned build holds, in every interleaving: the entries are whole blocks, one for
   each API that was indexed and none for the others; the failure count is the number of APIs
   whose listing or export failed; and a build that is not partial lost no API.
   */
  lemma ReturnedBuildIsConsistent(run: seq<State>, apis: seq<string>, maxConcurrency: nat)
    requires IsRun(run, apis, maxConcurrency) && run[|run| - 1].main.Returned?
    ensures var s := run[|run| - 1];
              && |s.phases| == |apis|
              && Lists(s.indexed, s.phases)
              && s.entries == Blocks(apis, s.phases, s.indexed)
              && s.specFailures == Count(s.phases, Failed) <= |apis|
              && (forall i :: 0 <= i < |apis| ==> Finished(s.phases[i]))
              && (!s.main.partial ==> forall i :: 0 <= i < |apis| ==> s.phases[i].Done?)
              && (s.main.partial <==> s.cancelRequested != {})
  {
    hide Blocks, Lists;
    EveryStateIsGood(run, apis, maxConcurrency, |run| - 1);
    CountIsBounded(run[|run| - 1].phases, Failed);
  }

  lemma {:induction false} CountIsBounded(phases: seq<Phase>, counts: Phase -> bool)
    ensures Count(phases, counts) <= |phases|
  {
    if phases == [] {
    } else {
      CountIsBounded(phases[..|phases| - 1], counts);
    }
  }

  /** No task can touch the shared lists after the build has returned. */
  lemma NothingRunsAfterReturn(run: seq<State>, apis: seq<string>, maxConcurrency: nat, step: Step)
    requires IsRun(run, apis, maxConcurrency) && run[|run| - 1].main.Returned?
    ensures !Enabled(run[|run| - 1], step)
  {
    hide Lists, Blocks, Count;
    EveryStateIsGood(run, apis, maxConcurrency, |run| - 1);
  }

  // ----- every build returns -----

  function Remaining(p: Phase): nat
  {
    match p
    case Waiting => 3
    case Listing => 2
    case Exporting(_) => 1
    case _ => 0
  }

  function TotalRemaining(phases: seq<Phase>): nat
  {
    if phases == [] then 0
    else TotalRemaining(phases[..|phases| - 1]) + Remaining(phases[|phases| - 1])
  }

  function StepsLeft(s: State): nat
  {
    TotalRemaining(s.phases) + match s.main case Watching => 2 case Draining => 1 case Returned(_) => 0
  }

  lemma {:induction false} RemainingUpdate(phases: seq<Phase>, i: nat, p: Phase)
    requires i < |phases|
    ensures TotalRemaining(phases[i := p]) + Remaining(phases[i]) == TotalRemaining(phases) + Remaining(p)
    decreases |phases|
  {
    hide Remaining;
    var n := |phases| - 1;
    if i < n {
      RemainingUpdate(phases[..n], i, p);
      assert phases[i := p][..n] == phases[..n][i := p];
    } else {
      assert phases[i := p][..n] == phases[..n];
    }
  }

  lemma StepProgress(s: State, step: Step)
    requires Enabled(s, step)
    ensures StepsLeft(Apply(s, step)) < StepsLeft(s)
  {
    hide TotalRemaining, Block, Pending;
    if !step.WaitReturns? && !step.GatherReturns? {
      RemainingUpdate(s.phases, step.task, Apply(s, step).phases[step.task]);
    }
  }

  lemma {:induction false} TotalRemainingOfStart(n: nat)
    ensures TotalRemaining(seq(n, _ => Waiting)) == 3 * n
  {
    if n == 0 {
    } else {
      TotalRemainingOfStart(n - 1);
      assert seq(n, _ => Waiting)[..n - 1] == seq(n - 1, _ => Waiting);
    }
  }

  /** No interleaving takes more than three steps per API and two of its own. */
  lemma {:induction false} RunsAreShort(run: seq<State>, apis: seq<string>, maxConcurrency: nat)
    requires IsRun(run, apis, maxConcurrency)
    ensures |run| - 1 + StepsLeft(run[|run| - 1]) <= 3 * |apis| + 2
  {
    hide StepsLeft, Enabled, Apply;
    if |run| == 1 {
      TotalRemainingOfStart(|apis|);
      assert StepsLeft(Start(apis, maxConcurrency)) == 3 * |apis| + 2 by { StepsLeftOfStart(apis, maxConcurrency); }
    } else {
      var k := |run| - 1;
      RunsAreShort(run[..k], apis, maxConcurrency);
      assert Next(run[k - 1], run[k]);
      var step :| Enabled(run[k - 1], step) && run[k] == Apply(run[k - 1], step);
      StepProgress(run[k - 1], step);
    }
  }

  lemma StepsLeftOfStart(apis: seq<string>, maxConcurrency: nat)
    ensures StepsLeft(Start(apis, maxConcurrency)) == 3 * |apis| + 2
  {
    TotalRemainingOfStart(|apis|);
    assert Start(apis, maxConcurrency).phases == seq(|apis|, _ => Waiting);
  }

  /** A build that has not returned can always take a step: with the deadline it cannot hang. */
  lemma NoDeadlock(run: seq<State>, apis: seq<string>, maxConcurrency: nat) returns (step: Step)
    requires IsRun(run, apis, maxConcurrency) && !run[|run| - 1].main.Returned?
    ensures Enabled(run[|run| - 1], step)
  {
    hide Lists, Blocks, Count;
    var s := run[|run| - 1];
    EveryStateIsGood(run, apis, maxConcurrency, |run| - 1);
    if s.main.Watching? {
      step := WaitReturns;
    } else if i :| i in s.cancelRequested && i < |s.phases| && !Finished(s.phases[i]) {
      step := CancelTask(i);
    } else {
      step := GatherReturns;
    }
  }

  // ----- the program's own shared state -----

  /** The semaphore, lists and counters the tasks of one build share. */
  class Build {
    const apis: seq<string>
    var available: nat
    var phases: seq<Phase>
    var entries: seq<Entry>
    var specFailureCount: nat
    var cancelRequested: set<nat>
    var main: Main
    ghost var indexed: seq<nat>

    ghost function Abs(): State
      reads this
    {
      State(apis, available, phases, entries, specFailureCount, cancelRequested, main, indexed)
    }

    constructor (apis: seq<string>, maxConcurrency: nat)
      ensures Abs() == Start(apis, maxConcurrency)
    {
      this.apis := apis;
      available := maxConcurrency;
      phases := seq(|apis|, _ => Waiting);
      entries, specFailureCount, cancelRequested, main := [], 0, {}, Watching;
      indexed := [];
    }

    /** Entering `async with semaphore`. */
    method AcquireSlot(i: nat)
      requires Enabled(Abs(), Acquire(i))
      modifies this
      ensures Abs() == Apply(old(Abs()), Acquire(i))
    {
      available := available - 1;
      phases := phases[i := Listing];
    }

    /** After the operations list has been awaited; None is an error. */
    method AfterOperations(i: nat, operations: Option<seq<string>>)
      requires Enabled(Abs(), OperationsListed(i, operations))
      modifies this
      ensures Abs() == Apply(old(Abs()), OperationsListed(i, operations))
    {
      if operations.None? {
        specFailureCount := specFailureCount + 1;
        phases := phases[i := Done(ListingFailed)];
        available := available + 1;
        return;
      }
      phases := phases[i := Exporting(operations.value)];
    }

    /** After the export has been awaited: the append loop runs without another await. */
    method AfterExport(i: nat, spec: Option<Spec>)
      requires Enabled(Abs(), SpecExported(i, spec))
      modifies this
      ensures Abs() == Apply(old(Abs()), SpecExported(i, spec))
    {
      var operations := phases[i].operations;
      if spec.None? {
        specFailureCount := specFailureCount + 1;
      }
      for k := 0 to |operations|
        invariant entries == old(entries) + Block(apis[i], operations[..k], spec)
        invariant Abs() == old(Abs()).(entries := entries, specFailures := specFailureCount)
        invariant specFailureCount == old(specFailureCount) + if spec.None? then 1 else 0
      {
        assert operations[..k + 1][..k] == operations[..k];
        entries := entries + [Entry(apis[i], operations[k], NamesFor(spec, operations[k]), spec.Some?)];
      }
      assert operations[..|operations|] == operations;
      phases := phases[i := Done(Indexed(operations, spec))];
      available := available + 1;
      indexed := indexed + [i];
    }

    /** Cancellation raised at whatever await the task is suspended on. */
    method Cancel(i: nat)
      requires Enabled(Abs(), CancelTask(i))
      modifies this
      ensures Abs() == Apply(old(Abs()), CancelTask(i))
    {
      if Inside(phases[i]) {
        available := available + 1;
      }
      phases := phases[i := Cancelled];
    }

    /** `asyncio.wait` returned, all done or at the deadline. */
    method AfterWait()
      requires Enabled(Abs(), WaitReturns)
      modifies this
      ensures Abs() == Apply(old(Abs()), WaitReturns)
    {
      var pending := Pending(phases);
      if pending == {} {
        main := Returned(false);
      } else {
        cancelRequested := pending;
        main := Draining;
      }
    }

    /** `asyncio.gather` returned. */
    method AfterGather()
      requires Enabled(Abs(), GatherReturns)
      modifies this
      ensures Abs() == Apply(old(Abs()), GatherReturns)
    {
      main := Returned(true);
    }
  }
}

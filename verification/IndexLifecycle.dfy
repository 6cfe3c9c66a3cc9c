/**
 The build and refresh lifecycle of `IndexManager` in src/apim_mcp/index/search.py.  Builds
 from startup, TTL expiry and forced refreshes race; a step is what runs between two awaits.
 Aliases are compared as the raw strings the manager keys on.
 */
module IndexLifecycle {
  import opened Options
  import Tokenizer

  const REFRESH_RATE_LIMIT := 60.0

  datatype Entry = Entry(operationId: string, searchText: string)

  /** One service's installed index; `corpus` is None exactly when there is nothing to index. */
  datatype ServiceIndex = ServiceIndex(
    entries: seq<Entry>,
    corpus: Option<seq<seq<string>>>,
    builtAt: real)

  /** What a build returned: an error or exception, or the entries. */
  datatype BuildResult = Failed | Built(entries: seq<Entry>)

  datatype Settings = Settings(aliases: seq<string>, ttl: real)

  /** The fields of the manager; `locked` are the aliases whose lock is held. */
  datatype Manager = Manager(
    indexes: map<string, ServiceIndex>,
    locked: set<string>,
    lastRefreshAt: map<string, real>)

  function ServiceAliases(settings: Settings, service: Option<string>): seq<string>
  {
    match service case Some(alias) => [alias] case None => settings.aliases
  }

  predicate IsStale(settings: Settings, m: Manager, alias: string, now: real)
  {
    alias in m.indexes ==> now - m.indexes[alias].builtAt >= settings.ttl
  }

  function StaleAliases(settings: Settings, m: Manager, aliases: seq<string>, now: real): seq<string>
  {
    if aliases == [] then []
    else
      var last := aliases[|aliases| - 1];
      StaleAliases(settings, m, aliases[..|aliases| - 1], now) + if IsStale(settings, m, last, now) then [last] else []
  }

  /** The refresh of `alias` came within 60 seconds of the last accepted one. */
  predicate TooSoon(m: Manager, alias: string, now: real)
  {
    alias in m.lastRefreshAt && now - m.lastRefreshAt[alias] < REFRESH_RATE_LIMIT
  }

  predicate Refused(m: Manager, aliases: seq<string>, now: real)
  {
    exists i :: 0 <= i < |aliases| && TooSoon(m, aliases[i], now)
  }

  function Stamp(last: map<string, real>, aliases: seq<string>, now: real): (r: map<string, real>)
    ensures r.Keys == last.Keys + (set alias | alias in aliases)
    ensures forall alias :: alias in r ==> r[alias] == if alias in aliases then now else last[alias]
  {
    if aliases == [] then last
    else
      assert aliases == aliases[..|aliases| - 1] + [aliases[|aliases| - 1]];
      Stamp(last, aliases[..|aliases| - 1], now)[aliases[|aliases| - 1] := now]
  }

  function Corpus(entries: seq<Entry>): (c: seq<seq<string>>)
    ensures |c| == |entries|
    ensures forall i :: 0 <= i < |entries| ==> c[i] == Tokenizer.Tokens(entries[i].searchText)
  {
    seq(|entries|, i requires 0 <= i < |entries| => Tokenizer.Tokens(entries[i].searchText))
  }

  function NewIndex(entries: seq<Entry>, builtAt: real): ServiceIndex
  {
    ServiceIndex(entries, if entries == [] then None else Some(Corpus(entries)), builtAt)
  }

  // ----- the whole system -----

  datatype Running = Running(alias: string, startedAt: real)

  /** The manager with the clock, the tasks that were created but have not run, and the builds in flight. */
  datatype State = State(
    now: real,
    m: Manager,
    created: seq<string>,
    running: seq<Running>,
    origins: map<string, real>)  // history: when the build of each installed index started

  datatype Step =
    | Tick(elapsed: real)
    | BuildAll
    | Search(service: Option<string>)
    | Refresh(service: Option<string>)
    | StartTask(task: nat)
    | FinishBuild(build: nat, result: BuildResult)

  const START := State(0.0, Manager(map[], {}, map[]), [], [], map[])

  predicate Enabled(s: State, step: Step)
  {
    match step
    case Tick(elapsed) => elapsed >= 0.0
    case StartTask(k) => k < |s.created|
    case FinishBuild(k, _) => k < |s.running|
    case _ => true
  }

  function Without<T>(s: seq<T>, k: nat): seq<T>
    requires k < |s|
  {
    s[..k] + s[k + 1..]
  }

  predicate Accepts(settings: Settings, s: State, step: Step)
  {
    step.Refresh? && !Refused(s.m, ServiceAliases(settings, step.service), s.now)
  }

  /** Taking the lock of an alias; None when a build already holds it. */
  function Begin(m: Manager, alias: string): Option<Manager>
  {
    if alias in m.locked then None else Some(m.(locked := m.locked + {alias}))
  }

  function Install(m: Manager, alias: string, result: BuildResult, builtAt: real): Manager
  {
    match result
    case Failed => m.(locked := m.locked - {alias})
    case Built(entries) =>
      m.(locked := m.locked - {alias}, indexes := m.indexes[alias := NewIndex(entries, builtAt)])
  }

  /** What `refresh` does before its builds run; None when it is refused. */
  function Stamped(m: Manager, aliases: seq<string>, now: real): Option<Manager>
  {
    if Refused(m, aliases, now) then None
    else Some(m.(lastRefreshAt := Stamp(m.lastRefreshAt, aliases, now)))
  }

  function Apply(settings: Settings, s: State, step: Step): State
    requires Enabled(s, step)
  {
    match step
    case Tick(elapsed) => s.(now := s.now + elapsed)
    case BuildAll => s.(created := s.created + settings.aliases)
    case Search(service) =>
      s.(created := s.created + StaleAliases(settings, s.m, ServiceAliases(settings, service), s.now))
    case Refresh(service) =>
      var aliases := ServiceAliases(settings, service);
      (match Stamped(s.m, aliases, s.now)
       case None => s
       case Some(m') => s.(m := m', created := s.created + aliases))
    case StartTask(k) =>
      var alias := s.created[k];
      var waiting := s.(created := Without(s.created, k));
      (match Begin(s.m, alias)
       case None => waiting
       case Some(m') => waiting.(m := m', running := s.running + [Running(alias, s.now)]))
    case FinishBuild(k, result) =>
      var build := s.running[k];
      s.(running := Without(s.running, k),
         m := Install(s.m, build.alias, result, s.now),
         origins := if result.Built? then s.origins[build.alias := build.startedAt] else s.origins)
  }

  // ----- the invariant -----

  /** Every held lock belongs to exactly one build in flight. */
  ghost predicate OneBuildPerAlias(s: State)
  {
    && (forall k :: 0 <= k < |s.running| ==> s.running[k].alias in s.m.locked)
    && (forall alias :: alias in s.m.locked ==> exists k :: 0 <= k < |s.running| && s.running[k].alias == alias)
    && (forall j, k :: 0 <= j < k < |s.running| ==> s.running[j].alias != s.running[k].alias)
  }

  /** The corpus has one document per entry, so zipping scores with entries cannot fail. */
  ghost predicate CorpusMatches(index: ServiceIndex)
  {
    && (index.corpus.None? <==> index.entries == [])
    && (index.corpus.Some? ==> index.corpus.value == Corpus(index.entries))
  }

  /** No time lies in the future, and a build in flight started after the installed index was built. */
  ghost predicate TimesAreOrdered(s: State)
  {
    && (forall alias :: alias in s.m.lastRefreshAt ==> s.m.lastRefreshAt[alias] <= s.now)
    && s.origins.Keys == s.m.indexes.Keys
    && (forall alias :: alias in s.m.indexes ==> s.origins[alias] <= s.m.indexes[alias].builtAt <= s.now)
    && (forall k :: 0 <= k < |s.running| ==> s.running[k].startedAt <= s.now)
    && (forall k :: 0 <= k < |s.running| && s.running[k].alias in s.m.indexes
          ==> s.m.indexes[s.running[k].alias].builtAt <= s.running[k].startedAt)
  }

  ghost predicate Inv(s: State)
  {
    && OneBuildPerAlias(s)
    && (forall alias :: alias in s.m.indexes ==> CorpusMatches(s.m.indexes[alias]))
    && TimesAreOrdered(s)
  }

  lemma WithoutAt<T>(s: seq<T>, k: nat)
    requires k < |s|
    ensures |Without(s, k)| == |s| - 1
    ensures forall i :: 0 <= i < |s| - 1 ==> Without(s, k)[i] == if i < k then s[i] else s[i + 1]
  {
  }

  lemma StartLocks(s: State, s': State, alias: string)
    requires OneBuildPerAlias(s) && alias !in s.m.locked
    requires s'.m.locked == s.m.locked + {alias} && s'.running == s.running + [Running(alias, s.now)]
    ensures OneBuildPerAlias(s')
  {
    forall other | other in s'.m.locked
      ensures exists j :: 0 <= j < |s'.running| && s'.running[j].alias == other
    {
      if other in s.m.locked {
        var j :| 0 <= j < |s.running| && s.running[j].alias == other;
        assert s'.running[j].alias == other;
      } else {
        assert s'.running[|s.running|].alias == other;
      }
    }
  }

  lemma FinishLocks(s: State, s': State, k: nat)
    requires OneBuildPerAlias(s) && k < |s.running|
    requires s'.m.locked == s.m.locked - {s.running[k].alias}
    requires |s'.running| == |s.running| - 1
    requires forall i :: 0 <= i < |s'.running| ==> s'.running[i] == s.running[if i < k then i else i + 1]
    ensures OneBuildPerAlias(s')
  {
    forall alias | alias in s'.m.locked
      ensures exists j :: 0 <= j < |s'.running| && s'.running[j].alias == alias
    {
      var j :| 0 <= j < |s.running| && s.running[j].alias == alias;
      assert s'.running[if j < k then j else j - 1] == s.running[j];
    }
  }

  lemma StepLocks(settings: Settings, s: State, step: Step)
    requires OneBuildPerAlias(s) && Enabled(s, step)
    ensures OneBuildPerAlias(Apply(settings, s, step))
  {
    var s' := Apply(settings, s, step);
    match step
    case StartTask(k) =>
      hide OneBuildPerAlias, Without;
      if s.created[k] !in s.m.locked {
        StartLocks(s, s', s.created[k]);
      } else {
        SameLocks(s, s');
      }
    case FinishBuild(k, _) =>
      hide OneBuildPerAlias, NewIndex;
      WithoutAt(s.running, k);
      FinishLocks(s, s', k);
    case _ =>
      hide OneBuildPerAlias, Stamp, StaleAliases, Refused;
      SameLocks(s, s');
  }

  lemma SameLocks(s: State, s': State)
    requires OneBuildPerAlias(s) && s'.m.locked == s.m.locked && s'.running == s.running
    ensures OneBuildPerAlias(s')
  {
  }

  lemma FinishTimes(s: State, s': State, k: nat, result: BuildResult)
    requires OneBuildPerAlias(s) && TimesAreOrdered(s) && k < |s.running|
    requires s' == s.(running := Without(s.running, k),
                      m := Install(s.m, s.running[k].alias, result, s.now),
                      origins := if result.Failed? then s.origins
                                 else s.origins[s.running[k].alias := s.running[k].startedAt])
    ensures TimesAreOrdered(s')
  {
    hide Corpus;
    WithoutAt(s.running, k);
  }

  lemma StepTimes(settings: Settings, s: State, step: Step)
    requires OneBuildPerAlias(s) && TimesAreOrdered(s) && Enabled(s, step)
    ensures TimesAreOrdered(Apply(settings, s, step))
  {
    hide StaleAliases, Corpus, Refused, Without;
    match step
    case FinishBuild(k, result) =>
      hide OneBuildPerAlias, TimesAreOrdered, Install;
      FinishTimes(s, Apply(settings, s, step), k, result);
    case _ =>
      hide OneBuildPerAlias;
  }

  lemma StepKeepsInvariant(settings: Settings, s: State, step: Step)
    requires Inv(s) && Enabled(s, step)
    ensures Inv(Apply(settings, s, step))
  {
    StepLocks(settings, s, step);
    StepTimes(settings, s, step);
    hide OneBuildPerAlias, TimesAreOrdered, Stamp, StaleAliases, Corpus, Refused;
  }

  // ----- every interleaving -----

  ghost predicate IsRun(settings: Settings, run: seq<State>, steps: seq<Step>)
  {
    && |run| == |steps| + 1 && run[0] == START
    && forall k :: 0 <= k < |steps| ==> Enabled(run[k], steps[k]) && run[k + 1] == Apply(settings, run[k], steps[k])
  }

  lemma {:induction false} EveryStateIsGood(settings: Settings, run: seq<State>, steps: seq<Step>, k: nat)
    requires IsRun(settings, run, steps) && k < |run|
    ensures Inv(run[k])
  {
    hide Enabled, Apply;
    if k == 0 {
    } else {
      EveryStateIsGood(settings, run, steps, k - 1);
      hide Inv;
      StepKeepsInvariant(settings, run[k - 1], steps[k - 1]);
      assert run[k] == Apply(settings, run[k - 1], steps[k - 1]);
    }
  }

  /** At any time at most one build of an alias is in flight, however it was started. */
  lemma AtMostOneBuildInFlight(settings: Settings, run: seq<State>, steps: seq<Step>, k: nat, i: nat, j: nat)
    requires IsRun(settings, run, steps) && k < |run|
    requires i < |run[k].running| && j < |run[k].running| && run[k].running[i].alias == run[k].running[j].alias
    ensures i == j
  {
    EveryStateIsGood(settings, run, steps, k);
  }

  lemma IndexStep(settings: Settings, s: State, step: Step, alias: string)
    requires TimesAreOrdered(s) && Enabled(s, step) && alias in s.m.indexes
    ensures var s' := Apply(settings, s, step);
              && alias in s'.m.indexes && alias in s'.origins
              && ((s'.m.indexes[alias] == s.m.indexes[alias] && s'.origins[alias] == s.origins[alias])
                  || s.m.indexes[alias].builtAt <= s'.origins[alias])
  {
    hide Stamp, StaleAliases, Corpus, Refused, Without;
  }

  /** An installed index stays installed, and is only ever replaced by one whose build started after it was built. */
  lemma {:induction false} IndexesOnlyGetNewer(settings: Settings, run: seq<State>, steps: seq<Step>,
                                               i: nat, j: nat, alias: string)
    requires IsRun(settings, run, steps) && i <= j < |run| && alias in run[i].m.indexes
    ensures alias in run[j].m.indexes && alias in run[j].origins
    ensures run[j].m.indexes[alias] == run[i].m.indexes[alias]
         || run[i].m.indexes[alias].builtAt <= run[j].origins[alias]
    decreases j
  {
    hide Apply, Enabled, OneBuildPerAlias, CorpusMatches;
    EveryStateIsGood(settings, run, steps, i);
    if i == j {
    } else {
      IndexesOnlyGetNewer(settings, run, steps, i, j - 1, alias);
      EveryStateIsGood(settings, run, steps, j - 1);
      IndexStep(settings, run[j - 1], steps[j - 1], alias);
      assert run[j] == Apply(settings, run[j - 1], steps[j - 1]);
    }
  }

  /** The step is a build of `alias` that succeeds. */
  predicate Installs(s: State, step: Step, alias: string)
    requires Enabled(s, step)
  {
    step.FinishBuild? && step.result.Built? && s.running[step.build].alias == alias
  }

  /** The step is an accepted refresh that covers `alias`. */
  predicate Stamps(settings: Settings, s: State, step: Step, alias: string)
  {
    Accepts(settings, s, step) && alias in ServiceAliases(settings, step.service)
  }

  function Lookup<V>(m: map<string, V>, alias: string): Option<V>
  {
    if alias in m then Some(m[alias]) else None
  }

  lemma WhatAStepChanges(settings: Settings, s: State, step: Step, alias: string)
    requires Enabled(s, step)
    ensures var s' := Apply(settings, s, step);
            && Lookup(s'.m.indexes, alias)
                 == (if Installs(s, step, alias) then Some(NewIndex(step.result.entries, s.now))
                     else Lookup(s.m.indexes, alias))
            && Lookup(s'.m.lastRefreshAt, alias)
                 == (if Stamps(settings, s, step, alias) then Some(s.now) else Lookup(s.m.lastRefreshAt, alias))
            && (step.Refresh? && !Accepts(settings, s, step) ==> s' == s)
  {
    hide StaleAliases, Corpus, Refused, Without, NewIndex;
  }

  /**
   Between any two moments of a run, the index of an alias changes only by a build of that alias
   that succeeds, which it then shows, and its stamp only by an accepted refresh that covers it:
   failed builds, refused refreshes, searches and builds of other aliases change neither.
   */
  lemma {:induction false} FailuresChangeNothing(settings: Settings, run: seq<State>, steps: seq<Step>,
                                                 i: nat, j: nat, alias: string)
    requires IsRun(settings, run, steps) && i <= j < |run|
    ensures Lookup(run[j].m.indexes, alias) == Lookup(run[i].m.indexes, alias)
         || exists k :: i <= k < j && Installs(run[k], steps[k], alias)
              && Lookup(run[j].m.indexes, alias) == Some(NewIndex(steps[k].result.entries, run[k].now))
    ensures Lookup(run[j].m.lastRefreshAt, alias) == Lookup(run[i].m.lastRefreshAt, alias)
         || exists k :: i <= k < j && Stamps(settings, run[k], steps[k], alias)
              && Lookup(run[j].m.lastRefreshAt, alias) == Some(run[k].now)
    ensures forall k :: i <= k < j && steps[k].Refresh? && !Accepts(settings, run[k], steps[k]) ==> run[k + 1] == run[k]
    decreases j
  {
    hide Apply, Stamps, Accepts, Lookup, Enabled, NewIndex;
    if i == j {
    } else {
      FailuresChangeNothing(settings, run, steps, i, j - 1, alias);
      WhatAStepChanges(settings, run[j - 1], steps[j - 1], alias);
      assert run[j] == Apply(settings, run[j - 1], steps[j - 1]);
    }
  }

  lemma {:induction false} StampsOnlyGrow(settings: Settings, run: seq<State>, steps: seq<Step>,
                                          i: nat, j: nat, alias: string)
    requires IsRun(settings, run, steps) && i <= j < |run| && alias in run[i].m.lastRefreshAt
    ensures alias in run[j].m.lastRefreshAt && run[i].m.lastRefreshAt[alias] <= run[j].m.lastRefreshAt[alias]
    decreases j
  {
    hide Apply, Enabled, OneBuildPerAlias, CorpusMatches;
    if i == j {
    } else {
      StampsOnlyGrow(settings, run, steps, i, j - 1, alias);
      EveryStateIsGood(settings, run, steps, j - 1);
      StampStep(settings, run[j - 1], steps[j - 1], alias);
      assert run[j] == Apply(settings, run[j - 1], steps[j - 1]);
    }
  }

  lemma StampStep(settings: Settings, s: State, step: Step, alias: string)
    requires TimesAreOrdered(s) && Enabled(s, step) && alias in s.m.lastRefreshAt
    ensures var s' := Apply(settings, s, step);
              alias in s'.m.lastRefreshAt && s.m.lastRefreshAt[alias] <= s'.m.lastRefreshAt[alias]
  {
    hide StaleAliases, Corpus, Refused, Without;
  }

  /** Two accepted refreshes that cover the same alias are at least 60 seconds apart. */
  lemma RefreshesAreSpaced(settings: Settings, run: seq<State>, steps: seq<Step>, i: nat, j: nat, alias: string)
    requires IsRun(settings, run, steps) && i < j < |steps|
    requires Accepts(settings, run[i], steps[i]) && alias in ServiceAliases(settings, steps[i].service)
    requires Accepts(settings, run[j], steps[j]) && alias in ServiceAliases(settings, steps[j].service)
    ensures run[j].now - run[i].now >= REFRESH_RATE_LIMIT
  {
    hide StaleAliases, Corpus;
    assert run[i + 1] == Apply(settings, run[i], steps[i]);
    assert run[i + 1].m.lastRefreshAt[alias] == run[i].now;
    StampsOnlyGrow(settings, run, steps, i + 1, j, alias);
    var aliases := ServiceAliases(settings, steps[j].service);
    var k :| 0 <= k < |aliases| && aliases[k] == alias;
    assert !TooSoon(run[j].m, aliases[k], run[j].now);
  }

  /** Every search that finds an index finds one document per entry. */
  lemma ScoresZipWithEntries(settings: Settings, run: seq<State>, steps: seq<Step>, k: nat, alias: string)
    requires IsRun(settings, run, steps) && k < |run| && alias in run[k].m.indexes
    ensures var index := run[k].m.indexes[alias];
              index.entries == [] || (index.corpus.Some? && |index.corpus.value| == |index.entries|)
  {
    EveryStateIsGood(settings, run, steps, k);
    assert CorpusMatches(run[k].m.indexes[alias]);
  }

  // ----- which aliases a search rebuilds, and when a refresh is refused -----

  /** Not installed, or built at least the time to live ago. */
  predicate NeedsBuild(settings: Settings, m: Manager, alias: string, now: real)
  {
    alias !in m.indexes || now >= m.indexes[alias].builtAt + settings.ttl
  }

  /** `kept` lists, in order, exactly the positions of the aliases that need a build. */
  ghost predicate PicksStale(settings: Settings, m: Manager, now: real, all: seq<string>, kept: seq<nat>)
  {
    && (forall i :: 0 <= i < |kept| ==> kept[i] < |all| && NeedsBuild(settings, m, all[kept[i]], now))
    && (forall i, j :: 0 <= i < j < |kept| ==> kept[i] < kept[j])
    && (forall k :: 0 <= k < |all| && NeedsBuild(settings, m, all[k], now) ==> k in kept)
  }

  function Picked(all: seq<string>, kept: seq<nat>): (r: seq<string>)
    requires forall i :: 0 <= i < |kept| ==> kept[i] < |all|
    ensures |r| == |kept| && forall i :: 0 <= i < |kept| ==> r[i] == all[kept[i]]
  {
    seq(|kept|, i requires 0 <= i < |kept| => all[kept[i]])
  }

  lemma PickOneMore(settings: Settings, m: Manager, now: real, all: seq<string>, before: seq<nat>, kept: seq<nat>)
    requires all != [] && PicksStale(settings, m, now, all[..|all| - 1], before)
    requires kept == if NeedsBuild(settings, m, all[|all| - 1], now) then before + [|all| - 1] else before
    ensures PicksStale(settings, m, now, all, kept)
  {
    hide NeedsBuild;
    var front := all[..|all| - 1];
    assert forall i :: 0 <= i < |before| ==> front[before[i]] == all[before[i]];
    forall k | 0 <= k < |all| && NeedsBuild(settings, m, all[k], now)
      ensures k in kept
    {
      if k < |front| {
        assert front[k] == all[k] && k in before;
      } else {
        assert kept[|before|] == k;
      }
    }
  }

  /** The aliases that are stale, position by position. */
  lemma {:induction false} StaleAliasesAre(settings: Settings, m: Manager, all: seq<string>, now: real)
    returns (kept: seq<nat>)
    ensures PicksStale(settings, m, now, all, kept)
    ensures forall i :: 0 <= i < |kept| ==> kept[i] < |all|
    ensures StaleAliases(settings, m, all, now) == Picked(all, kept)
  {
    hide PicksStale, Picked;
    if all == [] {
      kept := [];
      NothingPicked(settings, m, now);
    } else {
      var n := |all| - 1;
      var before := StaleAliasesAre(settings, m, all[..n], now);
      kept := if NeedsBuild(settings, m, all[n], now) then before + [n] else before;
      PickOneMore(settings, m, now, all, before, kept);
      PicksInRange(settings, m, now, all[..n], before);
      PicksInRange(settings, m, now, all, kept);
      assert Picked(all, kept)[..|before|] == Picked(all[..n], before);
    }
  }

  lemma PicksInRange(settings: Settings, m: Manager, now: real, all: seq<string>, kept: seq<nat>)
    requires PicksStale(settings, m, now, all, kept)
    ensures forall i :: 0 <= i < |kept| ==> kept[i] < |all|
  {
  }

  lemma NothingPicked(settings: Settings, m: Manager, now: real)
    ensures PicksStale(settings, m, now, [], []) && Picked([], []) == []
  {
  }

  /** A search creates exactly the builds of the stale ones among its aliases, and changes nothing else. */
  lemma SearchBuildsStale(settings: Settings, s: State, service: Option<string>) returns (kept: seq<nat>)
    ensures var all := if service.Some? then [service.value] else settings.aliases;
            && PicksStale(settings, s.m, s.now, all, kept)
            && (forall i :: 0 <= i < |kept| ==> kept[i] < |all|)
            && Apply(settings, s, Search(service)) == s.(created := s.created + Picked(all, kept))
  {
    hide PicksStale, StaleAliases, Picked;
    kept := StaleAliasesAre(settings, s.m, ServiceAliases(settings, service), s.now);
  }

  /** The builds that steps other than searches and task starts create. */
  function CreatedBy(settings: Settings, step: Step, accepted: bool): seq<string>
  {
    if step.BuildAll? then settings.aliases
    else if !step.Refresh? || !accepted then []
    else if step.service.Some? then [step.service.value]
    else settings.aliases
  }

  /** Startup and accepted refreshes create one build per alias, a refused refresh and everything else none. */
  lemma OtherStepsCreate(settings: Settings, s: State, step: Step)
    requires Enabled(s, step) && !step.Search? && !step.StartTask?
    ensures Apply(settings, s, step).created
         == s.created + CreatedBy(settings, step, Accepts(settings, s, step))
  {
    hide Refused, Stamp, StaleAliases, Install;
  }

  /** A created task starts its build exactly when no build of its alias is in flight. */
  lemma BuildStartsExactlyWhenIdle(settings: Settings, run: seq<State>, steps: seq<Step>, n: nat)
    requires IsRun(settings, run, steps) && n < |steps| && steps[n].StartTask?
    ensures steps[n].task < |run[n].created|
    ensures var alias := run[n].created[steps[n].task];
            var idle := forall j :: 0 <= j < |run[n].running| ==> run[n].running[j].alias != alias;
            && run[n + 1].running == run[n].running + (if idle then [Running(alias, run[n].now)] else [])
            && run[n + 1].created == run[n].created[..steps[n].task] + run[n].created[steps[n].task + 1..]
  {
    EveryStateIsGood(settings, run, steps, n);
    hide TimesAreOrdered, CorpusMatches;
    assert run[n + 1] == Apply(settings, run[n], steps[n]);
    assert run[n].running + [] == run[n].running;
  }

  /** At step `i` an accepted refresh, of the alias itself or of all services, covered `alias`. */
  ghost predicate RefreshedAt(settings: Settings, run: seq<State>, steps: seq<Step>, i: nat, alias: string)
    requires i < |steps| && i < |run|
  {
    && Accepts(settings, run[i], steps[i])
    && (steps[i].service == Some(alias) || (steps[i].service.None? && alias in settings.aliases))
  }

  /** A refresh is refused if and only if an accepted one covered one of its aliases less than 60 seconds before. */
  lemma RefusedExactlyWhen(settings: Settings, run: seq<State>, steps: seq<Step>, j: nat)
    requires IsRun(settings, run, steps) && j < |steps| && steps[j].Refresh?
    ensures !Accepts(settings, run[j], steps[j]) <==>
              exists i: nat, alias ::
                && i < j && RefreshedAt(settings, run, steps, i, alias)
                && (steps[j].service == Some(alias) || (steps[j].service.None? && alias in settings.aliases))
                && run[j].now - run[i].now < 60.0
  {
    hide Apply, Enabled;
    var aliases := ServiceAliases(settings, steps[j].service);
    if !Accepts(settings, run[j], steps[j]) {
      var k :| 0 <= k < |aliases| && TooSoon(run[j].m, aliases[k], run[j].now);
      var alias := aliases[k];
      FailuresChangeNothing(settings, run, steps, 0, j, alias);
      var i :| 0 <= i < j && Stamps(settings, run[i], steps[i], alias)
            && Lookup(run[j].m.lastRefreshAt, alias) == Some(run[i].now);
      assert RefreshedAt(settings, run, steps, i, alias);
    } else {
      forall i: nat, alias | i < j && RefreshedAt(settings, run, steps, i, alias) && alias in aliases
        ensures run[j].now - run[i].now >= 60.0
      {
        RefreshesAreSpaced(settings, run, steps, i, j, alias);
      }
    }
  }

  // ----- the manager object -----

  class IndexManager {
    const settings: Settings
    var indexes: map<string, ServiceIndex>
    var locked: set<string>
    var lastRefreshAt: map<string, real>

    ghost function Abs(): Manager
      reads this
    {
      Manager(indexes, locked, lastRefreshAt)
    }

    constructor (settings: Settings)
      ensures Abs() == START.m && this.settings == settings
    {
      this.settings := settings;
      indexes, locked, lastRefreshAt := map[], {}, map[];
    }

    /** `_build_one` up to awaiting the build; false when another build holds the lock. */
    method BeginBuild(alias: string) returns (started: bool)
      modifies this`locked
      ensures started == Begin(old(Abs()), alias).Some?
      ensures Abs() == if started then Begin(old(Abs()), alias).value else old(Abs())
    {
      if alias in locked {
        return false;
      }
      locked := locked + {alias};
      started := true;
    }

    /** `_build_one` after the build was awaited. */
    method EndBuild(alias: string, result: BuildResult, now: real)
      requires alias in locked
      modifies this
      ensures Abs() == Install(old(Abs()), alias, result, now)
    {
      locked := locked - {alias};
      if result.Failed? {
        return;
      }
      var corpus := if result.entries == [] then None else Some(Corpus(result.entries));
      indexes := indexes[alias := ServiceIndex(result.entries, corpus, now)];
    }

    /** The part of `refresh` that runs before its builds are awaited. */
    method Refresh(service: Option<string>, now: real) returns (accepted: bool)
      modifies this`lastRefreshAt
      ensures var stamped := Stamped(old(Abs()), ServiceAliases(settings, service), now);
                accepted == stamped.Some? && Abs() == if accepted then stamped.value else old(Abs())
    {
      var aliases := ServiceAliases(settings, service);
      for i := 0 to |aliases|
        invariant forall j :: 0 <= j < i ==> !TooSoon(Abs(), aliases[j], now)
      {
        if aliases[i] in lastRefreshAt && now - lastRefreshAt[aliases[i]] < REFRESH_RATE_LIMIT {
          assert TooSoon(Abs(), aliases[i], now);
          return false;
        }
      }
      for i := 0 to |aliases|
        invariant lastRefreshAt == Stamp(old(lastRefreshAt), aliases[..i], now)
      {
        assert aliases[..i + 1][..i] == aliases[..i];
        lastRefreshAt := lastRefreshAt[aliases[i] := now];
      }
      assert aliases[..|aliases|] == aliases;
      accepted := true;
    }

    /** `_kick_off_background_refresh`: the builds it creates; none is awaited. */
    method KickOffBackgroundRefresh(service: Option<string>, now: real) returns (created: seq<string>)
      ensures created == StaleAliases(settings, Abs(), ServiceAliases(settings, service), now)
    {
      var aliases := ServiceAliases(settings, service);
      created := [];
      for i := 0 to |aliases|
        invariant created == StaleAliases(settings, Abs(), aliases[..i], now)
      {
        assert aliases[..i + 1][..i] == aliases[..i];
        if IsStale(settings, Manager(indexes, locked, lastRefreshAt), aliases[i], now) {
          created := created + [aliases[i]];
        }
      }
      assert aliases[..|aliases|] == aliases;
    }
  }
}

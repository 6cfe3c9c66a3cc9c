/**
 The fetch-once discovery document of src/apim_mcp/auth/middleware.py: a double-checked lock
 with any number of concurrent callers of `get_document`.
 */
module MetadataCache {
  import opened Options

  type Document = string

  /** Where one call of `get_document` stands. */
  datatype Phase =
    | Queued                          // saw no document, waiting for the lock
    | Fetching                        // holds the lock and awaits the response
    | Answered(answer: Option<Document>)
    | Gone                            // cancelled, or the fetch raised

  datatype State = State(
    document: Option<Document>,
    holder: Option<nat>,              // who holds the lock
    callers: seq<Phase>,
    fetched: seq<Option<Document>>)   // history: what each finished fetch brought

  datatype Step =
    | Call
    | EnterLock(caller: nat)
    | FetchReturns(caller: nat, response: Option<Document>)  // None: an HTTP error, or no document
    | Leave(caller: nat)

  const START := State(None, None, [], [])

  predicate Enabled(s: State, step: Step)
  {
    match step
    case Call => true
    case EnterLock(i) => i < |s.callers| && s.callers[i].Queued? && s.holder.None?
    case FetchReturns(i, _) => i < |s.callers| && s.callers[i].Fetching?
    case Leave(i) => i < |s.callers| && (s.callers[i].Queued? || s.callers[i].Fetching?)
  }

  function Apply(s: State, step: Step): State
    requires Enabled(s, step)
  {
    match step
    case Call =>
      s.(callers := s.callers + [if s.document.Some? then Answered(s.document) else Queued])
    case EnterLock(i) =>
      if s.document.Some? then s.(callers := s.callers[i := Answered(s.document)])
      else s.(holder := Some(i), callers := s.callers[i := Fetching])
    case FetchReturns(i, response) =>
      var document := if response.Some? then response else s.document;
      s.(document := document, holder := None, callers := s.callers[i := Answered(document)],
         fetched := s.fetched + [response])
    case Leave(i) =>
      s.(holder := if s.callers[i].Fetching? then None else s.holder, callers := s.callers[i := Gone])
  }

  /** The fetches that brought a document. */
  function Successes(fetched: seq<Option<Document>>): seq<Document>
  {
    if fetched == [] then []
    else
      Successes(fetched[..|fetched| - 1])
      + match fetched[|fetched| - 1] case Some(d) => [d] case None => []
  }

  ghost predicate Inv(s: State)
  {
    && (s.holder.Some? ==> s.holder.value < |s.callers|)
    && (forall i :: 0 <= i < |s.callers| ==> (s.callers[i].Fetching? <==> s.holder == Some(i)))
    && (s.holder.Some? ==> s.document.None?)
    && Successes(s.fetched) == (match s.document case Some(d) => [d] case None => [])
    && (forall i :: 0 <= i < |s.callers| && s.callers[i].Answered? && s.callers[i].answer.Some?
          ==> s.callers[i].answer == s.document)
  }

  lemma StepKeepsInvariant(s: State, step: Step)
    requires Inv(s) && Enabled(s, step)
    ensures Inv(Apply(s, step))
    ensures s.document.Some? ==> Apply(s, step).document == s.document
    ensures s.document.Some? ==> Apply(s, step).fetched == s.fetched
  {
    if step.FetchReturns? {
      assert Apply(s, step).fetched[..|s.fetched|] == s.fetched;
    }
  }

  ghost predicate IsRun(run: seq<State>)
  {
    && run != [] && run[0] == START
    && forall k :: 0 < k < |run| ==> Next(run[k - 1], run[k])
  }

  ghost predicate Next(s: State, s': State)
  {
    exists step :: Enabled(s, step) && s' == Apply(s, step)
  }

  lemma {:induction false} EveryStateIsGood(run: seq<State>, i: nat, k: nat)
    requires IsRun(run) && i <= k < |run|
    ensures Inv(run[k])
    ensures run[i].document.Some? ==> run[k].document == run[i].document && run[k].fetched == run[i].fetched
    decreases k
  {
    hide Enabled, Apply, Inv;
    if k == 0 {
      assert Inv(START) by { StartIsGood(); }
    } else {
      EveryStateIsGood(run, if i < k then i else k - 1, k - 1);
      assert Next(run[k - 1], run[k]);
      var step :| Enabled(run[k - 1], step) && run[k] == Apply(run[k - 1], step);
      StepKeepsInvariant(run[k - 1], step);
    }
  }

  lemma StartIsGood()
    ensures Inv(START)
  {
  }

  /** In every interleaving at most one fetch is in flight, and none once a document is cached. */
  lemma SingleFlight(run: seq<State>, k: nat, i: nat, j: nat)
    requires IsRun(run) && k < |run| && i < |run[k].callers| && j < |run[k].callers|
    requires run[k].callers[i].Fetching?
    ensures run[k].callers[j].Fetching? ==> i == j
    ensures run[k].document.None?
  {
    EveryStateIsGood(run, k, k);
  }

  /** Over a whole run at most one fetch succeeds, and no fetch finishes after it. */
  lemma AtMostOneSuccess(run: seq<State>, i: nat, k: nat)
    requires IsRun(run) && i <= k < |run|
    ensures |Successes(run[k].fetched)| <= 1
    ensures Successes(run[i].fetched) != [] ==> run[k].fetched == run[i].fetched
  {
    EveryStateIsGood(run, i, i);
    EveryStateIsGood(run, i, k);
  }

  /** All non-null answers, whenever they were given, are the one document that was fetched. */
  lemma AnswersAgree(run: seq<State>, i: nat, k: nat, a: nat, b: nat)
    requires IsRun(run) && i <= k < |run| && a < |run[i].callers| && b < |run[k].callers|
    requires run[i].callers[a].Answered? && run[i].callers[a].answer.Some?
    requires run[k].callers[b].Answered? && run[k].callers[b].answer.Some?
    ensures run[i].callers[a].answer == run[k].callers[b].answer
    ensures Successes(run[k].fetched) == [run[k].callers[b].answer.value]
  {
    EveryStateIsGood(run, i, i);
    EveryStateIsGood(run, i, k);
  }

  /**
   What one step answers: a call gets the cached document at once, and queues only without one; a
   caller that enters the lock fetches only when there is still no document, and otherwise gets it;
   and null is the answer of a caller whose own fetch failed, and of no other.
   */
  lemma StepAnswers(run: seq<State>, k: nat, step: Step)
    requires IsRun(run) && k + 1 < |run| && Enabled(run[k], step) && run[k + 1] == Apply(run[k], step)
    ensures var s, s' := run[k], run[k + 1];
            && (step.Call? ==> s'.callers == s.callers + [if s.document.None? then Queued else Answered(s.document)])
            && (step.EnterLock? ==>
                  && s'.callers[step.caller] == (if s.document.None? then Fetching else Answered(s.document))
                  && s'.document == s.document)
            && (step.FetchReturns? ==>
                  && s'.callers[step.caller] == Answered(step.response) && s'.document == step.response
                  && s'.holder.None?)
            && (forall i :: 0 <= i < |s.callers| && (step.Call? || i != step.caller) ==> s'.callers[i] == s.callers[i])
  {
    EveryStateIsGood(run, k, k);
    hide Successes;
  }

  /** Nothing keeps a caller out: a call can always be made, and whoever waits or fetches can be cancelled or fail. */
  lemma CallersAreFree(s: State, i: nat)
    requires i < |s.callers|
    ensures Enabled(s, Call)
    ensures Enabled(s, Leave(i)) <==> s.callers[i].Queued? || s.callers[i].Fetching?
    ensures Enabled(s, EnterLock(i)) <==> s.callers[i].Queued? && s.holder == None
    ensures forall response :: Enabled(s, FetchReturns(i, response)) <==> s.callers[i].Fetching?
  {
  }

  /** The cache object: the document and the lock. */
  class AuthorizationServerMetadataCache {
    var document: Option<Document>
    var holder: Option<nat>
    ghost var callers: seq<Phase>
    ghost var fetched: seq<Option<Document>>

    ghost function Abs(): State
      reads this
    {
      State(document, holder, callers, fetched)
    }

    constructor ()
      ensures Abs() == START
    {
      document, holder := None, None;
      callers, fetched := [], [];
    }

    /** The first check of `get_document`. */
    method GetDocument() returns (cached: Option<Document>)
      modifies this`callers
      ensures cached == document
      ensures Abs() == Apply(old(Abs()), Call)
    {
      cached := document;
      callers := callers + [if cached.Some? then Answered(cached) else Queued];
    }

    /** With the lock: the re-check. True when the caller has to fetch. */
    method Recheck(i: nat) returns (fetch: bool)
      requires Enabled(Abs(), EnterLock(i))
      modifies this
      ensures Abs() == Apply(old(Abs()), EnterLock(i))
      ensures fetch == old(document).None?
    {
      fetch := document.None?;
      if fetch {
        holder := Some(i);
        callers := callers[i := Fetching];
      } else {
        callers := callers[i := Answered(document)];
      }
    }

    /** `_fetch` after the response, and the return that follows releasing the lock. */
    method AfterFetch(i: nat, response: Option<Document>) returns (answer: Option<Document>)
      requires Enabled(Abs(), FetchReturns(i, response))
      modifies this
      ensures Abs() == Apply(old(Abs()), FetchReturns(i, response))
      ensures answer == document
    {
      if response.Some? {
        document := response;
      }
      fetched := fetched + [response];
      holder := None;
      answer := document;
      callers := callers[i := Answered(answer)];
    }
  }
}

/**
 The codes of a partial query error: the worklist of `_error_codes` and
 `_empty_partial_is_tolerated` in src/apim_mcp/clients/_loganalytics.py.
 */
module ErrorCodes {
  import opened Options

  /** `Missing` is None and `Blank` an empty mapping; anything without a code and without errors
      inside it is an Error with nothing set. */
  datatype Error =
    | Missing
    | Blank
    | Error(code: Option<string>, details: seq<Error>, innererror: Error, innerError: Error)

  /** The second spelling counts only when the first is falsy. */
  function Inner(e: Error): Error
    requires e.Error?
  {
    if e.innererror.Error? then e.innererror else e.innerError
  }

  function OwnCode(e: Error): set<string>
  {
    if e.Error? && e.code.Some? then {e.code.value} else {}
  }

  // ----- the worklist against the tree -----

  function Codes(e: Error): set<string>
  {
    if e.Error? then OwnCode(e) + CodesOfAll(e.details) + Codes(Inner(e)) else {}
  }

  function CodesOfAll(errors: seq<Error>): set<string>
  {
    if errors == [] then {} else Codes(errors[0]) + CodesOfAll(errors[1..])
  }

  function Size(e: Error): nat
  {
    1 + if e.Error? then SizeOfAll(e.details) + Size(Inner(e)) else 0
  }

  function SizeOfAll(errors: seq<Error>): nat
  {
    if errors == [] then 0 else Size(errors[0]) + SizeOfAll(errors[1..])
  }

  lemma {:induction false} Extended(a: seq<Error>, b: seq<Error>)
    ensures CodesOfAll(a + b) == CodesOfAll(a) + CodesOfAll(b)
    ensures SizeOfAll(a + b) == SizeOfAll(a) + SizeOfAll(b)
  {
    if a == [] {
      assert a + b == b;
    } else {
      assert (a + b)[1..] == a[1..] + b;
      Extended(a[1..], b);
    }
  }

  lemma Appended(a: seq<Error>, e: Error)
    ensures CodesOfAll(a + [e]) == CodesOfAll(a) + Codes(e)
    ensures SizeOfAll(a + [e]) == SizeOfAll(a) + Size(e)
  {
    Extended(a, [e]);
    assert CodesOfAll([e]) == Codes(e) + CodesOfAll([]);
    assert SizeOfAll([e]) == Size(e) + SizeOfAll([]);
  }

  /** `_error_codes` */
  method CollectErrorCodes(error: Error) returns (codes: set<string>)
    ensures codes == Codes(error)
  {
    codes := {};
    var pending := [error];
    Appended([], error);
    assert [] + [error] == pending;
    while pending != []
      invariant codes + CodesOfAll(pending) == Codes(error)
      decreases SizeOfAll(pending)
    {
      var current, rest := pending[|pending| - 1], pending[..|pending| - 1];
      assert pending == rest + [current];
      Appended(rest, current);
      pending := rest;
      if current.Error? {
        if current.code.Some? {
          codes := codes + {current.code.value};
        }
        pending := pending + current.details;
        Extended(rest, current.details);
        if Inner(current) != Missing {
          Appended(pending, Inner(current));
          pending := pending + [Inner(current)];
        }
      }
    }
  }

  // ----- what the tree holds -----

  datatype Edge = Detail(index: nat) | Within

  /** The error that a path leads to; a path off the tree leads to Missing. The second spelling
      counts only when the first holds nothing. */
  function At(e: Error, path: seq<Edge>): Error
  {
    if path == [] then e
    else if !e.Error? then Missing
    else
      match path[0]
      case Detail(i) => if i < |e.details| then At(e.details[i], path[1..]) else Missing
      case Within => At(match e.innererror case Error(_, _, _, _) => e.innererror case _ => e.innerError, path[1..])
  }

  predicate HasCode(e: Error, code: string)
  {
    e.Error? && e.code == Some(code)
  }

  ghost predicate Mentions(e: Error, code: string)
  {
    exists path: seq<Edge> :: HasCode(At(e, path), code)
  }

  lemma MentionedBelow(e: Error, edge: Edge, code: string)
    requires e.Error? && Mentions(At(e, [edge]), code)
    ensures Mentions(e, code)
  {
    var path: seq<Edge> :| HasCode(At(At(e, [edge]), path), code);
    assert ([edge] + path)[1..] == path && [edge][1..] == [];
    assert At(e, [edge] + path) == At(At(e, [edge]), path);
  }

  lemma {:induction false} CodeIsMentioned(e: Error, code: string)
    requires code in Codes(e)
    ensures Mentions(e, code)
  {
    if code in OwnCode(e) {
      assert At(e, []) == e;
    } else if code in Codes(Inner(e)) {
      CodeIsMentioned(Inner(e), code);
      assert At(e, [Within]) == Inner(e);
      MentionedBelow(e, Within, code);
    } else {
      var i := DetailWith(e.details, code);
      CodeIsMentioned(e.details[i], code);
      assert At(e, [Detail(i)]) == e.details[i];
      MentionedBelow(e, Detail(i), code);
    }
  }

  lemma {:induction false} DetailWith(errors: seq<Error>, code: string) returns (i: nat)
    requires code in CodesOfAll(errors)
    ensures i < |errors| && code in Codes(errors[i])
  {
    i := 0;
    if code !in Codes(errors[0]) {
      i := DetailWith(errors[1..], code);
      i := i + 1;
    }
  }

  lemma {:induction false} DetailIsCollected(errors: seq<Error>, i: nat)
    requires i < |errors|
    ensures Codes(errors[i]) <= CodesOfAll(errors)
  {
    if i == 0 {
    } else {
      DetailIsCollected(errors[1..], i - 1);
    }
  }

  lemma {:induction false} PathIsCollected(e: Error, path: seq<Edge>)
    ensures OwnCode(At(e, path)) <= Codes(e)
    decreases |path|
  {
    if path != [] && e.Error? {
      match path[0]
      case Detail(i) =>
        if i < |e.details| {
          PathIsCollected(e.details[i], path[1..]);
          DetailIsCollected(e.details, i);
        }
      case Within =>
        PathIsCollected(Inner(e), path[1..]);
    }
  }

  /** A code is collected exactly when some path of details and inner errors leads to it. */
  lemma CodesAreThoseOnPaths(e: Error, code: string)
    ensures code in Codes(e) <==> Mentions(e, code)
  {
    if code in Codes(e) {
      CodeIsMentioned(e, code);
    }
    if Mentions(e, code) {
      var path: seq<Edge> :| HasCode(At(e, path), code);
      PathIsCollected(e, path);
    }
  }

  // ----- tolerated warnings -----

  const GENERIC := {"PartialError", "PartialQueryFailure"}

  function EmptyPartialIsTolerated(partialError: Error, tolerated: set<string>): bool
  {
    var specific := Codes(partialError) - GENERIC;
    specific != {} && specific <= tolerated
  }

  predicate IsSpecific(code: string)
  {
    code != "PartialError" && code != "PartialQueryFailure"
  }

  /** An allowed specific code occurs in the error, and no other specific code does. */
  lemma ToleratedExactlyWhen(partialError: Error, tolerated: set<string>)
    ensures EmptyPartialIsTolerated(partialError, tolerated) <==>
         && (exists code :: IsSpecific(code) && Mentions(partialError, code))
         && (forall code :: IsSpecific(code) && Mentions(partialError, code) ==> code in tolerated)
  {
    hide Codes, Mentions;
    forall code: string
      ensures code in Codes(partialError) <==> Mentions(partialError, code)
      ensures code in GENERIC <==> !IsSpecific(code)
    {
      CodesAreThoseOnPaths(partialError, code);
    }
    var specific := Codes(partialError) - GENERIC;
    if specific != {} {
      var code :| code in specific;
      assert IsSpecific(code) && Mentions(partialError, code);
    }
  }
}

/**
 What the guarded walk of src/apim_mcp/index/builder.py visits: exactly the names that some
 path of any length reaches, references repeated or not.
 */
module SchemaReachability {
  import opened Options
  import opened JsonDocument
  import opened SchemaWalker

  datatype Step = Follow | Into(edge: nat)

  /** `path` leads from `schema` at `depth` to a visited schema that declares the property `name`. */
  ghost predicate Reaches(document: Json, schema: Json, depth: nat, path: seq<Step>, name: string)
    decreases |path|
  {
    && depth <= MAX_SCHEMA_DEPTH
    && schema.JObject?
    && (if path == [] then
          RefOf(schema).None? && exists i :: 0 <= i < EdgeCount(schema) && EdgeAt(schema, i).name == Some(name)
        else match path[0]
          case Follow =>
            && RefOf(schema).Some?
            && Resolve(document, RefOf(schema).value).Some?
            && Reaches(document, Resolve(document, RefOf(schema).value).value, depth, path[1..], name)
          case Into(i) =>
            && RefOf(schema).None?
            && i < EdgeCount(schema)
            && Reaches(document, EdgeAt(schema, i).target, DepthAt(depth, EdgeAt(schema, i)), path[1..], name))
  }

  /** The references followed along a path. */
  ghost function Followed(document: Json, schema: Json, depth: nat, path: seq<Step>, name: string): set<string>
    requires Reaches(document, schema, depth, path, name)
    decreases |path|
  {
    if path == [] then {}
    else match path[0]
      case Follow =>
        var ref := RefOf(schema).value;
        {ref} + Followed(document, Resolve(document, ref).value, depth, path[1..], name)
      case Into(i) =>
        Followed(document, EdgeAt(schema, i).target, DepthAt(depth, EdgeAt(schema, i)), path[1..], name)
  }

  ghost predicate Reachable(document: Json, schema: Json, depth: nat, name: string)
  {
    exists path :: Reaches(document, schema, depth, path, name)
  }

  /** A path stays a path from a smaller depth: the cap only ever cuts deeper visits. */
  lemma {:induction false} ReachesFromAbove(document: Json, schema: Json, d: nat, depth: nat,
                                            path: seq<Step>, name: string)
    requires d <= depth && Reaches(document, schema, depth, path, name)
    ensures Reaches(document, schema, d, path, name)
    ensures Followed(document, schema, d, path, name) == Followed(document, schema, depth, path, name)
    decreases |path|
  {
    hide EdgeAt, EdgeCount, Resolve, RefOf;
    if path == [] {
    } else {
      match path[0]
      case Follow =>
        ReachesFromAbove(document, Resolve(document, RefOf(schema).value).value, d, depth, path[1..], name);
      case Into(i) =>
        var e := EdgeAt(schema, i);
        ReachesFromAbove(document, e.target, DepthAt(d, e), DepthAt(depth, e), path[1..], name);
    }
  }

  /** Cut out everything between two visits to `ref`: the later visit is never shallower. */
  lemma {:induction false} CutLoop(document: Json, schema: Json, depth: nat, path: seq<Step>, name: string,
                                   ref: string, d: nat) returns (short: seq<Step>)
    requires Reaches(document, schema, depth, path, name) && d <= depth
    requires Resolve(document, ref).Some?
    requires ref in Followed(document, schema, depth, path, name)
    ensures Reaches(document, Resolve(document, ref).value, d, short, name)
    ensures ref !in Followed(document, Resolve(document, ref).value, d, short, name)
    ensures Followed(document, Resolve(document, ref).value, d, short, name)
         <= Followed(document, schema, depth, path, name)
    ensures |short| < |path|
    decreases |path|
  {
    hide EdgeAt, EdgeCount, Resolve, RefOf;
    match path[0]
    case Follow =>
      var target := Resolve(document, RefOf(schema).value).value;
      if ref in Followed(document, target, depth, path[1..], name) {
        short := CutLoop(document, target, depth, path[1..], name, ref, d);
      } else {
        short := path[1..];
        ReachesFromAbove(document, target, d, depth, short, name);
      }
    case Into(i) =>
      var e := EdgeAt(schema, i);
      short := CutLoop(document, e.target, DepthAt(depth, e), path[1..], name, ref, d);
  }

  /** Completeness of the guarded walk: a path that follows no seen reference leads to a visited name. */
  lemma {:induction false} ReachedIsVisited(document: Json, schema: Json, depth: nat, seen: set<string>,
                                            path: seq<Step>, name: string)
    requires Reaches(document, schema, depth, path, name)
    requires Followed(document, schema, depth, path, name) !! seen
    ensures name in Visits(document, schema, depth, seen)
    decreases |path|
  {
    hide EdgeAt, EdgeCount, Resolve, RefOf, Refs;
    if path == [] {
      var i :| 0 <= i < EdgeCount(schema) && EdgeAt(schema, i).name == Some(name);
      EdgeContribution(document, schema, i, EdgeCount(schema), depth, seen);
    } else {
      match path[0]
      case Follow =>
        var ref := RefOf(schema).value;
        var target := Resolve(document, ref).value;
        var rest := path[1..];
        if ref in Followed(document, target, depth, rest, name) {
          rest := CutLoop(document, target, depth, rest, name, ref, depth);
        }
        ReachedIsVisited(document, target, depth, seen + {ref}, rest, name);
      case Into(i) =>
        var e := EdgeAt(schema, i);
        ReachedIsVisited(document, e.target, DepthAt(depth, e), seen, path[1..], name);
        EdgeContribution(document, schema, i, EdgeCount(schema), depth, seen);
    }
  }

  /** What edge `i` contributes is part of the walk of the first `n` edges. */
  lemma {:induction false} EdgeContribution(document: Json, schema: Json, i: nat, n: nat, depth: nat, seen: set<string>)
    requires schema.JObject? && i < n <= EdgeCount(schema)
    ensures var e := EdgeAt(schema, i);
            forall name :: name in EdgeName(e) + Visits(document, e.target, DepthAt(depth, e), seen)
              ==> name in VisitEdges(document, schema, n, depth, seen)
    decreases n
  {
    hide EdgeAt, EdgeCount, Resolve, RefOf, Refs;
    if i == n - 1 {
    } else {
      EdgeContribution(document, schema, i, n - 1, depth, seen);
    }
  }

  /** Soundness: every visited name lies at the end of some path. */
  lemma {:induction false} VisitedIsReached(document: Json, schema: Json, depth: nat, seen: set<string>, name: string)
    returns (path: seq<Step>)
    requires name in Visits(document, schema, depth, seen)
    ensures Reaches(document, schema, depth, path, name)
    decreases Unseen(document, schema, seen), schema
  {
    hide EdgeAt, EdgeCount, Resolve, RefOf, Refs;
    match RefOf(schema)
    case Some(ref) =>
      FollowingShrinks(document, schema, seen);
      path := VisitedIsReached(document, Resolve(document, ref).value, depth, seen + {ref}, name);
      path := [Follow] + path;
      assert path[1..] + [] == path[1..];
    case None =>
      path := VisitedEdgeIsReached(document, schema, EdgeCount(schema), depth, seen, name);
  }

  lemma {:induction false} VisitedEdgeIsReached(document: Json, schema: Json, n: nat, depth: nat,
                                                seen: set<string>, name: string)
    returns (path: seq<Step>)
    requires schema.JObject? && RefOf(schema).None? && depth <= MAX_SCHEMA_DEPTH && n <= EdgeCount(schema)
    requires name in VisitEdges(document, schema, n, depth, seen)
    ensures Reaches(document, schema, depth, path, name)
    decreases Unseen(document, schema, seen), schema, n
  {
    hide EdgeAt, EdgeCount, Resolve, RefOf, Refs;
    DescendingKeeps(document, schema, n - 1, seen);
    var e := EdgeAt(schema, n - 1);
    if name in VisitEdges(document, schema, n - 1, depth, seen) {
      path := VisitedEdgeIsReached(document, schema, n - 1, depth, seen, name);
    } else if name in EdgeName(e) {
      path := [];
    } else {
      var rest := VisitedIsReached(document, e.target, DepthAt(depth, e), seen, name);
      path := [Into(n - 1)] + rest;
      assert path[1..] == rest;
    }
  }

  /** The path-scoped cycle guard loses nothing. */
  lemma GuardLosesNothing(document: Json, schema: Json, depth: nat, name: string)
    ensures name in Visits(document, schema, depth, {}) <==> Reachable(document, schema, depth, name)
  {
    hide Visits;
    if name in Visits(document, schema, depth, {}) {
      var path := VisitedIsReached(document, schema, depth, {}, name);
    }
    if Reachable(document, schema, depth, name) {
      var path :| Reaches(document, schema, depth, path, name);
      ReachedIsVisited(document, schema, depth, {}, path, name);
    }
  }
}

/**
 The property names of one operation: several schemas that share one list and one budget
 (`_schema_property_names_by_operation` of src/apim_mcp/index/builder.py).
 */
module OperationNames {
  import opened JsonDocument
  import opened NameLists
  import opened SchemaReachability
  import opened SchemaWalker

  /** The unbudgeted walks of the first schemas of an operation, one after the other. */
  ghost function AllVisits(document: Json, schemas: seq<Json>): seq<string>
  {
    if schemas == [] then []
    else AllVisits(document, schemas[..|schemas| - 1]) + Visits(document, schemas[|schemas| - 1], 0, {})
  }

  lemma {:induction false} AllVisitsPrefix(document: Json, schemas: seq<Json>, n: nat)
    requires n <= |schemas|
    ensures AllVisits(document, schemas[..n]) <= AllVisits(document, schemas)
  {
    hide Visits;
    if n < |schemas| {
      var front := schemas[..|schemas| - 1];
      assert front[..n] == schemas[..n];
      AllVisitsPrefix(document, front, n);
    } else {
      assert schemas[..n] == schemas;
    }
  }

  /** The per-operation loop of `_schema_property_names_by_operation`, with its early break. */
  method OperationPropertyNames(document: Json, schemas: seq<Json>) returns (names: seq<string>)
    ensures names == Take(FirstOccurrences(AllVisits(document, schemas)), MAX_SCHEMA_PROPERTIES)
  {
    hide Visits, Refs, FirstOccurrences;
    var out := new NameCollector();
    assert AllVisits(document, schemas[..0]) == [];
    var i := 0;
    while i < |schemas| && out.budget > 0
      invariant i <= |schemas|
      invariant fresh(out) && out.Valid()
      invariant out.names == Absorb([], AllVisits(document, schemas[..i]), MAX_SCHEMA_PROPERTIES)
    {
      assert schemas[..i + 1][..i] == schemas[..i];
      AbsorbConcat([], AllVisits(document, schemas[..i]), Visits(document, schemas[i], 0, {}), MAX_SCHEMA_PROPERTIES);
      CollectPropertyNames(schemas[i], document, 0, {}, out);
      i := i + 1;
    }
    names := out.names;
    var some, all := AllVisits(document, schemas[..i]), AllVisits(document, schemas);
    AllVisitsPrefix(document, schemas, i);
    if i < |schemas| {
      assert all == some + all[|some|..];
      AbsorbConcat([], some, all[|some|..], MAX_SCHEMA_PROPERTIES);
      AbsorbWhenFull(names, all[|some|..], MAX_SCHEMA_PROPERTIES);
    } else {
      assert schemas[..i] == schemas;
    }
    AbsorbIsPrefix(all, MAX_SCHEMA_PROPERTIES);
  }

  /** The names some schema of the operation reaches by a path of any length, references repeated or not. */
  ghost predicate OperationReaches(document: Json, schemas: seq<Json>, name: string)
  {
    exists i :: 0 <= i < |schemas| && Reachable(document, schemas[i], 0, name)
  }

  lemma {:induction false} AllVisitsAreReached(document: Json, schemas: seq<Json>, name: string)
    ensures name in AllVisits(document, schemas) <==> OperationReaches(document, schemas, name)
  {
    hide Visits, Reachable;
    if schemas == [] {
    } else {
      var front, last := schemas[..|schemas| - 1], schemas[|schemas| - 1];
      AllVisitsAreReached(document, front, name);
      GuardLosesNothing(document, last, 0, name);
      assert forall i :: 0 <= i < |front| ==> front[i] == schemas[i];
    }
  }

  /**
   The names collected for an operation are exactly the reachable ones if and only if
   at most 200 distinct names are reachable; the list always holds the first
   min(200, number of distinct names) of them.
   */
  lemma NamesAreExactWithinBudget(document: Json, schemas: seq<Json>, reached: set<string>, names: seq<string>)
    requires forall name :: name in reached <==> OperationReaches(document, schemas, name)
    requires names == Take(FirstOccurrences(AllVisits(document, schemas)), MAX_SCHEMA_PROPERTIES)
    ensures forall name :: name in names ==> name in reached
    ensures NoDuplicates(names)
    ensures |names| == if |reached| <= MAX_SCHEMA_PROPERTIES then |reached| else MAX_SCHEMA_PROPERTIES
    ensures (forall name :: name in names <==> OperationReaches(document, schemas, name))
       <==> |reached| <= MAX_SCHEMA_PROPERTIES
  {
    hide Visits, Reachable, OperationReaches;
    var all := FirstOccurrences(AllVisits(document, schemas));
    forall name
      ensures name in all <==> name in reached
    {
      AllVisitsAreReached(document, schemas, name);
    }
    DistinctSize(all, reached);
    if forall name :: name in names <==> name in reached {
      DistinctSize(names, reached);
    }
  }
}

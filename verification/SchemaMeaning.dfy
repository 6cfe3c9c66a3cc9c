/**
 What the schema walk of src/apim_mcp/index/builder.py collects, and in which order, said of the
 document itself: by its keywords, without the numbering of edges that the walk is proved with.
 */
module SchemaMeaning {
  import opened Options
  import opened JsonDocument
  import opened NameLists
  import opened SchemaWalker
  import opened SchemaReachability
  import opened OperationNames

  datatype Move = ByRef | ByProperty(name: string) | ByItems | ByVariant

  ghost predicate HasRef(j: Json)
  {
    exists ref :: Holds(j, "$ref", JString(ref))
  }

  /** `to` is the schema of the property `name` of `from`. */
  ghost predicate IsProperty(from: Json, name: string, to: Json)
  {
    exists p :: Holds(from, "properties", p) && p.JObject? && Field(name, to) in p.fields
  }

  ghost predicate IsVariant(from: Json, key: string, to: Json)
  {
    exists v :: Holds(from, key, v) && v.JArray? && to in v.elems
  }

  /** One step of the walk. A schema with a string `$ref` leads nowhere but to its target. */
  ghost predicate MovesTo(document: Json, from: Json, move: Move, to: Json)
  {
    match move
    case ByRef => exists ref :: Holds(from, "$ref", JString(ref)) && PointsAt(document, ref, to)
    case ByProperty(name) => !HasRef(from) && IsProperty(from, name, to)
    case ByItems => !HasRef(from) && Holds(from, "items", to) && to.JObject?
    case ByVariant =>
      !HasRef(from) && (IsVariant(from, "allOf", to) || IsVariant(from, "oneOf", to) || IsVariant(from, "anyOf", to))
  }

  /** References and variants do not advance the depth. */
  function DepthAfter(depth: nat, move: Move): nat
  {
    if move.ByProperty? || move.ByItems? then depth + 1 else depth
  }

  /** The moves lead, at depth 3 at most, to an object that declares the property `name`. */
  ghost predicate Arrives(document: Json, schema: Json, depth: nat, moves: seq<Move>, name: string)
    decreases |moves|
  {
    && depth <= 3
    && schema.JObject?
    && if moves == [] then !HasRef(schema) && exists to :: IsProperty(schema, name, to)
       else exists to :: MovesTo(document, schema, moves[0], to)
              && Arrives(document, to, DepthAfter(depth, moves[0]), moves[1..], name)
  }

  lemma RefMeans(j: Json)
    ensures RefOf(j).Some? <==> HasRef(j)
    ensures RefOf(j).Some? ==> Holds(j, "$ref", JString(RefOf(j).value))
    ensures forall ref :: Holds(j, "$ref", JString(ref)) ==> RefOf(j) == Some(ref)
  {
    hide Holds;
    if j.JObject? {
      forall ref
        ensures Holds(j, "$ref", JString(ref)) <==> RefOf(j) == Some(ref)
      {
        GetHolds(j, "$ref", JString(ref));
      }
    } else {
      NothingHolds(j);
    }
  }

  lemma NothingHolds(j: Json)
    requires !j.JObject?
    ensures forall key, v :: !Holds(j, key, v)
  {
  }

  /** A property with its name, the items, or a variant. */
  ghost predicate IsMove(schema: Json, e: Edge)
  {
    if e.name.Some? then e.deeper && IsProperty(schema, e.name.value, e.target)
    else if e.deeper then Holds(schema, "items", e.target) && e.target.JObject?
    else
      || IsVariant(schema, "allOf", e.target)
      || IsVariant(schema, "oneOf", e.target)
      || IsVariant(schema, "anyOf", e.target)
  }

  /** Every edge of a schema is a move. */
  lemma {:induction false} EdgeIsMove(schema: Json, k: nat, i: nat)
    requires schema.JObject? && k <= 3 && i < VariantBase(schema, VARIANT_KEYS, k)
    ensures IsMove(schema, EdgeAmong(schema, VARIANT_KEYS, k, i))
  {
    hide Holds, Get;
    if k == 0 {
      GetHolds(schema, "properties", Get(schema, "properties"));
      GetHolds(schema, "items", Get(schema, "items"));
    } else if i < VariantBase(schema, VARIANT_KEYS, k - 1) {
      EdgeIsMove(schema, k - 1, i);
    } else {
      GetHolds(schema, VARIANT_KEYS[k - 1], Get(schema, VARIANT_KEYS[k - 1]));
    }
  }

  lemma PropertyHasEdge(schema: Json, name: string, to: Json) returns (i: nat)
    requires IsProperty(schema, name, to)
    ensures schema.JObject? && i < EdgeCount(schema) && EdgeAt(schema, i) == Edge(Some(name), to, true)
  {
    hide Get, EdgeAt, EdgeCount;
    var p :| Holds(schema, "properties", p) && p.JObject? && Field(name, to) in p.fields;
    GetHolds(schema, "properties", p);
    i :| 0 <= i < |p.fields| && p.fields[i] == Field(name, to);
    PropertyEdge(schema, i);
  }

  lemma VariantHasEdge(schema: Json, k: nat, to: Json) returns (i: nat)
    requires k < 3 && IsVariant(schema, VARIANT_KEYS[k], to)
    ensures schema.JObject? && i < EdgeCount(schema) && EdgeAt(schema, i) == Edge(None, to, false)
  {
    hide Get, EdgeAt, EdgeCount;
    var key := VARIANT_KEYS[k];
    var v :| Holds(schema, key, v) && v.JArray? && to in v.elems;
    GetHolds(schema, key, v);
    var j :| 0 <= j < |v.elems| && v.elems[j] == to;
    VariantEdge(schema, k, j);
    i := VariantBase(schema, VARIANT_KEYS, k) + j;
  }

  /** Every move but a reference is an edge. */
  lemma MoveHasEdge(document: Json, schema: Json, move: Move, to: Json) returns (i: nat)
    requires MovesTo(document, schema, move, to) && !move.ByRef?
    ensures schema.JObject? && i < EdgeCount(schema)
    ensures EdgeAt(schema, i).target == to
    ensures forall depth: nat :: DepthAt(depth, EdgeAt(schema, i)) == DepthAfter(depth, move)
  {
    hide EdgeAt, EdgeCount, Get;
    match move
    case ByProperty(name) => i := PropertyHasEdge(schema, name, to);
    case ByItems =>
      GetHolds(schema, "items", to);
      ItemEdge(schema);
      i := PropertyCount(schema);
    case ByVariant =>
      assert VARIANT_KEYS[0] == "allOf" && VARIANT_KEYS[1] == "oneOf" && VARIANT_KEYS[2] == "anyOf";
      if IsVariant(schema, "allOf", to) {
        i := VariantHasEdge(schema, 0, to);
      } else if IsVariant(schema, "oneOf", to) {
        i := VariantHasEdge(schema, 1, to);
      } else {
        i := VariantHasEdge(schema, 2, to);
      }
  }

  lemma EdgeHasMove(document: Json, schema: Json, i: nat) returns (move: Move)
    requires schema.JObject? && RefOf(schema).None? && i < EdgeCount(schema)
    ensures MovesTo(document, schema, move, EdgeAt(schema, i).target)
    ensures forall depth: nat :: DepthAt(depth, EdgeAt(schema, i)) == DepthAfter(depth, move)
  {
    hide Holds, IsProperty, IsVariant, HasRef;
    RefMeans(schema);
    EdgeIsMove(schema, 3, i);
    var e := EdgeAt(schema, i);
    move := match e.name case Some(name) => ByProperty(name) case None => if e.deeper then ByItems else ByVariant;
  }

  lemma {:induction false} ReachedArrives(document: Json, schema: Json, depth: nat, path: seq<Step>, name: string)
    returns (moves: seq<Move>)
    requires Reaches(document, schema, depth, path, name)
    ensures Arrives(document, schema, depth, moves, name)
    decreases |path|
  {
    hide EdgeAt, EdgeCount, Resolve, RefOf, HasRef, IsProperty, IsVariant, PointsAt, Holds;
    RefMeans(schema);
    if path == [] {
      moves := [];
      var i :| 0 <= i < EdgeCount(schema) && EdgeAt(schema, i).name == Some(name);
      EdgeDeclares(schema, i);
      assert IsProperty(schema, name, EdgeAt(schema, i).target);
    } else {
      match path[0]
      case Follow =>
        var ref := RefOf(schema).value;
        var to := Resolve(document, ref).value;
        ResolveExactly(document, ref, to);
        var rest := ReachedArrives(document, to, depth, path[1..], name);
        moves := [ByRef] + rest;
        assert moves[1..] == rest && MovesTo(document, schema, moves[0], to);
      case Into(i) =>
        var e := EdgeAt(schema, i);
        var move := EdgeHasMove(document, schema, i);
        var rest := ReachedArrives(document, e.target, DepthAt(depth, e), path[1..], name);
        moves := [move] + rest;
        assert moves[1..] == rest && MovesTo(document, schema, moves[0], e.target);
    }
  }

  lemma EdgeDeclares(schema: Json, i: nat)
    requires schema.JObject? && i < EdgeCount(schema) && EdgeAt(schema, i).name.Some?
    ensures IsProperty(schema, EdgeAt(schema, i).name.value, EdgeAt(schema, i).target)
  {
    EdgeIsMove(schema, 3, i);
  }

  lemma {:induction false} ArrivalIsReached(document: Json, schema: Json, depth: nat, moves: seq<Move>, name: string)
    returns (path: seq<Step>)
    requires Arrives(document, schema, depth, moves, name)
    ensures Reaches(document, schema, depth, path, name)
    decreases |moves|
  {
    hide EdgeAt, EdgeCount, Resolve, RefOf, HasRef, IsProperty, IsVariant, PointsAt, Holds, MovesTo;
    RefMeans(schema);
    if moves == [] {
      path := [];
      var to :| IsProperty(schema, name, to);
      var i := PropertyHasEdge(schema, name, to);
    } else {
      var to :| MovesTo(document, schema, moves[0], to)
             && Arrives(document, to, DepthAfter(depth, moves[0]), moves[1..], name);
      var rest := ArrivalIsReached(document, to, DepthAfter(depth, moves[0]), moves[1..], name);
      if moves[0] == ByRef {
        FollowsRef(document, schema, to);
        path := [Follow] + rest;
      } else {
        NoRefUnlessByRef(document, schema, moves[0], to);
        var i := MoveHasEdge(document, schema, moves[0], to);
        path := [Into(i)] + rest;
      }
      assert path[1..] == rest;
    }
  }

  lemma FollowsRef(document: Json, schema: Json, to: Json)
    requires MovesTo(document, schema, ByRef, to)
    ensures RefOf(schema).Some? && Resolve(document, RefOf(schema).value) == Some(to)
  {
    hide Holds, PointsAt, Resolve, RefOf;
    RefMeans(schema);
    ResolveExactly(document, RefOf(schema).value, to);
  }

  lemma NoRefUnlessByRef(document: Json, schema: Json, move: Move, to: Json)
    requires MovesTo(document, schema, move, to) && !move.ByRef?
    ensures !HasRef(schema)
  {
  }

  /**
   The walk visits a name exactly when some moves through the document, of any number and through
   references any number of times, arrive at it within depth 3.
   */
  lemma VisitedExactlyWhenArrived(document: Json, schema: Json, name: string)
    ensures name in Visits(document, schema, 0, {}) <==> exists moves :: Arrives(document, schema, 0, moves, name)
  {
    hide Visits, Arrives, Reaches;
    GuardLosesNothing(document, schema, 0, name);
    if Reachable(document, schema, 0, name) {
      var path :| Reaches(document, schema, 0, path, name);
      var moves := ReachedArrives(document, schema, 0, path, name);
    }
    if exists moves :: Arrives(document, schema, 0, moves, name) {
      var moves :| Arrives(document, schema, 0, moves, name);
      var path := ArrivalIsReached(document, schema, 0, moves, name);
    }
  }

  // ----- in which order -----

  function FieldsUnder(schema: Json, key: string): seq<Field>
    requires schema.JObject?
  {
    if Get(schema, key).JObject? then Get(schema, key).fields else []
  }

  function ElemsUnder(schema: Json, key: string): seq<Json>
    requires schema.JObject?
  {
    if Get(schema, key).JArray? then Get(schema, key).elems else []
  }

  /** Each property name, followed by what its schema is walked into. */
  ghost function VisitsOfProperties(document: Json, fields: seq<Field>, depth: nat, seen: set<string>): seq<string>
  {
    if fields == [] then []
    else
      var last := fields[|fields| - 1];
      VisitsOfProperties(document, fields[..|fields| - 1], depth, seen)
      + [last.key]
      + Visits(document, last.value, depth, seen)
  }

  ghost function VisitsOfAll(document: Json, schemas: seq<Json>, depth: nat, seen: set<string>): seq<string>
  {
    if schemas == [] then []
    else
      VisitsOfAll(document, schemas[..|schemas| - 1], depth, seen)
      + Visits(document, schemas[|schemas| - 1], depth, seen)
  }

  lemma {:induction false} PropertiesInOrder(document: Json, schema: Json, n: nat, depth: nat, seen: set<string>)
    requires schema.JObject? && n <= PropertyCount(schema) <= EdgeCount(schema)
    ensures VisitEdges(document, schema, n, depth, seen)
         == VisitsOfProperties(document, FieldsUnder(schema, "properties")[..n], depth + 1, seen)
  {
    hide Get, Visits, EdgeAt, EdgeCount, Refs;
    var fields := FieldsUnder(schema, "properties");
    if n == 0 {
    } else {
      PropertiesInOrder(document, schema, n - 1, depth, seen);
      PropertyEdge(schema, n - 1);
      assert fields[..n][..n - 1] == fields[..n - 1];
    }
  }

  lemma {:induction false} VariantsInOrder(document: Json, schema: Json, k: nat, j: nat, depth: nat, seen: set<string>)
    requires schema.JObject? && k < 3 && j <= VariantCount(schema, VARIANT_KEYS[k])
    ensures VariantBase(schema, VARIANT_KEYS, k) + j <= EdgeCount(schema)
    ensures VisitEdges(document, schema, VariantBase(schema, VARIANT_KEYS, k) + j, depth, seen)
         == VisitEdges(document, schema, VariantBase(schema, VARIANT_KEYS, k), depth, seen)
          + VisitsOfAll(document, ElemsUnder(schema, VARIANT_KEYS[k])[..j], depth, seen)
    decreases j
  {
    hide Get, Visits, EdgeAt, EdgeCount, Refs, VariantBase;
    BaseGrows(schema, VARIANT_KEYS, k, 3);
    EdgeCountIs(schema);
    var elems := ElemsUnder(schema, VARIANT_KEYS[k]);
    if j == 0 {
    } else {
      VariantsInOrder(document, schema, k, j - 1, depth, seen);
      VariantEdge(schema, k, j - 1);
      assert elems[..j][..j - 1] == elems[..j - 1];
    }
  }

  lemma EdgeCountIs(schema: Json)
    requires schema.JObject?
    ensures EdgeCount(schema) == VariantBase(schema, VARIANT_KEYS, 3)
  {
  }

  lemma BaseIs(schema: Json, k: nat)
    requires schema.JObject? && k < 3
    ensures VariantBase(schema, VARIANT_KEYS, k + 1)
         == VariantBase(schema, VARIANT_KEYS, k) + |ElemsUnder(schema, VARIANT_KEYS[k])|
    ensures |ElemsUnder(schema, VARIANT_KEYS[k])| == VariantCount(schema, VARIANT_KEYS[k])
  {
  }

  lemma WholeVariant(document: Json, schema: Json, k: nat, depth: nat, seen: set<string>)
    requires schema.JObject? && k < 3
    ensures VariantBase(schema, VARIANT_KEYS, k + 1) <= EdgeCount(schema)
    ensures VariantBase(schema, VARIANT_KEYS, k) <= EdgeCount(schema)
    ensures VisitEdges(document, schema, VariantBase(schema, VARIANT_KEYS, k + 1), depth, seen)
         == VisitEdges(document, schema, VariantBase(schema, VARIANT_KEYS, k), depth, seen)
          + VisitsOfAll(document, ElemsUnder(schema, VARIANT_KEYS[k]), depth, seen)
  {
    hide Visits, EdgeCount, VariantBase, ElemsUnder, VisitEdges, VisitsOfAll, VariantCount;
    BaseIs(schema, k);
    var elems := ElemsUnder(schema, VARIANT_KEYS[k]);
    VariantsInOrder(document, schema, k, |elems|, depth, seen);
    VariantsInOrder(document, schema, k, 0, depth, seen);
    assert elems[..|elems|] == elems;
  }

  lemma PropertiesThenItems(document: Json, schema: Json, depth: nat, seen: set<string>)
    requires schema.JObject?
    ensures VariantBase(schema, VARIANT_KEYS, 0) <= EdgeCount(schema)
    ensures VisitEdges(document, schema, VariantBase(schema, VARIANT_KEYS, 0), depth, seen)
         == VisitsOfProperties(document, FieldsUnder(schema, "properties"), depth + 1, seen)
          + if Get(schema, "items").JObject? then Visits(document, Get(schema, "items"), depth + 1, seen) else []
  {
    hide Visits, EdgeAt, EdgeCount, Refs, Get;
    EdgeCountIs(schema);
    BaseGrows(schema, VARIANT_KEYS, 0, 3);
    var fields := FieldsUnder(schema, "properties");
    var n := PropertyCount(schema);
    PropertiesInOrder(document, schema, n, depth, seen);
    assert fields[..n] == fields;
    if Get(schema, "items").JObject? {
      ItemEdge(schema);
    }
  }

  /**
   The preorder of a schema without `$ref`: every property name before the names in its schema,
   then the items, then the variants of `allOf`, `oneOf` and `anyOf`; only properties and items go deeper.
   */
  lemma VisitsInOrder(document: Json, schema: Json, depth: nat, seen: set<string>)
    requires depth <= 3 && schema.JObject? && RefOf(schema).None?
    ensures Visits(document, schema, depth, seen)
         == VisitsOfProperties(document, FieldsUnder(schema, "properties"), depth + 1, seen)
          + (if Get(schema, "items").JObject? then Visits(document, Get(schema, "items"), depth + 1, seen) else [])
          + VisitsOfAll(document, ElemsUnder(schema, "allOf"), depth, seen)
          + VisitsOfAll(document, ElemsUnder(schema, "oneOf"), depth, seen)
          + VisitsOfAll(document, ElemsUnder(schema, "anyOf"), depth, seen)
  {
    hide VisitEdges, EdgeCount, VariantBase, ElemsUnder, FieldsUnder, VisitsOfAll, VisitsOfProperties, Get, RefOf;
    EdgeCountIs(schema);
    PropertiesThenItems(document, schema, depth, seen);
    WholeVariant(document, schema, 0, depth, seen);
    WholeVariant(document, schema, 1, depth, seen);
    WholeVariant(document, schema, 2, depth, seen);
    assert VARIANT_KEYS[0] == "allOf" && VARIANT_KEYS[1] == "oneOf" && VARIANT_KEYS[2] == "anyOf";
  }

  /** A `$ref` that was followed on the path, or does not resolve, yields nothing. */
  lemma VisitsOfDeadRef(document: Json, schema: Json, depth: nat, seen: set<string>, ref: string)
    requires Holds(schema, "$ref", JString(ref))
    requires ref in seen || forall to :: !PointsAt(document, ref, to)
    ensures Visits(document, schema, depth, seen) == []
  {
    hide Holds, PointsAt, Resolve, RefOf, VisitEdges;
    RefMeans(schema);
    if Resolve(document, ref).Some? {
      ResolveExactly(document, ref, Resolve(document, ref).value);
    }
  }

  /** Any other yields what its target does, at the same depth. */
  lemma VisitsOfRef(document: Json, schema: Json, depth: nat, seen: set<string>, ref: string, to: Json)
    requires Holds(schema, "$ref", JString(ref)) && schema.JObject?
    requires depth <= 3 && ref !in seen && PointsAt(document, ref, to)
    ensures Visits(document, schema, depth, seen) == Visits(document, to, depth, seen + {ref})
  {
    hide Holds, PointsAt, Resolve, RefOf, VisitEdges;
    RefMeans(schema);
    ResolveExactly(document, ref, to);
  }

  /** The names of an operation come in the order of the walk: each before those first visited later. */
  lemma NamesInOrder(document: Json, schemas: seq<Json>, names: seq<string>, i: nat, j: nat, k: nat)
    requires names == Take(FirstOccurrences(AllVisits(document, schemas)), MAX_SCHEMA_PROPERTIES)
    requires i < j < |names| && k < |AllVisits(document, schemas)| && AllVisits(document, schemas)[k] == names[j]
    ensures |names| <= 200
    ensures names[i] in AllVisits(document, schemas)[..k]
  {
    FirstOccurrencesInOrder(AllVisits(document, schemas), i, j, k);
  }
}

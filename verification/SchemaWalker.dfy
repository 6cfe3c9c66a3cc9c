/**
 The schema walk of src/apim_mcp/index/builder.py: a depth cap that references and
 variants do not advance, a path-scoped cycle guard, and a name list and budget
 shared by the whole recursion.
 */
module SchemaWalker {
  import opened Options
  import opened JsonDocument
  import opened NameLists

  const MAX_SCHEMA_DEPTH := 3
  const MAX_SCHEMA_PROPERTIES := 200

  // ----- the pure walk -----

  /** One recursive call of the walk: an optional property name, the sub-schema, whether it is one level deeper. */
  datatype Edge = Edge(name: Option<string>, target: Json, deeper: bool)

  const VARIANT_KEYS := ["allOf", "oneOf", "anyOf"]

  function PropertyCount(schema: Json): nat
    requires schema.JObject?
  {
    var p := Get(schema, "properties");
    if p.JObject? then |p.fields| else 0
  }

  function ItemCount(schema: Json): nat
    requires schema.JObject?
  {
    if Get(schema, "items").JObject? then 1 else 0
  }

  function VariantCount(schema: Json, key: string): nat
    requires schema.JObject?
  {
    var v := Get(schema, key);
    if v.JArray? then |v.elems| else 0
  }

  /** The number of the first edge that comes from the `k`-th variant key. */
  function VariantBase(schema: Json, keys: seq<string>, k: nat): nat
    requires schema.JObject? && k <= |keys|
  {
    if k == 0 then PropertyCount(schema) + ItemCount(schema)
    else VariantBase(schema, keys, k - 1) + VariantCount(schema, keys[k - 1])
  }

  function EdgeCount(schema: Json): nat
    requires schema.JObject?
  {
    VariantBase(schema, VARIANT_KEYS, |VARIANT_KEYS|)
  }

  /** The `i`-th thing a schema without `$ref` is walked into: properties, items, then variants. */
  function EdgeAt(schema: Json, i: nat): Edge
    requires schema.JObject? && i < EdgeCount(schema)
  {
    EdgeAmong(schema, VARIANT_KEYS, |VARIANT_KEYS|, i)
  }

  function EdgeAmong(schema: Json, keys: seq<string>, k: nat, i: nat): Edge
    requires schema.JObject? && k <= |keys|
    requires i < VariantBase(schema, keys, k)
  {
    if k > 0 then
      if i < VariantBase(schema, keys, k - 1) then EdgeAmong(schema, keys, k - 1, i)
      else Edge(None, Get(schema, keys[k - 1]).elems[i - VariantBase(schema, keys, k - 1)], false)
    else if i < PropertyCount(schema) then
      var field := Get(schema, "properties").fields[i];
      Edge(Some(field.key), field.value, true)
    else Edge(None, Get(schema, "items"), true)
  }

  lemma {:induction false} EdgeAmongIsInside(schema: Json, keys: seq<string>, k: nat, i: nat)
    requires schema.JObject? && k <= |keys|
    requires i < VariantBase(schema, keys, k)
    ensures EdgeAmong(schema, keys, k, i).target < schema
    ensures Refs(EdgeAmong(schema, keys, k, i).target) <= Refs(schema)
  {
    if k > 0 {
      var base := VariantBase(schema, keys, k - 1);
      if i < base {
        EdgeAmongIsInside(schema, keys, k - 1, i);
      } else {
        GetIsInside(schema, keys[k - 1]);
        assert Get(schema, keys[k - 1]).elems[i - base] in Get(schema, keys[k - 1]).elems;
      }
    } else if i < PropertyCount(schema) {
      GetIsInside(schema, "properties");
      assert Get(schema, "properties").fields[i] in Get(schema, "properties").fields;
    } else {
      GetIsInside(schema, "items");
    }
  }

  lemma {:induction false} BaseGrows(schema: Json, keys: seq<string>, k: nat, n: nat)
    requires schema.JObject? && k <= n <= |keys|
    ensures VariantBase(schema, keys, k) <= VariantBase(schema, keys, n)
  {
    if k == n {
    } else {
      BaseGrows(schema, keys, k, n - 1);
    }
  }

  /** An edge keeps its number when more variant keys are added. */
  lemma {:induction false} EdgeAmongStays(schema: Json, keys: seq<string>, k: nat, n: nat, i: nat)
    requires schema.JObject? && k <= n <= |keys|
    requires i < VariantBase(schema, keys, k)
    ensures i < VariantBase(schema, keys, n)
    ensures EdgeAmong(schema, keys, n, i) == EdgeAmong(schema, keys, k, i)
  {
    hide Get, PropertyCount, ItemCount, VariantCount;
    if k == n {
    } else {
      EdgeAmongStays(schema, keys, k, n - 1, i);
    }
  }

  lemma PropertyEdge(schema: Json, i: nat)
    requires schema.JObject? && i < PropertyCount(schema)
    ensures i < EdgeCount(schema)
    ensures var field := Get(schema, "properties").fields[i];
              EdgeAt(schema, i) == Edge(Some(field.key), field.value, true)
  {
    hide Get, VariantCount;
    EdgeAmongStays(schema, VARIANT_KEYS, 0, |VARIANT_KEYS|, i);
  }

  lemma ItemEdge(schema: Json)
    requires schema.JObject? && Get(schema, "items").JObject?
    ensures var i := PropertyCount(schema);
              && i + 1 == VariantBase(schema, VARIANT_KEYS, 0) <= EdgeCount(schema)
              && EdgeAt(schema, i) == Edge(None, Get(schema, "items"), true)
  {
    hide Get, VariantCount;
    BaseGrows(schema, VARIANT_KEYS, 0, |VARIANT_KEYS|);
    EdgeAmongStays(schema, VARIANT_KEYS, 0, |VARIANT_KEYS|, PropertyCount(schema));
  }

  lemma VariantEdge(schema: Json, k: nat, j: nat)
    requires schema.JObject? && k < |VARIANT_KEYS| && j < VariantCount(schema, VARIANT_KEYS[k])
    ensures VariantBase(schema, VARIANT_KEYS, k) + j < VariantBase(schema, VARIANT_KEYS, k + 1) <= EdgeCount(schema)
    ensures EdgeAt(schema, VariantBase(schema, VARIANT_KEYS, k) + j)
         == Edge(None, Get(schema, VARIANT_KEYS[k]).elems[j], false)
  {
    hide Get, PropertyCount, ItemCount;
    BaseGrows(schema, VARIANT_KEYS, k + 1, |VARIANT_KEYS|);
    EdgeAmongStays(schema, VARIANT_KEYS, k + 1, |VARIANT_KEYS|, VariantBase(schema, VARIANT_KEYS, k) + j);
  }

  /** References that may still be followed: what makes the walk stop on cyclic documents. */
  ghost function Unseen(document: Json, schema: Json, seen: set<string>): set<string>
  {
    Refs(document) + Refs(schema) - seen
  }

  lemma FollowingShrinks(document: Json, schema: Json, seen: set<string>)
    requires RefOf(schema).Some? && RefOf(schema).value !in seen
    requires Resolve(document, RefOf(schema).value).Some?
    ensures var ref := RefOf(schema).value;
            Unseen(document, Resolve(document, ref).value, seen + {ref}) < Unseen(document, schema, seen)
  {
    var ref := RefOf(schema).value;
    ResolveIsInside(document, ref);
    assert ref in Unseen(document, schema, seen);
  }

  lemma DescendingKeeps(document: Json, schema: Json, i: nat, seen: set<string>)
    requires schema.JObject? && i < EdgeCount(schema)
    ensures Unseen(document, EdgeAt(schema, i).target, seen) <= Unseen(document, schema, seen)
    ensures EdgeAt(schema, i).target < schema
  {
    var target := EdgeAt(schema, i).target;
    EdgeAmongIsInside(schema, VARIANT_KEYS, |VARIANT_KEYS|, i);
  }

  /** Every property name met by the walk, in preorder, with repetitions and without any budget. */
  ghost function Visits(document: Json, schema: Json, depth: nat, seen: set<string>): seq<string>
    decreases Unseen(document, schema, seen), schema
  {
    if depth > MAX_SCHEMA_DEPTH || !schema.JObject? then []
    else match RefOf(schema)
      case Some(ref) =>
        if ref in seen || Resolve(document, ref).None? then []
        else
          FollowingShrinks(document, schema, seen);
          Visits(document, Resolve(document, ref).value, depth, seen + {ref})
      case None => VisitEdges(document, schema, EdgeCount(schema), depth, seen)
  }

  /** What the first `n` edges of a schema contribute. */
  ghost function VisitEdges(document: Json, schema: Json, n: nat, depth: nat, seen: set<string>): seq<string>
    requires schema.JObject? && n <= EdgeCount(schema)
    decreases Unseen(document, schema, seen), schema, n
  {
    hide Refs, EdgeAt, EdgeCount, Unseen;
    if n == 0 then []
    else
      DescendingKeeps(document, schema, n - 1, seen);
      var e := EdgeAt(schema, n - 1);
      VisitEdges(document, schema, n - 1, depth, seen)
      + EdgeName(e)
      + Visits(document, e.target, DepthAt(depth, e), seen)
  }

  function DepthAt(depth: nat, e: Edge): nat
  {
    if e.deeper then depth + 1 else depth
  }

  function EdgeName(e: Edge): seq<string>
  {
    match e.name case Some(n) => [n] case None => []
  }

  // ----- the walk in place -----

  /** The `names` list and the `budget` cell that every call of one operation shares. */
  class NameCollector {
    var names: seq<string>
    var budget: int

    ghost predicate Valid()
      reads this
    {
      0 <= budget && |names| + budget == MAX_SCHEMA_PROPERTIES && NoDuplicates(names)
    }

    constructor ()
      ensures Valid() && names == []
    {
      names, budget := [], MAX_SCHEMA_PROPERTIES;
    }

    /** The body of the property loop before it recurses. */
    method Offer(name: string)
      requires Valid() && budget > 0
      modifies this
      ensures Valid()
      ensures names == Absorb(old(names), [name], MAX_SCHEMA_PROPERTIES)
    {
      assert [name][1..] == [];
      if name !in names {
        names := names + [name];
        budget := budget - 1;
      }
    }
  }

  /** Taking edge `i`, as the loops of the walk do. */
  lemma AbsorbEdge(document: Json, schema: Json, i: nat, depth: nat, seen: set<string>, start: seq<string>)
    requires schema.JObject? && i < EdgeCount(schema)
    ensures Absorbed(document, schema, i + 1, depth, seen, start)
         == (var e := EdgeAt(schema, i);
             Absorb(Absorb(Absorbed(document, schema, i, depth, seen, start), EdgeName(e), MAX_SCHEMA_PROPERTIES),
                    Visits(document, e.target, DepthAt(depth, e), seen), MAX_SCHEMA_PROPERTIES))
  {
    var cap, e := MAX_SCHEMA_PROPERTIES, EdgeAt(schema, i);
    var before := VisitEdges(document, schema, i, depth, seen);
    var inner := Visits(document, e.target, DepthAt(depth, e), seen);
    AbsorbConcat(start, before + EdgeName(e), inner, cap);
    AbsorbConcat(start, before, EdgeName(e), cap);
  }

  /** The shared list after the first `n` edges of `schema`. */
  ghost function Absorbed(document: Json, schema: Json, n: nat, depth: nat, seen: set<string>,
                          start: seq<string>): seq<string>
    requires schema.JObject? && n <= EdgeCount(schema)
  {
    Absorb(start, VisitEdges(document, schema, n, depth, seen), MAX_SCHEMA_PROPERTIES)
  }

  lemma {:induction false} VisitEdgesPrefix(document: Json, schema: Json, i: nat, n: nat, depth: nat, seen: set<string>)
    requires schema.JObject? && i <= n <= EdgeCount(schema)
    ensures VisitEdges(document, schema, i, depth, seen) <= VisitEdges(document, schema, n, depth, seen)
    decreases n
  {
    hide Visits, EdgeAt, EdgeCount, Refs, EdgeName;
    if i == n {
    } else {
      VisitEdgesPrefix(document, schema, i, n - 1, depth, seen);
    }
  }

  /** Once the budget is spent the remaining edges change nothing. */
  lemma AbsorbedWhenFull(document: Json, schema: Json, i: nat, n: nat, depth: nat, seen: set<string>,
                         start: seq<string>)
    requires schema.JObject? && i <= n <= EdgeCount(schema)
    requires |Absorbed(document, schema, i, depth, seen, start)| >= MAX_SCHEMA_PROPERTIES
    ensures Absorbed(document, schema, n, depth, seen, start) == Absorbed(document, schema, i, depth, seen, start)
  {
    VisitEdgesPrefix(document, schema, i, n, depth, seen);
    var a, b := VisitEdges(document, schema, i, depth, seen), VisitEdges(document, schema, n, depth, seen);
    assert b == a + b[|a|..];
    AbsorbConcat(start, a, b[|a|..], MAX_SCHEMA_PROPERTIES);
    AbsorbWhenFull(Absorb(start, a, MAX_SCHEMA_PROPERTIES), b[|a|..], MAX_SCHEMA_PROPERTIES);
  }

  /** `_collect_property_names`: it adds exactly what the pure walk visits, up to the budget. */
  method CollectPropertyNames(schema: Json, document: Json, depth: nat, seen: set<string>, out: NameCollector)
    requires out.Valid()
    modifies out
    ensures out.Valid()
    ensures out.names == Absorb(old(out.names), Visits(document, schema, depth, seen), MAX_SCHEMA_PROPERTIES)
    decreases Unseen(document, schema, seen), schema
  {
    if depth > MAX_SCHEMA_DEPTH || out.budget <= 0 || !schema.JObject? {
      if out.budget <= 0 {
        AbsorbWhenFull(out.names, Visits(document, schema, depth, seen), MAX_SCHEMA_PROPERTIES);
      }
      return;
    }

    var ref := RefOf(schema);
    if ref.Some? {
      if ref.value in seen {
        return;
      }
      var resolved := ResolveRef(document, ref.value);
      if resolved.Some? {
        FollowingShrinks(document, schema, seen);
        CollectPropertyNames(resolved.value, document, depth, seen + {ref.value}, out);
      }
      return;
    }
    CollectSubSchemas(schema, document, depth, seen, out);
  }

  /** The rest of `_collect_property_names`, entered when the schema has no `$ref`. */
  method CollectSubSchemas(schema: Json, document: Json, depth: nat, seen: set<string>, out: NameCollector)
    requires schema.JObject? && out.Valid()
    modifies out
    ensures out.Valid()
    ensures out.names == Absorbed(document, schema, EdgeCount(schema), depth, seen, old(out.names))
    decreases Unseen(document, schema, seen), schema, 1
  {
    hide Visits, VisitEdges, Refs, Unseen, EdgeAt, Get;
    ghost var start := out.names;
    BaseGrows(schema, VARIANT_KEYS, 0, |VARIANT_KEYS|);
    var stop := CollectProperties(schema, document, depth, seen, out);
    if stop {
      AbsorbedWhenFull(document, schema, PropertyCount(schema), EdgeCount(schema), depth, seen, start);
      return;
    }
    var items := Get(schema, "items");
    if items.JObject? {
      ItemEdge(schema);
      AbsorbEdge(document, schema, PropertyCount(schema), depth, seen, start);
      DescendingKeeps(document, schema, PropertyCount(schema), seen);
      CollectPropertyNames(items, document, depth + 1, seen, out);
    }
    for k := 0 to |VARIANT_KEYS|
      invariant out.Valid()
      invariant VariantBase(schema, VARIANT_KEYS, k) <= EdgeCount(schema)
      invariant out.names == Absorbed(document, schema, VariantBase(schema, VARIANT_KEYS, k), depth, seen, start)
    {
      BaseGrows(schema, VARIANT_KEYS, k + 1, |VARIANT_KEYS|);
      CollectVariants(schema, k, document, depth, seen, out, start);
    }
  }

  /** The property loop; `stop` is its early return when the budget is spent. */
  method CollectProperties(schema: Json, document: Json, depth: nat, seen: set<string>, out: NameCollector)
    returns (stop: bool)
    requires schema.JObject? && out.Valid()
    modifies out
    ensures out.Valid()
    ensures PropertyCount(schema) <= EdgeCount(schema)
    ensures out.names == Absorbed(document, schema, PropertyCount(schema), depth, seen, old(out.names))
    ensures stop ==> out.budget == 0
    decreases Unseen(document, schema, seen), schema, 0
  {
    hide Visits, Refs, Unseen, EdgeAt, Get;
    ghost var start := out.names;
    assert VisitEdges(document, schema, 0, depth, seen) == [];
    BaseGrows(schema, VARIANT_KEYS, 0, |VARIANT_KEYS|);
    var properties := Get(schema, "properties");
    if properties.JObject? {
      for i := 0 to |properties.fields|
        invariant out.Valid()
        invariant out.names == Absorbed(document, schema, i, depth, seen, start)
      {
        if out.budget <= 0 {
          AbsorbedWhenFull(document, schema, i, PropertyCount(schema), depth, seen, start);
          return true;
        }
        PropertyEdge(schema, i);
        AbsorbEdge(document, schema, i, depth, seen, start);
        DescendingKeeps(document, schema, i, seen);
        out.Offer(properties.fields[i].key);
        CollectPropertyNames(properties.fields[i].value, document, depth + 1, seen, out);
      }
    }
    stop := false;
  }

  /** The loop over the variants under the `k`-th key. */
  method CollectVariants(schema: Json, k: nat, document: Json, depth: nat, seen: set<string>, out: NameCollector,
                         ghost start: seq<string>)
    requires schema.JObject? && out.Valid() && k < |VARIANT_KEYS|
    requires VariantBase(schema, VARIANT_KEYS, k + 1) <= EdgeCount(schema)
    requires out.names == Absorbed(document, schema, VariantBase(schema, VARIANT_KEYS, k), depth, seen, start)
    modifies out
    ensures out.Valid()
    ensures out.names == Absorbed(document, schema, VariantBase(schema, VARIANT_KEYS, k + 1), depth, seen, start)
    decreases Unseen(document, schema, seen), schema, 0
  {
    hide Visits, VisitEdges, EdgeAt, EdgeCount, Refs, Unseen, Get;
    ghost var base := VariantBase(schema, VARIANT_KEYS, k);
    assert VariantBase(schema, VARIANT_KEYS, k + 1) == base + VariantCount(schema, VARIANT_KEYS[k]);
    var variants := Get(schema, VARIANT_KEYS[k]);
    if variants.JArray? {
      for j := 0 to |variants.elems|
        invariant out.Valid()
        invariant out.names == Absorbed(document, schema, base + j, depth, seen, start)
      {
        VariantEdge(schema, k, j);
        AbsorbEdge(document, schema, base + j, depth, seen, start);
        DescendingKeeps(document, schema, base + j, seen);
        CollectPropertyNames(variants.elems[j], document, depth, seen, out);
      }
    }
  }
}

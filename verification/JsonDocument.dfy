/**
 A parsed JSON document and the local reference lookup of
 src/apim_mcp/index/builder.py.  A Python dict keeps its insertion order, so an
 object is a sequence of fields.
 */
module JsonDocument {
  import opened Options

  datatype Field = Field(key: string, value: Json)

  datatype Json =
    | JNull
    | JBool(b: bool)
    | JNumber(n: int)
    | JString(s: string)
    | JArray(elems: seq<Json>)
    | JObject(fields: seq<Field>)

  /** The position of the first field called `key`, or |fields|. */
  function FieldIndex(fields: seq<Field>, key: string): (i: nat)
    ensures i <= |fields|
    ensures i < |fields| ==> fields[i].key == key
    ensures forall k :: 0 <= k < i ==> fields[k].key != key
  {
    if fields == [] then 0
    else if fields[0].key == key then 0
    else 1 + FieldIndex(fields[1..], key)
  }

  /** `dict.get`: a missing key reads as null, as Python's None does. */
  function Get(j: Json, key: string): Json
    requires j.JObject?
  {
    var i := FieldIndex(j.fields, key);
    if i < |j.fields| then j.fields[i].value else JNull
  }

  /** The `$ref` of an object schema, when it is a string. */
  function RefOf(j: Json): Option<string>
  {
    if j.JObject? && Get(j, "$ref").JString? then Some(Get(j, "$ref").s) else None
  }

  /** Every string that occurs as the `$ref` of some object inside `j`. */
  ghost function Refs(j: Json): set<string>
  {
    match j
    case JObject(fields) =>
      (if RefOf(j).Some? then {RefOf(j).value} else {})
      + (set f, r | f in fields && r in Refs(f.value) :: r)
    case JArray(elems) => set e, r | e in elems && r in Refs(e) :: r
    case _ => {}
  }

  lemma GetIsInside(j: Json, key: string)
    requires j.JObject?
    ensures Get(j, key) == JNull || Get(j, key) < j
    ensures Refs(Get(j, key)) <= Refs(j)
  {
    var i := FieldIndex(j.fields, key);
    if i < |j.fields| {
      assert j.fields[i] in j.fields;
    }
  }

  // ----- local references -----

  /** Python's `text.split(sep)` for a one-character separator. */
  function SplitOn(text: string, sep: char): (parts: seq<string>)
    ensures |parts| >= 1
    ensures forall p :: p in parts ==> sep !in p
  {
    if text == [] then [[]]
    else
      var rest := SplitOn(text[1..], sep);
      if text[0] == sep then [[]] + rest
      else [[text[0]] + rest[0]] + rest[1..]
  }

  /** Walk down from `node` along object keys; anything else on the way gives null. */
  function Descend(node: Json, parts: seq<string>): Json
    decreases |parts|
  {
    if parts == [] then node
    else if !node.JObject? then JNull
    else Descend(Get(node, parts[0]), parts[1..])
  }

  function Resolve(document: Json, ref: string): Option<Json>
  {
    if !("#/" <= ref) then None
    else
      var node := Descend(document, SplitOn(ref[2..], '/'));
      if node.JObject? then Some(node) else None
  }

  /** The loop of `_resolve_ref`. */
  method ResolveRef(document: Json, ref: string) returns (r: Option<Json>)
    ensures r == Resolve(document, ref)
  {
    if !("#/" <= ref) {
      return None;
    }
    var node := document;
    var parts := SplitOn(ref[2..], '/');
    for i := 0 to |parts|
      invariant Descend(node, parts[i..]) == Descend(document, parts)
    {
      if !node.JObject? {
        return None;
      }
      assert parts[i..][1..] == parts[i + 1..];
      node := Get(node, parts[i]);
    }
    r := if node.JObject? then Some(node) else None;
  }

  function JoinOn(parts: seq<string>, sep: char): string
    requires parts != []
  {
    if |parts| == 1 then parts[0] else parts[0] + [sep] + JoinOn(parts[1..], sep)
  }

  lemma {:induction false} SplitPart(part: string, sep: char, rest: string)
    requires sep !in part
    ensures SplitOn(part + [sep] + rest, sep) == [part] + SplitOn(rest, sep)
    ensures SplitOn(part, sep) == [part]
  {
    if part == [] {
      assert part + [sep] + rest == [sep] + rest;
    } else {
      assert (part + [sep] + rest)[1..] == part[1..] + [sep] + rest;
      SplitPart(part[1..], sep, rest);
      assert part == [part[0]] + part[1..];
    }
  }

  lemma {:induction false} SplitJoined(parts: seq<string>, sep: char)
    requires parts != [] && forall p :: p in parts ==> sep !in p
    ensures SplitOn(JoinOn(parts, sep), sep) == parts
  {
    if |parts| == 1 {
      SplitPart(parts[0], sep, []);
    } else {
      SplitPart(parts[0], sep, JoinOn(parts[1..], sep));
      SplitJoined(parts[1..], sep);
    }
  }

  lemma {:induction false} JoinSplit(text: string, sep: char)
    ensures JoinOn(SplitOn(text, sep), sep) == text
  {
    if text == [] {
    } else {
      JoinSplit(text[1..], sep);
      var rest := SplitOn(text[1..], sep);
      if text[0] == sep {
        assert ([[]] + rest)[1..] == rest;
        assert text == [] + [sep] + text[1..];
      } else {
        assert text == [text[0]] + text[1..];
        assert ([[text[0]] + rest[0]] + rest[1..])[1..] == rest[1..];
      }
    }
  }

  // ----- what a reference means -----

  /** The first field of `j` called `key` holds `v`. */
  ghost predicate Holds(j: Json, key: string, v: Json)
  {
    && j.JObject?
    && exists i :: 0 <= i < |j.fields| && j.fields[i] == Field(key, v) && IsFirst(j.fields, i)
  }

  predicate IsFirst(fields: seq<Field>, i: nat)
    requires i < |fields|
  {
    forall k :: 0 <= k < i ==> fields[k].key != fields[i].key
  }

  lemma GetHolds(j: Json, key: string, v: Json)
    requires j.JObject?
    ensures Holds(j, key, v) ==> Get(j, key) == v
    ensures Get(j, key) == v && v != JNull ==> Holds(j, key, v)
  {
    var i := FieldIndex(j.fields, key);
    if i < |j.fields| {
      assert j.fields[i] == Field(key, j.fields[i].value) && IsFirst(j.fields, i);
    }
  }

  /** `nodes` leads down from `from` to `to`, one object key at a time. */
  ghost predicate IsChain(nodes: seq<Json>, keys: seq<string>, from: Json, to: Json)
  {
    && |nodes| == |keys| + 1 && nodes[0] == from && nodes[|keys|] == to
    && forall i :: 0 <= i < |keys| ==> Holds(nodes[i], keys[i], nodes[i + 1])
  }

  /** `keys` lead down from `from` to the object `to`. */
  ghost predicate LeadsTo(keys: seq<string>, from: Json, to: Json)
  {
    to.JObject? && exists nodes :: IsChain(nodes, keys, from, to)
  }

  /** `ref` spells out, after `#/` and with `/` between them, keys that lead from the document to `to`. */
  ghost predicate PointsAt(document: Json, ref: string, to: Json)
  {
    exists keys: seq<string> :: IsSpelling(ref, keys) && LeadsTo(keys, document, to)
  }

  ghost predicate IsSpelling(ref: string, keys: seq<string>)
  {
    keys != [] && (forall key :: key in keys ==> '/' !in key) && ref == "#/" + JoinOn(keys, '/')
  }

  lemma {:induction false} DescendLeads(from: Json, keys: seq<string>, to: Json)
    requires to.JObject?
    ensures Descend(from, keys) == to <==> LeadsTo(keys, from, to)
    decreases |keys|
  {
    if keys == [] {
      assert from == to ==> IsChain([from], keys, from, to);
    } else {
      if from.JObject? && Descend(from, keys) == to {
        var next := Get(from, keys[0]);
        DescendLeads(next, keys[1..], to);
        var nodes :| IsChain(nodes, keys[1..], next, to);
        DescendFromNull(keys[1..]);
        GetHolds(from, keys[0], next);
        var all := [from] + nodes;
        assert forall i :: 0 < i < |keys| ==> keys[i] == keys[1..][i - 1] && all[i] == nodes[i - 1];
        assert IsChain(all, keys, from, to);
      }
      if LeadsTo(keys, from, to) {
        var nodes :| IsChain(nodes, keys, from, to);
        GetHolds(from, keys[0], nodes[1]);
        var rest := nodes[1..];
        assert forall i :: 0 <= i < |keys| - 1 ==> Holds(rest[i], keys[1..][i], rest[i + 1]);
        assert IsChain(rest, keys[1..], nodes[1], to);
        DescendLeads(nodes[1], keys[1..], to);
      }
    }
  }

  lemma DescendFromNull(keys: seq<string>)
    ensures Descend(JNull, keys) == JNull
  {
  }

  /** A reference resolves to an object if and only if it spells out keys that lead there. */
  lemma ResolveExactly(document: Json, ref: string, to: Json)
    ensures Resolve(document, ref) == Some(to) <==> PointsAt(document, ref, to)
  {
    hide Holds, LeadsTo, Descend;
    if Resolve(document, ref) == Some(to) {
      var keys := SplitOn(ref[2..], '/');
      JoinSplit(ref[2..], '/');
      assert ref == "#/" + ref[2..];
      assert IsSpelling(ref, keys);
      DescendLeads(document, keys, to);
    }
    if PointsAt(document, ref, to) {
      var keys :| IsSpelling(ref, keys) && LeadsTo(keys, document, to);
      SplitJoined(keys, '/');
      assert ref[2..] == JoinOn(keys, '/');
      assert to.JObject? by { LeadsToObject(keys, document, to); }
      DescendLeads(document, keys, to);
    }
  }

  lemma LeadsToObject(keys: seq<string>, from: Json, to: Json)
    requires LeadsTo(keys, from, to)
    ensures to.JObject?
  {
  }

  /** For keys without a slash: the reference that spells them out resolves exactly where they lead. */
  lemma ResolveFollowsKeys(document: Json, keys: seq<string>, to: Json)
    requires keys != [] && forall key :: key in keys ==> '/' !in key
    ensures Resolve(document, "#/" + JoinOn(keys, '/')) == Some(to) <==> LeadsTo(keys, document, to)
  {
    hide Holds, LeadsTo, Descend;
    var ref := "#/" + JoinOn(keys, '/');
    SplitJoined(keys, '/');
    assert ref[2..] == JoinOn(keys, '/');
    if to.JObject? {
      DescendLeads(document, keys, to);
    } else if LeadsTo(keys, document, to) {
      LeadsToObject(keys, document, to);
    }
  }

  lemma {:induction false} DescendIsInside(node: Json, parts: seq<string>)
    ensures Refs(Descend(node, parts)) <= Refs(node)
    decreases |parts|
  {
    if parts != [] && node.JObject? {
      GetIsInside(node, parts[0]);
      DescendIsInside(Get(node, parts[0]), parts[1..]);
    }
  }

  /** A resolved reference lies inside the document: it brings no reference of its own. */
  lemma ResolveIsInside(document: Json, ref: string)
    requires Resolve(document, ref).Some?
    ensures Refs(Resolve(document, ref).value) <= Refs(document)
  {
    DescendIsInside(document, SplitOn(ref[2..], '/'));
  }
}

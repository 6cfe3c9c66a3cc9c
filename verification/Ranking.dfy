/**
 Ranking and API deduplication of src/apim_mcp/index/search.py.  Scores are only ever
 compared, so BM25 is left out and a score is any real number.
 */
module Ranking {
  datatype Entry = Entry(service: string, apiId: string, operationId: string)
  datatype Hit = Hit(score: real, entry: Entry)

  /** One service's index with the scores of a query; the zip of `_rank` is strict. */
  datatype ScoredIndex = ScoredIndex(scores: seq<real>, entries: seq<Entry>)

  function KeyOf(h: Hit): (string, string)
  {
    (h.entry.service, h.entry.apiId)
  }

  function Zip(index: ScoredIndex): (hits: seq<Hit>)
    requires |index.scores| == |index.entries|
    ensures |hits| == |index.entries|
    ensures forall i :: 0 <= i < |hits| ==> hits[i].score == index.scores[i] && hits[i].entry == index.entries[i]
  {
    seq(|index.entries|, i requires 0 <= i < |index.entries| => Hit(index.scores[i], index.entries[i]))
  }

  // ----- Python's stable descending sort -----

  ghost predicate Descending(s: seq<Hit>)
  {
    forall i, j :: 0 <= i < j < |s| ==> s[i].score >= s[j].score
  }

  function Insert(h: Hit, s: seq<Hit>): seq<Hit>
  {
    if s == [] || s[0].score <= h.score then [h] + s else [s[0]] + Insert(h, s[1..])
  }

  /** `sorted(hits, key=score, reverse=True)` */
  function SortDescending(s: seq<Hit>): seq<Hit>
  {
    if s == [] then [] else Insert(s[0], SortDescending(s[1..]))
  }

  /** The hits with a given score, in order. */
  function OfScore(s: seq<Hit>, v: real): seq<Hit>
  {
    if s == [] then []
    else if s[0].score == v then [s[0]] + OfScore(s[1..], v)
    else OfScore(s[1..], v)
  }

  /** What a stable descending sort is: ordered, and no two hits of equal score change places. */
  ghost predicate IsStableSortOf(t: seq<Hit>, s: seq<Hit>)
  {
    Descending(t) && forall v :: OfScore(t, v) == OfScore(s, v)
  }

  lemma {:induction false} InsertIsStable(h: Hit, s: seq<Hit>, v: real)
    requires Descending(s)
    ensures Descending(Insert(h, s))
    ensures forall x :: x in Insert(h, s) ==> x == h || x in s
    ensures OfScore(Insert(h, s), v) == OfScore([h] + s, v)
  {
    assert ([h] + s)[1..] == s;
    if s != [] && s[0].score > h.score {
      InsertIsStable(h, s[1..], v);
      var rest := Insert(h, s[1..]);
      assert ([s[0]] + rest)[1..] == rest;
      assert ([h] + s[1..])[1..] == s[1..];
    }
  }

  lemma {:induction false} SortIsStable(s: seq<Hit>)
    ensures IsStableSortOf(SortDescending(s), s)
  {
    if s == [] {
    } else {
      SortIsStable(s[1..]);
      var sorted := SortDescending(s[1..]);
      InsertIsStable(s[0], sorted, 0.0);
      forall v
        ensures OfScore(SortDescending(s), v) == OfScore(s, v)
      {
        InsertIsStable(s[0], sorted, v);
        assert ([s[0]] + sorted)[1..] == sorted;
      }
    }
  }

  lemma {:induction false} OfScoreMember(s: seq<Hit>, h: Hit)
    ensures h in OfScore(s, h.score) <==> h in s
  {
    if s == [] {
    } else {
      OfScoreMember(s[1..], h);
      assert s == [s[0]] + s[1..];
    }
  }

  lemma {:induction false} OfScoreOnly(s: seq<Hit>, v: real)
    ensures forall h :: h in OfScore(s, v) ==> h.score == v && h in s
  {
    if s == [] {
    } else {
      OfScoreOnly(s[1..], v);
    }
  }

  lemma OfFirstScore(s: seq<Hit>)
    ensures s != [] ==> exists v :: v == s[0].score && OfScore(s, v) != []
  {
    if s != [] {
      OfScoreMember(s, s[0]);
    }
  }

  lemma FirstIsHighest(s: seq<Hit>, h: Hit)
    requires Descending(s) && s != [] && h in s
    ensures s[0].score >= h.score
  {
  }

  /** There is only one stable descending sort. */
  lemma {:induction false} StableSortIsUnique(t: seq<Hit>, u: seq<Hit>)
    requires Descending(t) && Descending(u)
    requires forall v :: OfScore(t, v) == OfScore(u, v)
    ensures t == u
    decreases |t|
  {
    if t == [] {
      OfFirstScore(u);
    } else {
      OfScoreMember(t, t[0]);
      OfScoreMember(u, t[0]);
      OfScoreMember(u, u[0]);
      OfScoreMember(t, u[0]);
      assert t[0].score == u[0].score;
      assert OfScore(t, t[0].score)[0] == t[0];
      assert OfScore(u, u[0].score)[0] == u[0];
      forall v
        ensures OfScore(t[1..], v) == OfScore(u[1..], v)
      {
        assert OfScore(t, v) == OfScore(u, v);
        if v == t[0].score {
          assert OfScore(t, v)[1..] == OfScore(t[1..], v);
          assert OfScore(u, v)[1..] == OfScore(u[1..], v);
        }
      }
      StableSortIsUnique(t[1..], u[1..]);
      assert t == [t[0]] + t[1..] && u == [u[0]] + u[1..];
    }
  }

  lemma SortIsTheStableSort(t: seq<Hit>, s: seq<Hit>)
    requires IsStableSortOf(t, s)
    ensures t == SortDescending(s)
  {
    SortIsStable(s);
    StableSortIsUnique(t, SortDescending(s));
  }

  // ----- sorting twice -----

  function Flatten(lists: seq<seq<Hit>>): seq<Hit>
  {
    if lists == [] then [] else Flatten(lists[..|lists| - 1]) + lists[|lists| - 1]
  }

  function AllSorted(lists: seq<seq<Hit>>): (r: seq<seq<Hit>>)
    ensures |r| == |lists|
    ensures forall i :: 0 <= i < |lists| ==> r[i] == SortDescending(lists[i])
  {
    seq(|lists|, i requires 0 <= i < |lists| => SortDescending(lists[i]))
  }

  lemma {:induction false} OfScoreSum(a: seq<Hit>, b: seq<Hit>, v: real)
    ensures OfScore(a + b, v) == OfScore(a, v) + OfScore(b, v)
  {
    if a == [] {
      assert a + b == b;
    } else {
      assert (a + b)[1..] == a[1..] + b;
      OfScoreSum(a[1..], b, v);
    }
  }

  lemma {:induction false} OfScoreAfterSorting(lists: seq<seq<Hit>>, v: real)
    ensures OfScore(Flatten(AllSorted(lists)), v) == OfScore(Flatten(lists), v)
  {
    if lists == [] {
    } else {
      var front, last := lists[..|lists| - 1], lists[|lists| - 1];
      OfScoreAfterSorting(front, v);
      assert AllSorted(lists)[..|lists| - 1] == AllSorted(front);
      OfScoreSum(Flatten(front), last, v);
      OfScoreSum(Flatten(AllSorted(front)), SortDescending(last), v);
      SortIsStable(last);
    }
  }

  /** Ranking each service and then all of them is one stable sort of everything. */
  lemma SortingTwiceIsSortingOnce(lists: seq<seq<Hit>>)
    ensures SortDescending(Flatten(AllSorted(lists))) == SortDescending(Flatten(lists))
  {
    var once := SortDescending(Flatten(AllSorted(lists)));
    SortIsStable(Flatten(AllSorted(lists)));
    forall v
      ensures OfScore(once, v) == OfScore(Flatten(lists), v)
    {
      OfScoreAfterSorting(lists, v);
    }
    SortIsTheStableSort(once, Flatten(lists));
  }

  // ----- one hit per API -----

  /** The hits of one API of one service, in order. */
  function OfKey(s: seq<Hit>, key: (string, string)): seq<Hit>
  {
    if s == [] then []
    else if s[0].entry.service == key.0 && s[0].entry.apiId == key.1 then [s[0]] + OfKey(s[1..], key)
    else OfKey(s[1..], key)
  }

  ghost predicate HasKey(s: seq<Hit>, key: (string, string))
  {
    exists i :: 0 <= i < |s| && KeyOf(s[i]) == key
  }

  /** The first hit of every (service, API), in order. */
  function FirstPerKey(s: seq<Hit>): (r: seq<Hit>)
  {
    if s == [] then []
    else
      var r := FirstPerKey(s[..|s| - 1]);
      var last := s[|s| - 1];
      if exists h :: h in s[..|s| - 1] && KeyOf(h) == KeyOf(last) then r else r + [last]
  }

  /** The first hit of the best score. */
  function FirstBest(s: seq<Hit>): (best: Hit)
    requires s != []
    ensures best in s
    ensures forall h :: h in s ==> h.score <= best.score
  {
    if |s| == 1 then s[0]
    else
      var rest := FirstBest(s[1..]);
      if s[0].score >= rest.score then s[0] else rest
  }

  lemma {:induction false} FirstBestIsFirstOfScore(s: seq<Hit>)
    requires s != []
    ensures var of := OfScore(s, FirstBest(s).score);
              of != [] && of[0] == FirstBest(s)
  {
    OfScoreMember(s, FirstBest(s));
    if |s| == 1 {
    } else {
      FirstBestIsFirstOfScore(s[1..]);
    }
  }

  lemma {:induction false} OfScoreOfKey(s: seq<Hit>, key: (string, string), v: real)
    ensures OfScore(OfKey(s, key), v) == OfKey(OfScore(s, v), key)
  {
    if s == [] {
    } else {
      OfScoreOfKey(s[1..], key, v);
      var tail, scored := OfKey(s[1..], key), OfScore(s[1..], v);
      assert ([s[0]] + tail)[1..] == tail && ([s[0]] + scored)[1..] == scored;
    }
  }

  lemma {:induction false} OfKeyDescending(s: seq<Hit>, key: (string, string))
    requires Descending(s)
    ensures Descending(OfKey(s, key))
    ensures forall h :: h in OfKey(s, key) ==> h in s
  {
    if s == [] {
    } else {
      OfKeyDescending(s[1..], key);
      forall h | h in OfKey(s[1..], key)
        ensures s[0].score >= h.score
      {
        FirstIsHighest(s, h);
      }
    }
  }

  /** Sorting keeps the hits of one API in their own stable order. */
  lemma SortOfKey(s: seq<Hit>, key: (string, string))
    ensures OfKey(SortDescending(s), key) == SortDescending(OfKey(s, key))
  {
    SortIsStable(s);
    OfKeyDescending(SortDescending(s), key);
    forall v
      ensures OfScore(OfKey(SortDescending(s), key), v) == OfScore(OfKey(s, key), v)
    {
      OfScoreOfKey(SortDescending(s), key, v);
      OfScoreOfKey(s, key, v);
    }
    SortIsTheStableSort(OfKey(SortDescending(s), key), OfKey(s, key));
  }

  /** A stable sort starts with the first best hit. */
  lemma SortStartsWithFirstBest(s: seq<Hit>)
    requires s != []
    ensures SortDescending(s) != [] && SortDescending(s)[0] == FirstBest(s)
  {
    SortIsStable(s);
    var t, best := SortDescending(s), FirstBest(s);
    FirstBestIsFirstOfScore(s);
    OfScoreMember(t, best);
    OfScoreMember(s, best);
    assert best in OfScore(t, best.score);
    OfScoreOnly(s, t[0].score);
    OfScoreMember(t, t[0]);
    assert t[0] in OfScore(s, t[0].score);
    assert t[0].score == best.score;
    assert OfScore(t, best.score)[0] == t[0];
  }

  lemma {:induction false} OfKeyNonempty(s: seq<Hit>, key: (string, string))
    ensures OfKey(s, key) != [] <==> HasKey(s, key)
    ensures forall h :: h in OfKey(s, key) ==> KeyOf(h) == key
  {
    if s == [] {
    } else {
      OfKeyNonempty(s[1..], key);
      if HasKey(s, key) && KeyOf(s[0]) != key {
        var i :| 0 <= i < |s| && KeyOf(s[i]) == key;
        assert KeyOf(s[1..][i - 1]) == key;
      }
    }
  }

  lemma {:induction false} OfKeySum(a: seq<Hit>, b: seq<Hit>, key: (string, string))
    ensures OfKey(a + b, key) == OfKey(a, key) + OfKey(b, key)
  {
    if a == [] {
      assert a + b == b;
    } else {
      assert (a + b)[1..] == a[1..] + b;
      OfKeySum(a[1..], b, key);
    }
  }

  /** Deduplication keeps, for every API, exactly its first hit. */
  lemma {:induction false} FirstPerKeyKeepsFirst(s: seq<Hit>, key: (string, string))
    ensures OfKey(FirstPerKey(s), key) == if OfKey(s, key) == [] then [] else [OfKey(s, key)[0]]
  {
    if s == [] {
    } else {
      var front, last := s[..|s| - 1], s[|s| - 1];
      assert s == front + [last];
      FirstPerKeyKeepsFirst(front, key);
      OfKeySum(front, [last], key);
      OfKeySum(FirstPerKey(front), [last], key);
      assert [last][1..] == [];
      OfKeyNonempty(front, KeyOf(last));
      assert HasKey(front, KeyOf(last)) <==> exists h :: h in front && KeyOf(h) == KeyOf(last);
    }
  }

  /** Deduplication only drops hits: the order stays. */
  lemma {:induction false} FirstPerKeyDescending(s: seq<Hit>)
    requires Descending(s)
    ensures Descending(FirstPerKey(s))
    ensures forall h :: h in FirstPerKey(s) ==> h in s
  {
    if s == [] {
    } else {
      FirstPerKeyDescending(s[..|s| - 1]);
      forall h | h in FirstPerKey(s[..|s| - 1])
        ensures h.score >= s[|s| - 1].score
      {
        var i :| 0 <= i < |s| - 1 && s[i] == h;
      }
    }
  }

  /**
   Scope `apis`: over all hits of all services, the result is in descending order and
   holds every (service, API) exactly once, through its first best-scoring operation.
   */
  lemma ApisScopeKeepsBest(lists: seq<seq<Hit>>, key: (string, string))
    ensures var all, result := Flatten(lists), FirstPerKey(SortDescending(Flatten(AllSorted(lists))));
              && Descending(result)
              && OfKey(result, key) == if OfKey(all, key) == [] then [] else [FirstBest(OfKey(all, key))]
  {
    hide SortDescending, FirstPerKey, FirstBest, OfKey, Flatten, Descending;
    SortingTwiceIsSortingOnce(lists);
    var all := Flatten(lists);
    var ranked := SortDescending(all);
    SortIsStable(all);
    FirstPerKeyDescending(ranked);
    FirstPerKeyKeepsFirst(ranked, key);
    SortOfKey(all, key);
    if OfKey(all, key) == [] {
      SortOfNothing();
    } else {
      SortStartsWithFirstBest(OfKey(all, key));
    }
  }

  lemma SortOfNothing()
    ensures SortDescending([]) == []
  {
  }

  lemma {:induction false} FlattenSum(a: seq<seq<Hit>>, b: seq<seq<Hit>>)
    ensures Flatten(a + b) == Flatten(a) + Flatten(b)
    decreases |b|
  {
    if b == [] {
      assert a + b == a;
    } else {
      assert (a + b)[..|a + b| - 1] == a + b[..|b| - 1];
      FlattenSum(a, b[..|b| - 1]);
    }
  }

  /** All hits of one service stand together, behind those of the services before it. */
  lemma ServicesInOrder(lists: seq<seq<Hit>>, i: nat)
    requires i < |lists|
    ensures Flatten(lists) == Flatten(lists[..i]) + lists[i] + Flatten(lists[i + 1..])
    ensures Flatten([]) == []
  {
    hide Flatten;
    assert lists == lists[..i] + [lists[i]] + lists[i + 1..];
    FlattenSum(lists[..i] + [lists[i]], lists[i + 1..]);
    FlattenSum(lists[..i], [lists[i]]);
    FlattenOne(lists[i]);
  }

  lemma FlattenOne(list: seq<Hit>)
    ensures Flatten([]) == [] && Flatten([list]) == list
  {
    assert [list][..0] == [];
  }

  // ----- the loops of `search` -----

  function AllHits(indexes: seq<ScoredIndex>): (r: seq<seq<Hit>>)
    requires forall i :: 0 <= i < |indexes| ==> |indexes[i].scores| == |indexes[i].entries|
    ensures |r| == |indexes|
    ensures forall i :: 0 <= i < |indexes| ==> r[i] == Zip(indexes[i])
  {
    seq(|indexes|, i requires 0 <= i < |indexes| => Zip(indexes[i]))
  }

  method DedupeApis(ranked: seq<Hit>) returns (deduped: seq<Hit>)
    ensures deduped == FirstPerKey(ranked)
  {
    var seen: set<(string, string)> := {};
    deduped := [];
    for i := 0 to |ranked|
      invariant deduped == FirstPerKey(ranked[..i])
      invariant forall key :: key in seen <==> exists h :: h in ranked[..i] && KeyOf(h) == key
    {
      assert ranked[..i + 1] == ranked[..i] + [ranked[i]];
      if KeyOf(ranked[i]) !in seen {
        seen := seen + {KeyOf(ranked[i])};
        deduped := deduped + [ranked[i]];
      }
    }
    assert ranked[..|ranked|] == ranked;
  }

  /** The ranking part of `search`, up to the limit cut. */
  method RankHits(indexes: seq<ScoredIndex>, apisOnly: bool, limit: nat) returns (top: seq<Hit>)
    requires forall i :: 0 <= i < |indexes| ==> |indexes[i].scores| == |indexes[i].entries|
    ensures var ranked := SortDescending(Flatten(AllHits(indexes)));
              var result := if apisOnly then FirstPerKey(ranked) else ranked;
              top == if limit < |result| then result[..limit] else result
  {
    hide SortDescending, FirstPerKey, Zip;
    var ranked: seq<Hit> := [];
    ghost var lists := AllHits(indexes);
    for i := 0 to |indexes|
      invariant ranked == Flatten(AllSorted(lists[..i]))
    {
      assert AllSorted(lists[..i + 1])[..i] == AllSorted(lists[..i]);
      ranked := ranked + SortDescending(Zip(indexes[i]));
    }
    assert lists[..|indexes|] == lists;
    SortingTwiceIsSortingOnce(lists);
    ranked := SortDescending(ranked);
    if apisOnly {
      ranked := DedupeApis(ranked);
    }
    top := if limit < |ranked| then ranked[..limit] else ranked;
  }
}

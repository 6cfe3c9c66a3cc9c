/** Duplicate-free lists of names with a cap, as the walk's shared list and budget keep them. */
module NameLists {
  function Take<T>(s: seq<T>, n: nat): seq<T>
  {
    if |s| <= n then s else s[..n]
  }

  ghost predicate NoDuplicates<T>(s: seq<T>)
  {
    forall i, j :: 0 <= i < j < |s| ==> s[i] != s[j]
  }

  /** The first occurrence of every element, in order. */
  function FirstOccurrences<T(==,!new)>(s: seq<T>): (r: seq<T>)
    ensures NoDuplicates(r)
    ensures forall x :: x in r <==> x in s
  {
    if s == [] then []
    else
      var r := FirstOccurrences(s[..|s| - 1]);
      var last := s[|s| - 1];
      assert s == s[..|s| - 1] + [last];
      if last in r then r else r + [last]
  }

  lemma {:induction false} FirstOccurrencesInOrder<T(!new)>(s: seq<T>, i: nat, j: nat, k: nat)
    requires var r := FirstOccurrences(s); i < j < |r| && k < |s| && s[k] == r[j]
    ensures FirstOccurrences(s)[i] in s[..k]
  {
    var front := s[..|s| - 1];
    var r := FirstOccurrences(front);
    assert front[..k] == s[..k];
    if j < |r| {
      if k < |front| {
        FirstOccurrencesInOrder(front, i, j, k);
      } else {
        assert r[i] in front;
      }
    } else {
      assert s[k] !in front;
    }
  }

  /** Append the new elements of `visits` one by one until there are `cap` of them. */
  function Absorb<T(==)>(names: seq<T>, visits: seq<T>, cap: nat): seq<T>
    decreases |visits|
  {
    if visits == [] then names
    else
      var v := visits[0];
      Absorb(if |names| < cap && v !in names then names + [v] else names, visits[1..], cap)
  }

  lemma {:induction false} AbsorbConcat<T>(names: seq<T>, a: seq<T>, b: seq<T>, cap: nat)
    ensures Absorb(names, a + b, cap) == Absorb(Absorb(names, a, cap), b, cap)
    decreases |a|
  {
    if a == [] {
      assert a + b == b;
    } else {
      assert (a + b)[1..] == a[1..] + b;
      var v := a[0];
      AbsorbConcat(if |names| < cap && v !in names then names + [v] else names, a[1..], b, cap);
    }
  }

  lemma {:induction false} AbsorbWhenFull<T>(names: seq<T>, visits: seq<T>, cap: nat)
    requires |names| >= cap
    ensures Absorb(names, visits, cap) == names
    decreases |visits|
  {
    if visits == [] {
    } else {
      AbsorbWhenFull(names, visits[1..], cap);
    }
  }

  /** Absorbing into an empty list truncates the duplicate-free list. */
  lemma {:induction false} AbsorbIsPrefix<T(!new)>(visits: seq<T>, cap: nat)
    ensures Absorb([], visits, cap) == Take(FirstOccurrences(visits), cap)
    decreases |visits|
  {
    if visits == [] {
    } else {
      var front, last := visits[..|visits| - 1], visits[|visits| - 1];
      assert visits == front + [last];
      AbsorbIsPrefix(front, cap);
      AbsorbConcat([], front, [last], cap);
      var full := FirstOccurrences(front);
      var names := Absorb([], front, cap);
      assert [last][1..] == [];
      assert Absorb(names, [last], cap) == if |names| < cap && last !in names then names + [last] else names;
    }
  }

  /** A duplicate-free list is as long as the set of its elements. */
  lemma {:induction false} DistinctSize<T(!new)>(s: seq<T>, elements: set<T>)
    requires NoDuplicates(s)
    requires forall x :: x in elements <==> x in s
    ensures |s| == |elements|
  {
    if s != [] {
      var front, last := s[..|s| - 1], s[|s| - 1];
      assert s == front + [last];
      DistinctSize(front, elements - {last});
    } else {
      assert elements == {};
    }
  }
}

/** Following `next_offset` through size-truncated pages: `_paginate` of src/apim_mcp/tools/config.py. */
module Pagination {
  import opened Options
  import opened ListEnvelope

  /** One listing: all items, the page length, the ceiling and the rendered hint. */
  datatype Listing = Listing(items: seq<string>, limit: nat, maxBytes: int, hint: string)

  function Min(a: nat, b: nat): nat
  {
    if a < b then a else b
  }

  /** Python's `items[offset : offset + limit]` */
  function Slice(l: Listing, offset: nat): seq<string>
  {
    l.items[Min(offset, |l.items|)..Min(offset + l.limit, |l.items|)]
  }

  function Paginate(l: Listing, offset: nat): Envelope
  {
    Truncated(BuildListEnvelope(Slice(l, offset), |l.items|, offset), l.maxBytes, l.hint)
  }

  method PaginateList(l: Listing, offset: nat) returns (page: Envelope)
    ensures page == Paginate(l, offset)
  {
    var envelope := BuildListEnvelope(Slice(l, offset), |l.items|, offset);
    page := ApplyTruncation(envelope, l.maxBytes, l.hint);
  }

  /** Every page is a run of items from its offset, and points just behind it unless it reached the end. */
  lemma PageIsARun(l: Listing, offset: nat)
    requires offset <= |l.items|
    ensures var page := Paginate(l, offset);
              && offset + |page.items| <= |l.items|
              && page.items == l.items[offset..offset + |page.items|]
              && page.count == |page.items|
              && page.total == |l.items|
              && page.hasMore == (offset + |page.items| < |l.items|)
              && page.nextOffset == if page.hasMore then Some(offset + |page.items|) else None
  {
    hide JsonSize, Kept;
    var slice := Slice(l, offset);
    var e := BuildListEnvelope(slice, |l.items|, offset);
    assert slice == l.items[offset..offset + |slice|];
    assert Paginate(l, offset) == Truncated(e, l.maxBytes, l.hint);
    if JsonSize(e) > l.maxBytes {
      var k := Kept(e, l.maxBytes, l.hint);
      assert slice[..k] == l.items[offset..offset + k];
      assert Paginate(l, offset) == Rewritten(e, l.hint, k);
    } else {
      assert Paginate(l, offset).items == slice;
    }
  }

  /**
   A page of at most `limit` items: all the items from the offset on that there are, when they fit as an
   envelope, and otherwise their longest prefix that does, with the flag and the hint.
   */
  lemma PageHoldsTheLimit(l: Listing, offset: nat)
    requires offset <= |l.items|
    ensures var page := Paginate(l, offset);
            var end := if offset + l.limit <= |l.items| then offset + l.limit else |l.items|;
            var whole := l.items[offset..end];
            var e := BuildListEnvelope(whole, |l.items|, offset);
            && page.offset == offset
            && (JsonSize(e) <= l.maxBytes ==> page.items == whole && page.truncated == Some(false) && page.hint == None)
            && (JsonSize(e) > l.maxBytes ==>
                  && page.truncated == Some(true) && page.hint == Some(l.hint)
                  && page.items <= whole && IsCut(e, l.maxBytes, l.hint, |page.items|))
  {
    hide JsonSize, Kept, IsCut;
    var whole := Slice(l, offset);
    var e := BuildListEnvelope(whole, |l.items|, offset);
    assert Paginate(l, offset) == Truncated(e, l.maxBytes, l.hint);
    if JsonSize(e) > l.maxBytes {
      OnlyKeptIsCut(e, l.maxBytes, l.hint, Kept(e, l.maxBytes, l.hint));
    }
  }

  // ----- walks -----

  /** The offsets a client visits: from 0, each page's next_offset. */
  ghost predicate IsWalk(l: Listing, offsets: seq<nat>)
  {
    && offsets != [] && offsets[0] == 0
    && forall i :: 0 < i < |offsets| ==> Paginate(l, offsets[i - 1]).nextOffset == Some(offsets[i])
  }

  ghost predicate IsComplete(l: Listing, offsets: seq<nat>)
  {
    IsWalk(l, offsets) && Paginate(l, offsets[|offsets| - 1]).nextOffset == None
  }

  /** A page truncated to no item at all although items remain: it points at itself. */
  ghost predicate IsStuck(l: Listing, offset: nat)
  {
    Paginate(l, offset).nextOffset == Some(offset)
  }

  /** Everything the walk has received. */
  ghost function Received(l: Listing, offsets: seq<nat>): seq<string>
  {
    if offsets == [] then []
    else Received(l, offsets[..|offsets| - 1]) + Paginate(l, offsets[|offsets| - 1]).items
  }

  lemma {:induction false} WalkPrefix(l: Listing, offsets: seq<nat>)
    requires IsWalk(l, offsets)
    ensures offsets[|offsets| - 1] <= |l.items|
    ensures Received(l, offsets[..|offsets| - 1]) == l.items[..offsets[|offsets| - 1]]
    ensures Received(l, offsets)
         == l.items[..offsets[|offsets| - 1]] + Paginate(l, offsets[|offsets| - 1]).items
  {
    hide Paginate;
    var last := offsets[|offsets| - 1];
    var before := offsets[..|offsets| - 1];
    if |offsets| == 1 {
      assert before == [];
    } else {
      assert IsWalk(l, before);
      WalkPrefix(l, before);
      var at := before[|before| - 1];
      PageIsARun(l, at);
      assert l.items[..last] == l.items[..at] + l.items[at..last];
    }
  }

  /** A completed walk has received every item exactly once, in order. */
  lemma CompleteWalkReadsEverything(l: Listing, offsets: seq<nat>)
    requires IsComplete(l, offsets)
    ensures Received(l, offsets) == l.items
  {
    hide Paginate;
    WalkPrefix(l, offsets);
    var last := offsets[|offsets| - 1];
    PageIsARun(l, last);
    assert l.items == l.items[..last] + l.items[last..];
  }

  /** Unless a page is stuck, any walk can be followed to the end. */
  lemma {:induction false} WalkToTheEnd(l: Listing, offsets: seq<nat>) returns (all: seq<nat>)
    requires IsWalk(l, offsets)
    requires forall w: seq<nat> :: IsWalk(l, w) ==> !IsStuck(l, w[|w| - 1])
    ensures IsComplete(l, all)
    decreases |l.items| - offsets[|offsets| - 1]
  {
    hide Paginate;
    WalkPrefix(l, offsets);
    var last := offsets[|offsets| - 1];
    PageIsARun(l, last);
    match Paginate(l, last).nextOffset
    case None => all := offsets;
    case Some(next) =>
      var longer := offsets + [next];
      assert IsWalk(l, longer);
      assert !IsStuck(l, last);
      all := WalkToTheEnd(l, longer);
  }

  /** Walks are deterministic: two walks agree as far as both go. */
  lemma {:induction false} WalksAgree(l: Listing, v: seq<nat>, w: seq<nat>, i: nat)
    requires IsWalk(l, v) && IsWalk(l, w) && i < |v| && i < |w|
    ensures v[i] == w[i]
  {
    hide Paginate;
    if i == 0 {
    } else {
      WalksAgree(l, v, w, i - 1);
    }
  }

  lemma {:induction false} StuckForever(l: Listing, w: seq<nat>, i: nat, j: nat)
    requires IsWalk(l, w) && i <= j < |w| && IsStuck(l, w[i])
    ensures w[j] == w[i]
  {
    hide Paginate;
    if i == j {
    } else {
      StuckForever(l, w, i, j - 1);
    }
  }

  lemma NoWalkIsLonger(l: Listing, offsets: seq<nat>, w: seq<nat>)
    requires IsComplete(l, offsets) && IsWalk(l, w)
    ensures |w| <= |offsets|
  {
    hide Paginate;
    var i := |offsets|;
    if i < |w| {
      WalksAgree(l, w, offsets, i - 1);
      WalkGoesOn(l, w, i);
    }
  }

  lemma WalkGoesOn(l: Listing, w: seq<nat>, i: nat)
    requires IsWalk(l, w) && 0 < i < |w|
    ensures Paginate(l, w[i - 1]).nextOffset == Some(w[i])
  {
    hide Paginate;
  }

  /** Following next_offset ends if and only if no page on the way is stuck. */
  lemma WalkEndsExactlyWhenNoPageIsStuck(l: Listing)
    ensures (exists offsets :: IsComplete(l, offsets))
       <==> (forall w: seq<nat> :: IsWalk(l, w) ==> !IsStuck(l, w[|w| - 1]))
  {
    hide Paginate;
    if offsets: seq<nat> :| IsComplete(l, offsets) {
      forall w: seq<nat> | IsWalk(l, w)
        ensures !IsStuck(l, w[|w| - 1])
      {
        NoWalkIsLonger(l, offsets, w);
        var i := |w| - 1;
        WalksAgree(l, w, offsets, i);
        if IsStuck(l, w[i]) {
          StuckForever(l, offsets, i, |offsets| - 1);
        }
      }
    }
    if forall w: seq<nat> :: IsWalk(l, w) ==> !IsStuck(l, w[|w| - 1]) {
      assert IsWalk(l, [0]);
      var all := WalkToTheEnd(l, [0]);
    }
  }

  /** When a page is stuck: items remain, the page as a whole is too large, and so is its first item alone. */
  lemma StuckExactlyWhen(l: Listing, offset: nat)
    requires offset <= |l.items| && l.limit >= 1
    ensures var e := BuildListEnvelope(Slice(l, offset), |l.items|, offset);
              IsStuck(l, offset) <==>
                && offset < |l.items|
                && JsonSize(e) > l.maxBytes
                && JsonSize(Tested(e, l.hint, 1)) > l.maxBytes
  {
    hide JsonSize;
    PageIsARun(l, offset);
    var e := BuildListEnvelope(Slice(l, offset), |l.items|, offset);
    if offset < |l.items| {
      KeepsLongestPrefix(e, l.maxBytes, l.hint, 1);
    }
  }

  /** The page at `offset` and its first item alone are both too large. */
  predicate TooLarge(l: Listing, offset: nat)
    requires offset < |l.items| && l.limit >= 1
  {
    var e := BuildListEnvelope(Slice(l, offset), |l.items|, offset);
    JsonSize(e) > l.maxBytes && JsonSize(Tested(e, l.hint, 1)) > l.maxBytes
  }

  /** Following next_offset ends if and only if it never comes to a page that is too large with its first item alone. */
  lemma WalkEndsExactlyWhenItemsFit(l: Listing)
    requires l.limit >= 1
    ensures (exists offsets :: IsComplete(l, offsets))
       <==> (forall w: seq<nat> :: IsWalk(l, w) && w[|w| - 1] < |l.items| ==> !TooLarge(l, w[|w| - 1]))
  {
    hide JsonSize, Paginate, IsStuck, IsComplete, TooLarge;
    forall w: seq<nat> | IsWalk(l, w)
      ensures IsStuck(l, w[|w| - 1]) <==> w[|w| - 1] < |l.items| && TooLarge(l, w[|w| - 1])
    {
      WalkPrefix(l, w);
      StuckIsTooLarge(l, w[|w| - 1]);
    }
    WalkEndsExactlyWhenNoPageIsStuck(l);
  }

  lemma StuckIsTooLarge(l: Listing, offset: nat)
    requires offset <= |l.items| && l.limit >= 1
    ensures IsStuck(l, offset) <==> offset < |l.items| && TooLarge(l, offset)
  {
    hide JsonSize, IsStuck;
    StuckExactlyWhen(l, offset);
  }

  /** Whatever the ceiling, a list of one item larger than it is never read to its end. */
  lemma AWalkThatNeverEnds(maxBytes: nat, limit: nat, hint: string)
    requires limit >= 1
    ensures var l := Listing([Padded(maxBytes)], limit, maxBytes, hint);
              IsStuck(l, 0) && !exists offsets :: IsComplete(l, offsets)
  {
    hide JsonSize, IsStuck, IsComplete, IsWalk, Padded;
    var l := Listing([Padded(maxBytes)], limit, maxBytes, hint);
    var e := BuildListEnvelope(Slice(l, 0), 1, 0);
    assert e.items == [Padded(maxBytes)];
    PaddedSize(maxBytes);
    TooLargeItem(e, hint, maxBytes);
    StuckIsTooLarge(l, 0);
    WalkEndsExactlyWhenNoPageIsStuck(l);
    assert IsWalk(l, [0]) by { StartOfWalk(l); }
    assert [0][|[0]| - 1] == 0;
  }

  lemma StartOfWalk(l: Listing)
    ensures IsWalk(l, [0])
  {
  }

  lemma TooLargeItem(e: Envelope, hint: string, maxBytes: nat)
    requires |e.items| == 1 && |e.items[0]| > maxBytes
    ensures JsonSize(e) > maxBytes && JsonSize(Tested(e, hint, 1)) > maxBytes
  {
    hide JsonSize, Render;
    RenderSize(e);
    RenderSize(Tested(e, hint, 1));
    assert e.items[..1] == e.items;
    CommasSize(e.items);
    assert e.items[..0] == [];
  }
}

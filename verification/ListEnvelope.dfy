/**
 The list envelope and its size-based truncation: src/apim_mcp/common/formatting.py and
 `_paginate` of src/apim_mcp/tools/config.py.  An item is its compact JSON text; json.dumps
 escapes everything outside ASCII, so a text's length is its size in bytes.
 */
module ListEnvelope {
  import opened Options
  import opened Decimals

  datatype Envelope = Envelope(
    total: nat,
    count: nat,
    offset: nat,
    items: seq<string>,
    hasMore: bool,
    nextOffset: Option<nat>,
    truncated: Option<bool>,
    hint: Option<string>)

  // ----- rendering -----

  function Commas(items: seq<string>): string
  {
    if items == [] then []
    else if |items| == 1 then items[0]
    else Commas(items[..|items| - 1]) + "," + items[|items| - 1]
  }

  function BoolText(b: bool): string
  {
    if b then "true" else "false"
  }

  function OffsetText(o: Option<nat>): string
  {
    match o case None => "null" case Some(n) => Decimal(n)
  }

  /** `json.dumps(data, separators=(",", ":"))` */
  function Render(e: Envelope): string
  {
    "{\"total\":" + Decimal(e.total)
    + ",\"count\":" + Decimal(e.count)
    + ",\"offset\":" + Decimal(e.offset)
    + ",\"items\":[" + Commas(e.items) + "]"
    + ",\"has_more\":" + BoolText(e.hasMore)
    + ",\"next_offset\":" + OffsetText(e.nextOffset)
    + (match e.truncated case None => "" case Some(b) => ",\"truncated\":" + BoolText(b))
    + (match e.hint case None => "" case Some(h) => ",\"hint\":" + h)
    + "}"
  }

  function JsonSize(e: Envelope): nat
  {
    |Render(e)|
  }

  // ----- building and truncating -----

  function BuildListEnvelope(items: seq<string>, total: nat, offset: nat): Envelope
  {
    var hasMore := offset + |items| < total;
    Envelope(total, |items|, offset, items, hasMore,
             if hasMore then Some(offset + |items|) else None, None, None)
  }

  /** What the truncation loop measures with the first `k` items: flags added, the rest not yet rewritten. */
  function Tested(e: Envelope, hint: string, k: nat): Envelope
    requires k <= |e.items|
  {
    e.(truncated := Some(true), hint := Some(hint), items := e.items[..k])
  }

  /** What is returned with the first `k` items: count, has_more and next_offset rewritten. */
  function Rewritten(e: Envelope, hint: string, k: nat): Envelope
    requires k <= |e.items|
  {
    var hasMore := e.offset + k < e.total;
    Tested(e, hint, k).(count := k, hasMore := hasMore, nextOffset := if hasMore then Some(e.offset + k) else None)
  }

  /** How many of the first `k` items survive popping from the end. */
  function KeptFrom(e: Envelope, maxBytes: int, hint: string, k: nat): (r: nat)
    requires k <= |e.items|
    ensures r <= k
  {
    if k > 0 && JsonSize(Tested(e, hint, k)) > maxBytes then KeptFrom(e, maxBytes, hint, k - 1) else k
  }

  function Kept(e: Envelope, maxBytes: int, hint: string): (r: nat)
    ensures r <= |e.items|
  {
    KeptFrom(e, maxBytes, hint, |e.items|)
  }

  function Truncated(e: Envelope, maxBytes: int, hint: string): Envelope
  {
    if JsonSize(e) <= maxBytes then
      e.(truncated := if e.truncated.None? then Some(false) else e.truncated)
    else Rewritten(e, hint, Kept(e, maxBytes, hint))
  }

  /** `apply_truncation` on a list envelope. */
  method ApplyTruncation(envelope: Envelope, maxBytes: int, hint: string) returns (data: Envelope)
    ensures data == Truncated(envelope, maxBytes, hint)
  {
    hide JsonSize;
    data := envelope;
    if JsonSize(data) <= maxBytes {
      if data.truncated.None? {
        data := data.(truncated := Some(false));
      }
      return;
    }
    data := data.(truncated := Some(true));
    data := data.(hint := Some(hint));
    var items := data.items;
    assert items == envelope.items[..|items|];
    while items != [] && JsonSize(data.(items := items)) > maxBytes
      invariant |items| <= |envelope.items| && items == envelope.items[..|items|]
      invariant KeptFrom(envelope, maxBytes, hint, |items|) == Kept(envelope, maxBytes, hint)
    {
      assert data.(items := items) == Tested(envelope, hint, |items|);
      items := items[..|items| - 1];
    }
    assert data.(items := items) == Tested(envelope, hint, |items|);
    data := data.(items := items, count := |items|);
    data := data.(hasMore := data.offset + |items| < data.total);
    data := data.(nextOffset := if data.hasMore then Some(data.offset + |items|) else None);
  }

  // ----- sizes -----

  function Sum(items: seq<string>): nat
  {
    if items == [] then 0 else Sum(items[..|items| - 1]) + |items[|items| - 1]| + 1
  }

  lemma {:induction false} CommasSize(items: seq<string>)
    ensures |Commas(items)| == if items == [] then 0 else Sum(items) - 1
  {
    if |items| == 1 {
      assert items[..0] == [];
    } else if |items| > 1 {
      CommasSize(items[..|items| - 1]);
    }
  }

  const SKELETON := 67  // the fixed punctuation and keys of an envelope without flags

  function FlagsSize(e: Envelope): nat
  {
    (match e.truncated case None => 0 case Some(b) => 13 + |BoolText(b)|)
    + (match e.hint case None => 0 case Some(h) => 8 + |h|)
  }

  lemma RenderSize(e: Envelope)
    ensures JsonSize(e)
         == SKELETON + |Decimal(e.total)| + |Decimal(e.count)| + |Decimal(e.offset)| + |Commas(e.items)|
          + |BoolText(e.hasMore)| + |OffsetText(e.nextOffset)| + FlagsSize(e)
  {
    hide Decimal, Commas, BoolText, OffsetText;
  }

  /** The tested size does not fall when an item is added. */
  lemma {:induction false} TestedGrows(e: Envelope, hint: string, j: nat, k: nat)
    requires j <= k <= |e.items|
    ensures JsonSize(Tested(e, hint, j)) <= JsonSize(Tested(e, hint, k))
  {
    hide JsonSize, Commas;
    if j == k {
    } else {
      TestedGrows(e, hint, j, k - 1);
      RenderSize(Tested(e, hint, k - 1));
      RenderSize(Tested(e, hint, k));
      CommasSize(e.items[..k - 1]);
      CommasSize(e.items[..k]);
      assert e.items[..k][..k - 1] == e.items[..k - 1];
    }
  }

  lemma {:induction false} KeptIsFirstFit(e: Envelope, maxBytes: int, hint: string, k: nat)
    requires k <= |e.items|
    ensures var r := KeptFrom(e, maxBytes, hint, k);
              && (r > 0 ==> JsonSize(Tested(e, hint, r)) <= maxBytes)
              && forall j :: r < j <= k ==> JsonSize(Tested(e, hint, j)) > maxBytes
  {
    hide JsonSize;
    if k > 0 && JsonSize(Tested(e, hint, k)) > maxBytes {
      KeptIsFirstFit(e, maxBytes, hint, k - 1);
    }
  }

  /** Truncation keeps the longest prefix that fits: `k` items survive exactly when `k` items fit. */
  lemma KeepsLongestPrefix(e: Envelope, maxBytes: int, hint: string, k: nat)
    requires 0 < k <= |e.items|
    ensures k <= Kept(e, maxBytes, hint) <==> JsonSize(Tested(e, hint, k)) <= maxBytes
  {
    hide JsonSize;
    KeptIsFirstFit(e, maxBytes, hint, |e.items|);
    var r := Kept(e, maxBytes, hint);
    if k <= r {
      TestedGrows(e, hint, k, r);
    }
  }

  // ----- what rewriting the metadata adds -----

  /** The bytes that rewriting the metadata adds to the tested size (or saves, when negative). */
  function RewriteGrowth(items: seq<string>, total: nat, offset: nat, k: nat): int
    requires k <= |items|
  {
    var wasMore, isMore := offset + |items| < total, offset + k < total;
    |Decimal(k)| - |Decimal(|items|)|
    + (if wasMore then |Decimal(offset + k)| - |Decimal(offset + |items|)|
       else if isMore then |Decimal(offset + k)| - 5
       else 0)
  }

  lemma RewrittenSize(items: seq<string>, total: nat, offset: nat, hint: string, k: nat)
    requires k <= |items|
    ensures var e := BuildListEnvelope(items, total, offset);
              JsonSize(Rewritten(e, hint, k)) == JsonSize(Tested(e, hint, k)) + RewriteGrowth(items, total, offset, k)
  {
    hide JsonSize, Render, Decimal;
    var e := BuildListEnvelope(items, total, offset);
    RenderSize(Rewritten(e, hint, k));
    RenderSize(Tested(e, hint, k));
  }

  /** Rewriting lengthens the metadata only when the whole page would have been the last one. */
  lemma RewritingGrowsExactlyWhen(items: seq<string>, total: nat, offset: nat, k: nat)
    requires 0 < k <= |items|
    ensures RewriteGrowth(items, total, offset, k) > 0
       <==> && offset + |items| >= total > offset + k
            && |Decimal(offset + k)| + |Decimal(k)| > 5 + |Decimal(|items|)|
  {
    hide Decimal;
    DecimalGrows(k, |items|);
    DecimalGrows(offset + k, offset + |items|);
  }

  // ----- the final size -----

  lemma TestedIsLarger(items: seq<string>, total: nat, offset: nat, hint: string)
    ensures var e := BuildListEnvelope(items, total, offset);
              JsonSize(Tested(e, hint, |items|)) > JsonSize(e)
  {
    hide JsonSize, Render, Decimal;
    var e := BuildListEnvelope(items, total, offset);
    RenderSize(e);
    RenderSize(Tested(e, hint, |items|));
    assert items[..|items|] == items;
  }

  /** An envelope that is returned whole carries 18 bytes more than were measured. */
  lemma UntruncatedSize(items: seq<string>, total: nat, offset: nat, maxBytes: int, hint: string)
    requires JsonSize(BuildListEnvelope(items, total, offset)) <= maxBytes
    ensures var e := BuildListEnvelope(items, total, offset);
            var data := Truncated(e, maxBytes, hint);
            && data.items == items && data.truncated == Some(false)
            && JsonSize(data) == JsonSize(e) + 18
            && JsonSize(data) <= maxBytes + 18
            && (JsonSize(data) <= maxBytes <==> JsonSize(e) <= maxBytes - 18)
  {
    hide JsonSize, Render;
    var e := BuildListEnvelope(items, total, offset);
    RenderSize(e);
    RenderSize(Truncated(e, maxBytes, hint));
  }

  /** A truncated list with at least one item left fits, below offset 100000 or when there was a next page anyway. */
  lemma TruncatedFits(items: seq<string>, total: nat, offset: nat, maxBytes: int, hint: string)
    requires offset + |items| <= 100000 || offset + |items| < total
    ensures var e := BuildListEnvelope(items, total, offset);
            var data := Truncated(e, maxBytes, hint);
              JsonSize(e) > maxBytes ==>
                && data.truncated == Some(true) && data.hint == Some(hint)
                && (data.items == [] || (data.items < items && JsonSize(data) <= maxBytes))
  {
    hide JsonSize, Render, Decimal;
    var e := BuildListEnvelope(items, total, offset);
    var k := Kept(e, maxBytes, hint);
    if JsonSize(e) > maxBytes && k > 0 {
      KeepsLongestPrefix(e, maxBytes, hint, k);
      TestedIsLarger(items, total, offset, hint);
      RewrittenSize(items, total, offset, hint, k);
      DecimalGrows(k, |items|);
      DecimalGrows(offset + k, offset + |items|);
      FiveDigits();
      if offset + |items| <= 100000 {
        DecimalGrows(offset + k, 99999);
      }
      assert items[..k] < items;
    }
  }

  lemma FiveDigits()
    ensures |Decimal(99999)| == 5
  {
    assert |Decimal(9)| == 1;
    assert |Decimal(99)| == 2;
    assert |Decimal(999)| == 3;
    assert |Decimal(9999)| == 4;
  }

  /** The longest prefix that fits the measured size has `k` items. */
  predicate IsCut(e: Envelope, maxBytes: int, hint: string, k: nat)
    requires k <= |e.items|
  {
    && (k > 0 ==> JsonSize(Tested(e, hint, k)) <= maxBytes)
    && (k < |e.items| ==> maxBytes < JsonSize(Tested(e, hint, k + 1)))
  }

  lemma OnlyKeptIsCut(e: Envelope, maxBytes: int, hint: string, k: nat)
    requires k <= |e.items|
    ensures IsCut(e, maxBytes, hint, k) <==> k == Kept(e, maxBytes, hint)
  {
    hide JsonSize, Kept;
    if k > 0 {
      KeepsLongestPrefix(e, maxBytes, hint, k);
    }
    if k < |e.items| {
      KeepsLongestPrefix(e, maxBytes, hint, k + 1);
    }
  }

  /**
   Exactly when one call meets its ceiling.  A whole envelope needs 18 bytes to spare; of any
   other, the longest prefix that fits the measured size, be it empty, must still fit with what
   rewriting its metadata adds.
   */
  lemma CeilingHoldsExactlyWhen(items: seq<string>, total: nat, offset: nat, maxBytes: int, hint: string)
    ensures var e := BuildListEnvelope(items, total, offset);
              JsonSize(Truncated(e, maxBytes, hint)) <= maxBytes
              <==>
              if JsonSize(e) <= maxBytes then JsonSize(e) + 18 <= maxBytes
              else forall k :: 0 <= k <= |items| && IsCut(e, maxBytes, hint, k)
                     ==> JsonSize(Tested(e, hint, k)) + RewriteGrowth(items, total, offset, k) <= maxBytes
  {
    hide JsonSize, Kept, RewriteGrowth, IsCut;
    var e := BuildListEnvelope(items, total, offset);
    if JsonSize(e) <= maxBytes {
      UntruncatedSize(items, total, offset, maxBytes, hint);
    } else {
      var r := Kept(e, maxBytes, hint);
      RewrittenSize(items, total, offset, hint, r);
      forall k | 0 <= k <= |items|
        ensures IsCut(e, maxBytes, hint, k) <==> k == r
      {
        OnlyKeptIsCut(e, maxBytes, hint, k);
      }
      assert IsCut(e, maxBytes, hint, r);
    }
  }

  ghost predicate FitsOrEmpty(e: Envelope, maxBytes: int, hint: string)
  {
    Truncated(e, maxBytes, hint).items == [] || JsonSize(Truncated(e, maxBytes, hint)) <= maxBytes
  }

  /** Exactly when a truncated result meets its ceiling or is empty. */
  lemma FitsOrEmptyExactlyWhen(items: seq<string>, total: nat, offset: nat, maxBytes: int, hint: string)
    requires JsonSize(BuildListEnvelope(items, total, offset)) > maxBytes
    ensures var e := BuildListEnvelope(items, total, offset);
              FitsOrEmpty(e, maxBytes, hint)
              <==>
              forall k :: 0 < k <= |items| && IsCut(e, maxBytes, hint, k)
                ==> JsonSize(Tested(e, hint, k)) + RewriteGrowth(items, total, offset, k) <= maxBytes
  {
    hide JsonSize, Kept, RewriteGrowth, IsCut;
    var e := BuildListEnvelope(items, total, offset);
    CeilingHoldsExactlyWhen(items, total, offset, maxBytes, hint);
    var r := Kept(e, maxBytes, hint);
    assert Truncated(e, maxBytes, hint).items == items[..r];
    forall k | 0 <= k <= |items|
      ensures IsCut(e, maxBytes, hint, k) <==> k == r
    {
      OnlyKeptIsCut(e, maxBytes, hint, k);
    }
  }

  /** An item `{"a":"xx...x"}` with `n` characters in its field. */
  function Padded(n: nat): string
  {
    "{\"a\":\"" + seq(n, _ => 'x') + "\"}"
  }

  /** A list whose truncated page misses its ceiling: the second of two items past offset 100000 is cut off. */
  lemma CeilingCanBeMissed(hint: string)
    ensures var items := ["{}", Padded(|hint| + 40)];
            var e := BuildListEnvelope(items, 100002, 100000);
              exists maxBytes :: JsonSize(e) > maxBytes && !FitsOrEmpty(e, maxBytes, hint)
  {
    hide JsonSize, Render, Decimal, FitsOrEmpty, Padded;
    var items := ["{}", Padded(|hint| + 40)];
    var e := BuildListEnvelope(items, 100002, 100000);
    PaddedSize(|hint| + 40);
    SomeDigits();
    RenderSize(e);
    RenderSize(Tested(e, hint, 1));
    RenderSize(Tested(e, hint, 2));
    assert items[..1] == ["{}"] && items[..2] == items;
    CommasSize(items[..1]);
    CommasSize(items);
    var maxBytes := JsonSize(Tested(e, hint, 1));
    assert JsonSize(e) > maxBytes && IsCut(e, maxBytes, hint, 1);
    assert RewriteGrowth(items, 100002, 100000, 1) > 0;
    FitsOrEmptyExactlyWhen(items, 100002, 100000, maxBytes, hint);
  }

  /** A list that is truncated to nothing, and the empty page is still larger than the ceiling. */
  lemma EmptyPageCanExceed(maxBytes: nat, hint: string)
    requires maxBytes < 100 + |hint|
    ensures var e := BuildListEnvelope([Padded(maxBytes)], 1, 0);
            var data := Truncated(e, maxBytes, hint);
              JsonSize(e) > maxBytes && data.items == [] && JsonSize(data) == 100 + |hint|
  {
    hide JsonSize, Render, Decimal, Padded;
    var items := [Padded(maxBytes)];
    var e := BuildListEnvelope(items, 1, 0);
    PaddedSize(maxBytes);
    SomeDigits();
    CommasSize(items);
    assert items[..0] == [] && items[..1] == items;
    RenderSize(e);
    RenderSize(Tested(e, hint, 1));
    RenderSize(Rewritten(e, hint, 0));
    CommasSize([]);
    OnlyKeptIsCut(e, maxBytes, hint, 0);
  }

  lemma PaddedSize(n: nat)
    ensures |Padded(n)| == n + 8
  {
  }

  /** A page that is returned whole although, with its `truncated` field, it is larger than the ceiling. */
  lemma UntruncatedCanExceed(hint: string)
    ensures var e := BuildListEnvelope(["{}"], 1, 0);
              JsonSize(e) == 81 && JsonSize(Truncated(e, 81, hint)) == 99
              && Truncated(e, 81, hint).truncated == Some(false)
  {
    hide JsonSize, Render, Decimal;
    var e := BuildListEnvelope(["{}"], 1, 0);
    SomeDigits();
    RenderSize(e);
    CommasSize(["{}"]);
    assert ["{}"][..0] == [];
    UntruncatedSize(["{}"], 1, 0, 81, hint);
  }

  lemma SomeDigits()
    ensures |Decimal(0)| == 1 && |Decimal(1)| == 1 && |Decimal(2)| == 1
    ensures |Decimal(100000)| == 6 && |Decimal(100001)| == 6 && |Decimal(100002)| == 6
  {
    FiveDigits();
    assert |Decimal(10)| == 2;
    assert |Decimal(100)| == 3;
    assert |Decimal(1000)| == 4;
    assert |Decimal(10000)| == 5;
  }
}

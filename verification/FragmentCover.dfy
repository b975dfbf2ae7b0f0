/**
  Ranges that tile a buffer: the order does not matter, and the cursor walk over the ranges in
  offset order recognises exactly the tilings.
 */
module FragmentCover {
  import opened Base
  import opened FragmentSpec

  lemma {:induction false} CoverAppend(a: seq<Range>, b: seq<Range>, x: nat)
    ensures CoverCount(a + b, x) == CoverCount(a, x) + CoverCount(b, x)
  {
    if a == [] {
      assert a + b == b;
    } else {
      assert (a + b)[1..] == a[1..] + b;
      CoverAppend(a[1..], b, x);
    }
  }

  lemma CoverRemove(s: seq<Range>, i: nat, x: nat)
    requires i < |s|
    ensures CoverCount(s, x) == (if Covers(s[i], x) then 1 else 0) + CoverCount(s[..i] + s[i + 1..], x)
  {
    assert s == s[..i] + s[i..];
    assert s[i..][1..] == s[i + 1..];
    CoverAppend(s[..i], s[i..], x);
    CoverAppend(s[..i], s[i + 1..], x);
  }

  lemma WithoutOne(s: seq<Range>, i: nat)
    requires i < |s|
    ensures multiset(s[..i] + s[i + 1..]) == multiset(s) - multiset{s[i]}
  {
    assert s == s[..i] + [s[i]] + s[i + 1..];
  }

  lemma Occurs(a: seq<Range>, b: seq<Range>) returns (i: nat)
    requires multiset(a) == multiset(b) && a != []
    ensures i < |b| && b[i] == a[0]
  {
    assert a[0] in multiset(b);
    i :| i < |b| && b[i] == a[0];
  }

  lemma {:induction false} CoverIgnoresOrder(a: seq<Range>, b: seq<Range>, x: nat)
    requires multiset(a) == multiset(b)
    ensures CoverCount(a, x) == CoverCount(b, x)
    decreases |a|
  {
    hide Covers;
    if a == [] {
      assert |multiset(b)| == 0;
    } else {
      var i := Occurs(a, b);
      WithoutOne(a, 0);
      WithoutOne(b, i);
      assert a[..0] + a[1..] == a[1..];
      CoverIgnoresOrder(a[1..], b[..i] + b[i + 1..], x);
      CoverRemove(b, i, x);
    }
  }

  lemma TilesIgnoresOrder(a: seq<Range>, b: seq<Range>, total: nat)
    requires multiset(a) == multiset(b)
    ensures Tiles(a, total) <==> Tiles(b, total)
  {
    forall x: nat
      ensures CoverCount(a, x) == CoverCount(b, x)
    {
      CoverIgnoresOrder(a, b, x);
    }
  }

  predicate SortedByOffset(ranges: seq<Range>) {
    forall i, j :: 0 <= i < j < |ranges| ==> ranges[i].offset <= ranges[j].offset
  }

  predicate NonEmpty(ranges: seq<Range>) {
    forall i :: 0 <= i < |ranges| ==> ranges[i].length > 0
  }

  /** The receiver's cursor: each range must start where the previous one ended. */
  function Walk(ranges: seq<Range>, cursor: nat): Option<nat> {
    if ranges == [] then Some(cursor)
    else if ranges[0].offset != cursor then None
    else Walk(ranges[1..], cursor + ranges[0].length)
  }

  lemma {:induction false} WalkTiles(ranges: seq<Range>, cursor: nat, total: nat)
    requires Walk(ranges, cursor) == Some(total)
    ensures cursor <= total && TilesFrom(ranges, cursor, total)
  {
    if ranges != [] {
      WalkTiles(ranges[1..], cursor + ranges[0].length, total);
    }
  }

  lemma {:induction false} NothingBefore(ranges: seq<Range>, x: nat)
    requires forall i :: 0 <= i < |ranges| ==> x < ranges[i].offset
    ensures CoverCount(ranges, x) == 0
  {
    if ranges != [] {
      NothingBefore(ranges[1..], x);
    }
  }

  lemma FirstStartsAtCursor(ranges: seq<Range>, cursor: nat, total: nat)
    requires ranges != [] && SortedByOffset(ranges) && NonEmpty(ranges) && TilesFrom(ranges, cursor, total)
    ensures ranges[0].offset == cursor && cursor + ranges[0].length <= total
    ensures TilesFrom(ranges[1..], cursor + ranges[0].length, total)
  {
    var first := ranges[0];
    assert CoverCount(ranges, first.offset) >= 1;
    if first.offset != cursor {
      NothingBefore(ranges, cursor);
    }
    assert CoverCount(ranges, first.offset + first.length - 1) >= 1;
    forall x: nat
      ensures CoverCount(ranges[1..], x) == if cursor + first.length <= x < total then 1 else 0
    {
      assert CoverCount(ranges, x) == (if Covers(first, x) then 1 else 0) + CoverCount(ranges[1..], x);
    }
  }

  lemma {:induction false} TilesWalk(ranges: seq<Range>, cursor: nat, total: nat)
    requires SortedByOffset(ranges) && NonEmpty(ranges) && cursor <= total
    requires TilesFrom(ranges, cursor, total)
    ensures Walk(ranges, cursor) == Some(total)
  {
    if ranges == [] {
      assert CoverCount(ranges, cursor) == 0;
    } else {
      FirstStartsAtCursor(ranges, cursor, total);
      TilesWalk(ranges[1..], cursor + ranges[0].length, total);
    }
  }

  /** Sorting by offset and walking decides tiling, however the sort orders equal offsets. */
  lemma SortedWalkDecidesTiling(ranges: seq<Range>, sorted: seq<Range>, total: nat)
    requires multiset(sorted) == multiset(ranges) && SortedByOffset(sorted) && NonEmpty(ranges)
    ensures Walk(sorted, 0) == Some(total) <==> Tiles(ranges, total)
  {
    TilesIgnoresOrder(ranges, sorted, total);
    forall i | 0 <= i < |sorted|
      ensures sorted[i].length > 0
    {
      assert sorted[i] in multiset(sorted);
      assert sorted[i] in ranges;
    }
    if Walk(sorted, 0) == Some(total) {
      WalkTiles(sorted, 0, total);
    }
    if Tiles(sorted, total) {
      TilesWalk(sorted, 0, total);
    }
  }

  lemma {:induction false} CoveredBySome(ranges: seq<Range>, x: nat) returns (k: nat)
    requires CoverCount(ranges, x) >= 1
    ensures k < |ranges| && Covers(ranges[k], x)
  {
    if Covers(ranges[0], x) {
      k := 0;
    } else {
      k := CoveredBySome(ranges[1..], x);
      k := k + 1;
    }
  }

  lemma CoveredTwice(ranges: seq<Range>, j: nat, k: nat, x: nat)
    requires j < k < |ranges| && Covers(ranges[j], x) && Covers(ranges[k], x)
    ensures CoverCount(ranges, x) >= 2
  {
    CoverRemove(ranges, k, x);
    var rest := ranges[..k] + ranges[k + 1..];
    assert rest[j] == ranges[j];
    CoverRemove(rest, j, x);
  }

  /** When every slot is filled, the filled ranges are the slots in order. */
  lemma {:induction false} FilledAll(slots: seq<Option<Range>>)
    requires forall k :: 0 <= k < |slots| ==> slots[k].Some?
    ensures |Filled(slots)| == |slots|
    ensures forall k :: 0 <= k < |slots| ==> Filled(slots)[k] == slots[k].value
  {
    if slots != [] {
      FilledAll(slots[1..]);
      forall k | 0 <= k < |slots|
        ensures Filled(slots)[k] == slots[k].value
      {
        if k > 0 {
          assert slots[1..][k - 1] == slots[k];
        }
      }
    }
  }

  /** In a tiling, the slot that covers a position is the only one that does. */
  lemma OnlyOneCovers(ranges: seq<Range>, total: nat, j: nat, k: nat, x: nat)
    requires Tiles(ranges, total) && j < |ranges| && k < |ranges|
    requires Covers(ranges[j], x) && Covers(ranges[k], x)
    ensures j == k
  {
    if j < k {
      CoveredTwice(ranges, j, k, x);
    } else if k < j {
      CoveredTwice(ranges, k, j, x);
    }
  }
}

/** Sorted ranges that do not overlap, built from blocks and searched by
    bisection (src/iplist.rs, `Ranges` and `coalesce`). */
module IpRanges {
  import opened Cidr
  import opened Sorting

  const U128_MAX: nat := 0xFFFF_FFFF_FFFF_FFFF_FFFF_FFFF_FFFF_FFFF

  function SaturatingSucc(n: nat): nat {
    if n < U128_MAX then n + 1 else n
  }

  predicate SpanLe(a: Span, b: Span) {
    a.first < b.first || (a.first == b.first && a.last <= b.last)
  }

  lemma SpanLeIsTotal()
    ensures TotalPreorder(SpanLe)
  {
  }

  /** Ranges of addresses: the right way round, and within the space. */
  predicate AreSpans(rs: seq<Span>) {
    forall i :: 0 <= i < |rs| ==> rs[i].first <= rs[i].last <= U128_MAX
  }

  ghost predicate Covers(rs: seq<Span>, x: nat) {
    exists i :: 0 <= i < |rs| && rs[i].first <= x <= rs[i].last
  }

  /** In order, with at least one value between each range and the next. */
  predicate Canonical(rs: seq<Span>) {
    AreSpans(rs) && forall i, j :: 0 <= i < j < |rs| ==> rs[i].last + 1 < rs[j].first
  }

  lemma CoversOneMore(rs: seq<Span>, r: Span, x: nat)
    ensures Covers(rs + [r], x) <==> Covers(rs, x) || r.first <= x <= r.last
  {
    if Covers(rs, x) {
      var i :| 0 <= i < |rs| && rs[i].first <= x <= rs[i].last;
      assert (rs + [r])[i] == rs[i];
    }
    if r.first <= x <= r.last {
      assert (rs + [r])[|rs|] == r;
    }
  }

  // ─── Sort and merge ──────────────────────────────────────

  /** One range taken into those so far. */
  function Merge(out: seq<Span>, r: Span): seq<Span> {
    if out != [] && r.first <= SaturatingSucc(out[|out| - 1].last) then
      var prev := out[|out| - 1];
      out[..|out| - 1] + [Span(prev.first, if r.last > prev.last then r.last else prev.last)]
    else out + [r]
  }

  function MergeAll(sorted: seq<Span>, n: nat): seq<Span>
    requires n <= |sorted|
  {
    if n == 0 then [] else Merge(MergeAll(sorted, n - 1), sorted[n - 1])
  }

  function Coalesced(ranges: seq<Span>): seq<Span> {
    SpanLeIsTotal();
    var sorted := Sort(ranges, SpanLe);
    MergeAll(sorted, |sorted|)
  }

  /** The source's loop, editing the last range of a growing vector. */
  method Coalesce(ranges: seq<Span>) returns (out: seq<Span>)
    ensures out == Coalesced(ranges)
  {
    hide TotalPreorder, SaturatingSucc;
    SpanLeIsTotal();
    var sorted := Sort(ranges, SpanLe);
    out := [];
    for i := 0 to |sorted|
      invariant out == MergeAll(sorted, i)
    {
      var r := sorted[i];
      if out != [] && r.first <= SaturatingSucc(out[|out| - 1].last) {
        var prev := out[|out| - 1];
        if r.last > prev.last {
          out := out[|out| - 1 := Span(prev.first, r.last)];
        }
      } else {
        out := out + [r];
      }
    }
  }

  lemma MergeIsCanonical(out: seq<Span>, r: Span)
    requires Canonical(out) && r.first <= r.last <= U128_MAX
    requires out != [] ==> out[|out| - 1].first <= r.first
    ensures Canonical(Merge(out, r))
    ensures Merge(out, r)[|Merge(out, r)| - 1].first <= r.first
  {
    if out != [] && r.first <= SaturatingSucc(out[|out| - 1].last) {
      var front := out[..|out| - 1];
      assert forall i :: 0 <= i < |front| ==> front[i].last + 1 < out[|out| - 1].first;
    }
  }

  lemma MergeCovers(out: seq<Span>, r: Span, x: nat)
    requires Canonical(out) && r.first <= r.last <= U128_MAX
    requires out != [] ==> out[|out| - 1].first <= r.first
    ensures Covers(Merge(out, r), x) <==> Covers(out, x) || r.first <= x <= r.last
  {
    hide Covers;
    if out != [] && r.first <= SaturatingSucc(out[|out| - 1].last) {
      var front, prev := out[..|out| - 1], out[|out| - 1];
      assert out == front + [prev];
      CoversOneMore(front, prev, x);
      CoversOneMore(front, Span(prev.first, if r.last > prev.last then r.last else prev.last), x);
    } else {
      CoversOneMore(out, r, x);
    }
  }

  lemma {:induction false} MergeAllIsCanonical(sorted: seq<Span>, n: nat)
    requires n <= |sorted| && AreSpans(sorted) && Sorted(sorted, SpanLe)
    ensures var out := MergeAll(sorted, n);
            && Canonical(out)
            && (n > 0 ==> out != [] && out[|out| - 1].first <= sorted[n - 1].first)
            && forall x :: Covers(out, x) <==> Covers(sorted[..n], x)
  {
    hide Covers, Merge, Canonical;
    if n == 0 {
      assert sorted[..0] == [];
      NoneAreCanonical();
    } else {
      var out, r := MergeAll(sorted, n - 1), sorted[n - 1];
      MergeAllIsCanonical(sorted, n - 1);
      assert n >= 2 ==> SpanLe(sorted[n - 2], r);
      MergeIsCanonical(out, r);
      MergeIsSome(out, r);
      assert sorted[..n] == sorted[..n - 1] + [r];
      forall x
        ensures Covers(Merge(out, r), x) <==> Covers(sorted[..n], x)
      {
        MergeCovers(out, r, x);
        CoversOneMore(sorted[..n - 1], r, x);
      }
    }
  }

  lemma NoneAreCanonical()
    ensures Canonical([])
  {
  }

  lemma MergeIsSome(out: seq<Span>, r: Span)
    ensures Merge(out, r) != []
  {
  }

  lemma SameElementsCover(a: seq<Span>, b: seq<Span>, x: nat)
    requires multiset(a) == multiset(b)
    ensures Covers(a, x) ==> Covers(b, x)
  {
    if Covers(a, x) {
      var i :| 0 <= i < |a| && a[i].first <= x <= a[i].last;
      assert a[i] in multiset(b);
      var j :| 0 <= j < |b| && b[j] == a[i];
    }
  }

  /** Sorting and merging gives ranges in canonical form that cover exactly what
      those given cover, up to the last value of the space. */
  lemma CoalescedIsCanonical(ranges: seq<Span>)
    requires AreSpans(ranges)
    ensures Canonical(Coalesced(ranges))
    ensures forall x :: Covers(Coalesced(ranges), x) <==> Covers(ranges, x)
  {
    hide Covers, Canonical;
    SpanLeIsTotal();
    var sorted := Sort(ranges, SpanLe);
    forall i | 0 <= i < |sorted|
      ensures sorted[i].first <= sorted[i].last <= U128_MAX
    {
      assert sorted[i] in multiset(ranges);
      var j :| 0 <= j < |ranges| && ranges[j] == sorted[i];
    }
    MergeAllIsCanonical(sorted, |sorted|);
    assert sorted[..|sorted|] == sorted;
    forall x
      ensures Covers(sorted, x) <==> Covers(ranges, x)
    {
      SameElementsCover(sorted, ranges, x);
      SameElementsCover(ranges, sorted, x);
    }
  }

  /** The first of canonical ranges begins at the least value covered and ends
      just short of the least value after it that is not. */
  lemma HeadIsLeast(a: seq<Span>, b: seq<Span>)
    requires Canonical(a) && Canonical(b) && a != [] && b != []
    requires forall x :: Covers(a, x) <==> Covers(b, x)
    ensures a[0].first <= b[0].first && a[0].last <= b[0].last
  {
    assert Covers(b, b[0].first);
    assert Covers(a, b[0].first);
    var i :| 0 <= i < |a| && a[i].first <= b[0].first <= a[i].last;
    assert a[0].first <= a[i].first;
    var x := b[0].last + 1;
    assert Covers(b, a[0].first) by { HeadCovers(a, a[0].first); }
    var j :| 0 <= j < |b| && b[j].first <= a[0].first <= b[j].last;
    assert b[0].first <= b[j].first;
    NextIsNotCovered(b);
    HeadCovers(a, x);
    assert Covers(a, x) <==> Covers(b, x);
  }

  lemma HeadCovers(a: seq<Span>, x: nat)
    requires a != []
    ensures a[0].first <= x <= a[0].last ==> Covers(a, x)
  {
  }

  lemma NextIsNotCovered(b: seq<Span>)
    requires Canonical(b) && b != []
    ensures !Covers(b, b[0].last + 1)
  {
  }

  lemma TailCovers(a: seq<Span>, x: nat)
    requires Canonical(a) && a != []
    ensures Covers(a[1..], x) <==> Covers(a, x) && x > a[0].last
  {
    if Covers(a[1..], x) {
      var i :| 0 <= i < |a[1..]| && a[1..][i].first <= x <= a[1..][i].last;
      assert a[i + 1] == a[1..][i];
    }
    if Covers(a, x) && x > a[0].last {
      var i :| 0 <= i < |a| && a[i].first <= x <= a[i].last;
      assert a[1..][i - 1] == a[i];
    }
  }

  /** A set of values is written canonically in one way. */
  lemma {:induction false} CanonicalIsUnique(a: seq<Span>, b: seq<Span>)
    requires Canonical(a) && Canonical(b)
    requires forall x :: Covers(a, x) <==> Covers(b, x)
    ensures a == b
  {
    if a == [] || b == [] {
      if a != [] { assert Covers(a, a[0].first); }
      if b != [] { assert Covers(b, b[0].first); }
    } else {
      HeadIsLeast(a, b);
      HeadIsLeast(b, a);
      forall x
        ensures Covers(a[1..], x) <==> Covers(b[1..], x)
      {
        TailCovers(a, x);
        TailCovers(b, x);
      }
      CanonicalIsUnique(a[1..], b[1..]);
    }
  }

  /** The array depends on the addresses listed alone: not on their order, nor on
      how they are cut into ranges. */
  lemma CoalescingIsCanonical(a: seq<Span>, b: seq<Span>)
    requires AreSpans(a) && AreSpans(b)
    ensures Coalesced(a) == Coalesced(b) <==> forall x :: Covers(a, x) <==> Covers(b, x)
  {
    CoalescedIsCanonical(a);
    CoalescedIsCanonical(b);
    if forall x :: Covers(a, x) <==> Covers(b, x) {
      CanonicalIsUnique(Coalesced(a), Coalesced(b));
    }
  }

  // ─── Bisection ───────────────────────────────────────────

  /** The standard library's `partition_point`: how many ranges begin at or below
      the value. */
  method PartitionPoint(rs: seq<Span>, value: nat) returns (i: nat)
    requires Canonical(rs)
    ensures i == StartingBy(rs, value)
  {
    var lo, hi := 0, |rs|;
    while lo < hi
      invariant 0 <= lo <= hi <= |rs|
      invariant forall k :: 0 <= k < lo ==> rs[k].first <= value
      invariant forall k :: hi <= k < |rs| ==> rs[k].first > value
    {
      var mid := (lo + hi) / 2;
      if rs[mid].first <= value {
        lo := mid + 1;
      } else {
        hi := mid;
      }
    }
    i := lo;
    StartingByIs(rs, value, i);
  }

  function StartingBy(rs: seq<Span>, value: nat): (n: nat)
    ensures n <= |rs|
  {
    if rs == [] || rs[0].first > value then 0 else 1 + StartingBy(rs[1..], value)
  }

  lemma {:induction false} StartingByIs(rs: seq<Span>, value: nat, i: nat)
    requires i <= |rs|
    requires forall k :: 0 <= k < i ==> rs[k].first <= value
    requires i < |rs| ==> rs[i].first > value
    ensures StartingBy(rs, value) == i
  {
    if i > 0 { StartingByIs(rs[1..], value, i - 1); }
  }

  lemma {:induction false} StartingBySplits(rs: seq<Span>, value: nat)
    ensures var i := StartingBy(rs, value);
            && (forall k :: 0 <= k < i ==> rs[k].first <= value)
            && (i < |rs| ==> rs[i].first > value)
  {
    if rs != [] && rs[0].first <= value {
      StartingBySplits(rs[1..], value);
      assert forall k :: 1 <= k < |rs| ==> rs[k] == rs[1..][k - 1];
    }
  }

  predicate Holds(rs: seq<Span>, value: nat) {
    var i := StartingBy(rs, value);
    i > 0 && rs[i - 1].last >= value
  }

  /** The one range bisection leaves to look at settles the answer. */
  lemma BisectionFinds(rs: seq<Span>, value: nat)
    requires Canonical(rs)
    ensures Holds(rs, value) <==> Covers(rs, value)
  {
    StartingBySplits(rs, value);
    var i := StartingBy(rs, value);
    assert forall k :: i < k < |rs| ==> rs[i].first <= rs[k].first;
    if Covers(rs, value) {
      var k :| 0 <= k < |rs| && rs[k].first <= value <= rs[k].last;
    }
  }

  // ─── Both families ───────────────────────────────────────

  datatype Ranges = Ranges(v4: seq<Span>, v6: seq<Span>)

  /** The ranges of the blocks of one family, in the order given. */
  function FamilyOf(blocks: seq<Block>, v4: bool): seq<Span>
    requires forall i :: 0 <= i < |blocks| ==> ValidBlock(blocks[i])
  {
    if blocks == [] then []
    else
      var rest := FamilyOf(blocks[..|blocks| - 1], v4);
      var c := blocks[|blocks| - 1];
      if c.addr.V4? == v4 then rest + [RangeOf(c)] else rest
  }

  function Build(blocks: seq<Block>): Ranges
    requires forall i :: 0 <= i < |blocks| ==> ValidBlock(blocks[i])
  {
    Ranges(Coalesced(FamilyOf(blocks, true)), Coalesced(FamilyOf(blocks, false)))
  }

  method ComputeRanges(blocks: seq<Block>) returns (r: Ranges)
    requires forall i :: 0 <= i < |blocks| ==> ValidBlock(blocks[i])
    ensures r == Build(blocks)
  {
    var v4, v6: seq<Span> := [], [];
    for i := 0 to |blocks|
      invariant v4 == FamilyOf(blocks[..i], true) && v6 == FamilyOf(blocks[..i], false)
    {
      assert blocks[..i + 1][..i] == blocks[..i];
      if blocks[i].addr.V4? {
        v4 := v4 + [RangeOf(blocks[i])];
      } else {
        v6 := v6 + [RangeOf(blocks[i])];
      }
    }
    assert blocks[..|blocks|] == blocks;
    var a := Coalesce(v4);
    var b := Coalesce(v6);
    r := Ranges(a, b);
  }

  predicate ContainsIp(r: Ranges, ip: Ip) {
    Holds(if ip.V4? then r.v4 else r.v6, Value(ip.octets))
  }

  lemma Pow2IsTop()
    ensures Pow2(128) == U128_MAX + 1
  {
    hide Pow2;
    Pow2Is256();
    Pow2Adds(8, 8);
    assert Pow2(16) == 0x1_0000;
    Pow2Adds(16, 16);
    assert Pow2(32) == 0x1_0000_0000;
    Pow2Adds(32, 32);
    assert Pow2(64) == 0x1_0000_0000_0000_0000;
    Pow2Adds(64, 64);
  }

  lemma {:induction false} FamilyCovers(blocks: seq<Block>, ip: Ip)
    requires forall i :: 0 <= i < |blocks| ==> ValidBlock(blocks[i])
    requires ValidIp(ip)
    ensures AreSpans(FamilyOf(blocks, ip.V4?))
    ensures Covers(FamilyOf(blocks, ip.V4?), Value(ip.octets)) <==>
            exists i :: 0 <= i < |blocks| && Contains(blocks[i], ip)
  {
    hide Contains, RangeOf, Value, Covers, Pow2;
    if blocks == [] {
      NothingCovers(Value(ip.octets));
    } else {
      var n := |blocks| - 1;
      var c, rest := blocks[n], blocks[..n];
      FamilyCovers(rest, ip);
      RangeIsBlock(c, ip);
      BlockIsSpan(c);
      CoversOneMore(FamilyOf(rest, ip.V4?), RangeOf(c), Value(ip.octets));
      assert forall i :: 0 <= i < n ==> rest[i] == blocks[i];
    }
  }

  lemma NothingCovers(x: nat)
    ensures !Covers([], x)
  {
  }

  lemma BlockIsSpan(c: Block)
    requires ValidBlock(c)
    ensures RangeOf(c).first <= RangeOf(c).last <= U128_MAX
  {
    hide RangeOf, High, Value, Pow2;
    Pow2Monotone(Bits(c.addr), 128);
    Pow2IsTop();
    Pow2Positive(Bits(c.addr));
    RangeIsSameHigh(c, 0);
  }

  lemma Pow2Positive(n: nat)
    ensures Pow2(n) >= 1
  {
  }

  /** For every list of blocks and every address, bisection over the merged ranges
      says yes exactly when some block contains the address octet by octet. */
  lemma IndexIsBlocks(blocks: seq<Block>, ip: Ip)
    requires forall i :: 0 <= i < |blocks| ==> ValidBlock(blocks[i])
    requires ValidIp(ip)
    ensures ContainsIp(Build(blocks), ip) <==> exists i :: 0 <= i < |blocks| && Contains(blocks[i], ip)
  {
    hide Contains, Value, Covers, Holds, FamilyOf;
    FamilyCovers(blocks, ip);
    CoalescedIsCanonical(FamilyOf(blocks, ip.V4?));
    BisectionFinds(Coalesced(FamilyOf(blocks, ip.V4?)), Value(ip.octets));
  }
}

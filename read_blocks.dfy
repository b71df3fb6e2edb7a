/**
 * The read-block planner of `coordinator.py` (`_build_read_blocks`): the
 * distinct register addresses, in ascending order, are grouped into
 * contiguous spans; the next address joins the open span when it lies at
 * most `maxGap` past the span's last address, otherwise the span is closed.
 */
module ReadBlocks {

  /** One read request: `count` holding registers starting at `start`. */
  datatype Block = Block(start: int, count: int)

  /** Last address a block reads. */
  function End(b: Block): int {
    b.start + b.count - 1
  }

  predicate Covers(b: Block, a: int) {
    b.start <= a < b.start + b.count
  }

  function Elems(s: seq<int>): set<int> {
    set x | x in s
  }

  predicate StrictlyIncreasing(s: seq<int>) {
    forall i, j :: 0 <= i < j < |s| ==> s[i] < s[j]
  }

  // ---------------------------------------------------------------------
  // sorted(set(addresses))
  // ---------------------------------------------------------------------

  /** Puts `x` into its place in a strictly increasing sequence, once. */
  function Insert(s: seq<int>, x: int): (r: seq<int>)
    requires StrictlyIncreasing(s)
    ensures StrictlyIncreasing(r)
    ensures Elems(r) == Elems(s) + {x}
  {
    if s == [] then [x]
    else if x < s[0] then [x] + s
    else if x == s[0] then s
    else
      var t := Insert(s[1..], x);
      assert Elems(s) == {s[0]} + Elems(s[1..]);
      assert Elems([s[0]] + t) == {s[0]} + Elems(t);
      HeadBelow(s, x, t);
      ConsIncreasing(s[0], t);
      [s[0]] + t
  }

  /** Whatever lies in the tail of `s` or is `x` lies past the head of `s`. */
  lemma HeadBelow(s: seq<int>, x: int, t: seq<int>)
    requires StrictlyIncreasing(s) && s != [] && s[0] < x
    requires Elems(t) == Elems(s[1..]) + {x}
    ensures forall i :: 0 <= i < |t| ==> s[0] < t[i]
  {
    forall i | 0 <= i < |t| ensures s[0] < t[i] {
      assert t[i] in Elems(t);
      if t[i] != x {
        assert t[i] in Elems(s[1..]);
        var j :| 0 <= j < |s[1..]| && s[1..][j] == t[i];
        assert s[j + 1] == t[i];
      }
    }
  }

  lemma ConsIncreasing(h: int, t: seq<int>)
    requires StrictlyIncreasing(t)
    requires forall i :: 0 <= i < |t| ==> h < t[i]
    ensures StrictlyIncreasing([h] + t)
  {
    var r := [h] + t;
    forall i, j | 0 <= i < j < |r| ensures r[i] < r[j] {
      assert r[j] == t[j - 1];
      if i > 0 {
        assert r[i] == t[i - 1];
      }
    }
  }

  /** The distinct addresses in ascending order (`sorted(set(addresses))`). */
  function SortedDistinct(xs: seq<int>): (r: seq<int>)
    ensures StrictlyIncreasing(r)
    ensures Elems(r) == Elems(xs)
  {
    if xs == [] then []
    else
      var last := |xs| - 1;
      assert xs == xs[..last] + [xs[last]];
      assert Elems(xs) == Elems(xs[..last]) + {xs[last]};
      Insert(SortedDistinct(xs[..last]), xs[last])
  }

  lemma EmptyElems(s: seq<int>)
    ensures s == [] <==> Elems(s) == {}
  {
    if s != [] {
      assert s[0] in Elems(s);
    }
  }

  /** A strictly increasing sequence is determined by its elements. */
  lemma {:induction false} SortedUnique(a: seq<int>, b: seq<int>)
    requires StrictlyIncreasing(a) && StrictlyIncreasing(b)
    requires Elems(a) == Elems(b)
    ensures a == b
  {
    EmptyElems(a);
    EmptyElems(b);
    if a != [] && b != [] {
      assert a[0] == b[0] by {
        assert a[0] in Elems(b);
        assert b[0] in Elems(a);
      }
      assert Elems(a[1..]) == Elems(b[1..]) by {
        assert Elems(a) == {a[0]} + Elems(a[1..]);
        assert Elems(b) == {b[0]} + Elems(b[1..]);
        assert a[0] !in Elems(a[1..]);
        assert b[0] !in Elems(b[1..]);
      }
      SortedUnique(a[1..], b[1..]);
    }
  }

  // ---------------------------------------------------------------------
  // The walk over the sorted addresses
  // ---------------------------------------------------------------------

  /**
   * The blocks produced from the still unvisited sorted addresses `rest`
   * while the open block spans `start..end`.
   */
  function Walk(rest: seq<int>, start: int, end: int, maxGap: int): seq<Block>
    decreases |rest|
  {
    if rest == [] then [Block(start, end - start + 1)]
    else if rest[0] - end <= maxGap then Walk(rest[1..], start, rest[0], maxGap)
    else [Block(start, end - start + 1)] + Walk(rest[1..], rest[0], rest[0], maxGap)
  }

  /** The plan for already sorted, distinct addresses. */
  function PlanSorted(s: seq<int>, maxGap: int): seq<Block> {
    if s == [] then [] else Walk(s[1..], s[0], s[0], maxGap)
  }

  /** The plan `_build_read_blocks(addresses, maxGap)` returns. */
  function Plan(addresses: seq<int>, maxGap: int): seq<Block> {
    PlanSorted(SortedDistinct(addresses), maxGap)
  }

  method BuildReadBlocks(addresses: seq<int>, maxGap: int) returns (blocks: seq<Block>)
    ensures blocks == Plan(addresses, maxGap)
  {
    if |addresses| == 0 {
      return [];
    }
    var sortedAddrs := SortedDistinct(addresses);
    assert addresses[0] in Elems(sortedAddrs);
    blocks := [];
    var blockStart, blockEnd := sortedAddrs[0], sortedAddrs[0];
    for i := 1 to |sortedAddrs|
      invariant blocks + Walk(sortedAddrs[i..], blockStart, blockEnd, maxGap) == Plan(addresses, maxGap)
    {
      var addr := sortedAddrs[i];
      assert sortedAddrs[i..][1..] == sortedAddrs[i + 1..];
      if addr - blockEnd <= maxGap {
        blockEnd := addr;
      } else {
        blocks := blocks + [Block(blockStart, blockEnd - blockStart + 1)];
        blockStart := addr;
        blockEnd := addr;
      }
    }
    blocks := blocks + [Block(blockStart, blockEnd - blockStart + 1)];
  }

  // ---------------------------------------------------------------------
  // What the plan promises
  // ---------------------------------------------------------------------

  /** Index of the first block that covers `a`, or `|B|` when none does. */
  function BlockIndex(B: seq<Block>, a: int): (k: nat)
    ensures k <= |B|
    ensures k < |B| ==> Covers(B[k], a)
    ensures forall i :: 0 <= i < k ==> !Covers(B[i], a)
  {
    if B == [] then 0
    else if Covers(B[0], a) then 0
    else 1 + BlockIndex(B[1..], a)
  }

  /** Every block ends before the next one starts. */
  ghost predicate Ascending(B: seq<Block>) {
    forall i, j :: 0 <= i < j < |B| ==> End(B[i]) < B[j].start
  }

  /** Neighbouring blocks are more than `maxGap` apart. */
  ghost predicate Separated(B: seq<Block>, maxGap: int) {
    forall i :: 0 <= i < |B| - 1 ==> B[i + 1].start - End(B[i]) > maxGap
  }

  lemma IncreasingSplit(x: int, rest: seq<int>)
    requires StrictlyIncreasing([x] + rest)
    ensures StrictlyIncreasing(rest)
    ensures forall i :: 0 <= i < |rest| ==> x < rest[i]
  {
    var xs := [x] + rest;
    forall i, j | 0 <= i < j < |rest| ensures rest[i] < rest[j] {
      assert rest[i] == xs[i + 1] && rest[j] == xs[j + 1];
    }
    forall i | 0 <= i < |rest| ensures x < rest[i] {
      assert xs[0] == x && xs[i + 1] == rest[i];
    }
  }

  /** The first block of a walk starts at the open block's start and reaches at least its end. */
  lemma {:induction false} WalkFirst(rest: seq<int>, start: int, end: int, maxGap: int)
    requires start <= end
    requires StrictlyIncreasing([end] + rest)
    ensures var W := Walk(rest, start, end, maxGap);
      |W| >= 1 && W[0].start == start && end <= End(W[0])
    decreases |rest|
  {
    if rest != [] {
      IncreasingSplit(end, rest);
      assert [rest[0]] + rest[1..] == rest;
      if rest[0] - end <= maxGap {
        WalkFirst(rest[1..], start, rest[0], maxGap);
      }
    }
  }

  /** Later blocks of `W` start in `rest`; every block ends in `[end] + rest`, at or after its start. */
  ghost predicate Anchored(W: seq<Block>, rest: seq<int>, end: int) {
    && (forall i :: 0 < i < |W| ==> W[i].start in rest)
    && (forall i :: 0 <= i < |W| ==> W[i].start <= End(W[i]) && End(W[i]) in [end] + rest)
  }

  /** Later blocks start on a visited address; every block ends on one, at or after its start. */
  lemma {:induction false} WalkAnchors(rest: seq<int>, start: int, end: int, maxGap: int)
    requires start <= end
    requires StrictlyIncreasing([end] + rest)
    ensures var W := Walk(rest, start, end, maxGap);
      && (forall i :: 0 < i < |W| ==> W[i].start in rest)
      && (forall i :: 0 <= i < |W| ==> W[i].start <= End(W[i]) && End(W[i]) in [end] + rest)
    decreases |rest|
  {
    if rest != [] {
      var r0 := rest[0];
      IncreasingSplit(end, rest);
      assert [r0] + rest[1..] == rest;
      if r0 - end <= maxGap {
        WalkAnchors(rest[1..], start, r0, maxGap);
        assert var W := Walk(rest[1..], start, r0, maxGap); Anchored(W, rest[1..], r0);
        AnchorsExtend(Walk(rest[1..], start, r0, maxGap), rest);
      } else {
        WalkAnchors(rest[1..], r0, r0, maxGap);
        WalkFirst(rest[1..], r0, r0, maxGap);
        assert var W := Walk(rest[1..], r0, r0, maxGap); Anchored(W, rest[1..], r0);
        AnchorsClose(Walk(rest[1..], r0, r0, maxGap), rest, start, end);
      }
    }
  }

  /** Extending the open block to `rest[0]` keeps every block anchored. */
  lemma AnchorsExtend(W: seq<Block>, rest: seq<int>)
    requires rest != [] && Anchored(W, rest[1..], rest[0])
    ensures forall end :: Anchored(W, rest, end)
  {
    assert [rest[0]] + rest[1..] == rest;
    forall end, i | 0 <= i < |W| ensures End(W[i]) in [end] + rest {
      assert End(W[i]) in [rest[0]] + rest[1..];
    }
    forall i | 0 < i < |W| ensures W[i].start in rest {
      assert W[i].start in rest[1..];
    }
  }

  /** Closing the open block at `end` and opening one at `rest[0]` keeps every block anchored. */
  lemma AnchorsClose(W': seq<Block>, rest: seq<int>, start: int, end: int)
    requires rest != [] && start <= end
    requires Anchored(W', rest[1..], rest[0]) && |W'| >= 1 && W'[0].start == rest[0]
    ensures Anchored([Block(start, end - start + 1)] + W', rest, end)
  {
    var W := [Block(start, end - start + 1)] + W';
    assert [rest[0]] + rest[1..] == rest;
    forall i | 0 < i < |W| ensures W[i].start in rest {
      assert W[i] == W'[i - 1];
      if i > 1 {
        assert W'[i - 1].start in rest[1..];
      }
    }
    forall i | 0 <= i < |W| ensures W[i].start <= End(W[i]) && End(W[i]) in [end] + rest {
      if i > 0 {
        assert W[i] == W'[i - 1];
        assert End(W'[i - 1]) in [rest[0]] + rest[1..];
      }
    }
  }

  /** The blocks of a walk are ascending and more than `maxGap` apart. */
  lemma {:induction false} WalkOrder(rest: seq<int>, start: int, end: int, maxGap: int)
    requires start <= end
    requires StrictlyIncreasing([end] + rest)
    ensures var W := Walk(rest, start, end, maxGap);
      Ascending(W) && Separated(W, maxGap)
    decreases |rest|
  {
    if rest != [] {
      var r0 := rest[0];
      IncreasingSplit(end, rest);
      assert [r0] + rest[1..] == rest;
      if r0 - end <= maxGap {
        WalkOrder(rest[1..], start, r0, maxGap);
      } else {
        WalkOrder(rest[1..], r0, r0, maxGap);
        WalkFirst(rest[1..], r0, r0, maxGap);
        WalkAnchors(rest[1..], r0, r0, maxGap);
        IncreasingSplit(r0, rest[1..]);
        var b0 := Block(start, end - start + 1);
        var W' := Walk(rest[1..], r0, r0, maxGap);
        forall j | 0 <= j < |W'| ensures End(b0) < W'[j].start {
          if j > 0 {
            assert W'[j].start in rest[1..];
          }
        }
        OrderCons(b0, W', maxGap);
      }
    }
  }

  lemma OrderCons(b0: Block, W': seq<Block>, maxGap: int)
    requires Ascending(W') && Separated(W', maxGap)
    requires forall j :: 0 <= j < |W'| ==> End(b0) < W'[j].start
    requires |W'| > 0 ==> W'[0].start - End(b0) > maxGap
    ensures Ascending([b0] + W') && Separated([b0] + W', maxGap)
  {
    var W := [b0] + W';
    forall i, j | 0 <= i < j < |W| ensures End(W[i]) < W[j].start {
      assert W[j] == W'[j - 1];
      if i > 0 {
        assert W[i] == W'[i - 1];
      }
    }
    forall i | 0 <= i < |W| - 1 ensures W[i + 1].start - End(W[i]) > maxGap {
      assert W[i + 1] == W'[i];
      if i > 0 {
        assert W[i] == W'[i - 1];
      }
    }
  }

  lemma {:induction false} WalkCovers(rest: seq<int>, start: int, end: int, maxGap: int)
    requires start <= end
    requires StrictlyIncreasing([end] + rest)
    ensures var W := Walk(rest, start, end, maxGap);
      forall a :: a in [end] + rest ==> BlockIndex(W, a) < |W|
    decreases |rest|
  {
    var W := Walk(rest, start, end, maxGap);
    WalkFirst(rest, start, end, maxGap);
    assert Covers(W[0], end);
    if rest != [] {
      var r0 := rest[0];
      IncreasingSplit(end, rest);
      assert [r0] + rest[1..] == rest;
      if r0 - end <= maxGap {
        WalkCovers(rest[1..], start, r0, maxGap);
      } else {
        WalkCovers(rest[1..], r0, r0, maxGap);
        var W' := Walk(rest[1..], r0, r0, maxGap);
        assert W[1..] == W';
        forall a | a in rest ensures BlockIndex(W, a) < |W| {
          assert BlockIndex(W', a) < |W'|;
        }
      }
    }
  }

  /** Neighbouring addresses share a block exactly when their distance is at most `maxGap`. */
  ghost predicate GapsMatch(W: seq<Block>, xs: seq<int>, maxGap: int) {
    forall j :: 0 <= j < |xs| - 1 ==>
      (xs[j + 1] - xs[j] <= maxGap <==> BlockIndex(W, xs[j]) == BlockIndex(W, xs[j + 1]))
  }

  lemma {:induction false} WalkGaps(rest: seq<int>, start: int, end: int, maxGap: int)
    requires start <= end
    requires StrictlyIncreasing([end] + rest)
    ensures GapsMatch(Walk(rest, start, end, maxGap), [end] + rest, maxGap)
    decreases |rest|
  {
    if rest != [] {
      var r0 := rest[0];
      IncreasingSplit(end, rest);
      assert [r0] + rest[1..] == rest;
      if r0 - end <= maxGap {
        WalkGaps(rest[1..], start, r0, maxGap);
        GapsJoin(rest, start, end, maxGap);
      } else {
        IncreasingSplit(r0, rest[1..]);
        WalkGaps(rest[1..], r0, r0, maxGap);
        GapsBreak(rest, start, end, maxGap);
      }
    }
  }

  /** The step of `WalkGaps` where the next address joins the open block. */
  lemma GapsJoin(rest: seq<int>, start: int, end: int, maxGap: int)
    requires start <= end && rest != [] && rest[0] - end <= maxGap
    requires StrictlyIncreasing([end] + rest)
    requires GapsMatch(Walk(rest[1..], start, rest[0], maxGap), rest, maxGap)
    ensures GapsMatch(Walk(rest, start, end, maxGap), [end] + rest, maxGap)
  {
    var W := Walk(rest, start, end, maxGap);
    var xs := [end] + rest;
    var r0 := rest[0];
    assert [r0] + rest[1..] == rest;
    IncreasingSplit(end, rest);
    WalkFirst(rest[1..], start, r0, maxGap);
    assert Covers(W[0], end) && Covers(W[0], r0);
    forall j | 1 <= j < |xs| - 1
      ensures xs[j + 1] - xs[j] <= maxGap <==> BlockIndex(W, xs[j]) == BlockIndex(W, xs[j + 1])
    {
      assert xs[j] == rest[j - 1] && xs[j + 1] == rest[j];
    }
  }

  /** An address outside the first block has its index in the later blocks, plus one. */
  lemma IndexShift(b0: Block, W: seq<Block>, a: int)
    requires !Covers(b0, a)
    ensures BlockIndex([b0] + W, a) == 1 + BlockIndex(W, a)
  {
    assert ([b0] + W)[1..] == W;
  }

  /** The step of `WalkGaps` where the next address opens a new block. */
  lemma GapsBreak(rest: seq<int>, start: int, end: int, maxGap: int)
    requires start <= end && rest != [] && rest[0] - end > maxGap
    requires StrictlyIncreasing([end] + rest)
    requires GapsMatch(Walk(rest[1..], rest[0], rest[0], maxGap), rest, maxGap)
    ensures GapsMatch(Walk(rest, start, end, maxGap), [end] + rest, maxGap)
  {
    var b0 := Block(start, end - start + 1);
    var W' := Walk(rest[1..], rest[0], rest[0], maxGap);
    assert Walk(rest, start, end, maxGap) == [b0] + W';
    IncreasingSplit(end, rest);
    GapsPrepend(b0, W', end, rest, maxGap);
  }

  /** A closed block holding only `end` keeps the gap property when put in front. */
  lemma GapsPrepend(b0: Block, W: seq<Block>, end: int, rest: seq<int>, maxGap: int)
    requires Covers(b0, end) && rest != [] && rest[0] - end > maxGap
    requires forall i :: 0 <= i < |rest| ==> !Covers(b0, rest[i])
    requires GapsMatch(W, rest, maxGap)
    ensures GapsMatch([b0] + W, [end] + rest, maxGap)
  {
    var xs := [end] + rest;
    var V := [b0] + W;
    assert BlockIndex(V, end) == 0;
    IndexShift(b0, W, rest[0]);
    forall j | 1 <= j < |xs| - 1
      ensures xs[j + 1] - xs[j] <= maxGap <==> BlockIndex(V, xs[j]) == BlockIndex(V, xs[j + 1])
    {
      assert xs[j] == rest[j - 1] && xs[j + 1] == rest[j];
      IndexShift(b0, W, rest[j - 1]);
      IndexShift(b0, W, rest[j]);
    }
  }

  lemma PlanShape(addresses: seq<int>, maxGap: int)
    ensures var B := Plan(addresses, maxGap);
      && (B == [] <==> addresses == [])
      && (forall i :: 0 <= i < |B| ==>
            B[i].count >= 1 && B[i].start in addresses && End(B[i]) in addresses)
      && Ascending(B) && Separated(B, maxGap)
  {
    var s := SortedDistinct(addresses);
    EmptyElems(addresses);
    EmptyElems(s);
    if s != [] {
      SortedShape(s, maxGap);
      var B := Plan(addresses, maxGap);
      forall i | 0 <= i < |B| ensures B[i].start in addresses && End(B[i]) in addresses {
        assert B[i].start in Elems(s) && End(B[i]) in Elems(s);
      }
    }
  }

  /** `PlanShape` for an address list that is already sorted and distinct. */
  lemma SortedShape(s: seq<int>, maxGap: int)
    requires s != [] && StrictlyIncreasing(s)
    ensures var B := PlanSorted(s, maxGap);
      && B != []
      && (forall i :: 0 <= i < |B| ==> B[i].count >= 1 && B[i].start in s && End(B[i]) in s)
      && Ascending(B) && Separated(B, maxGap)
  {
    assert [s[0]] + s[1..] == s;
    WalkFirst(s[1..], s[0], s[0], maxGap);
    WalkAnchors(s[1..], s[0], s[0], maxGap);
    WalkOrder(s[1..], s[0], s[0], maxGap);
    var B := PlanSorted(s, maxGap);
    assert Anchored(B, s[1..], s[0]);
    BlocksWithin(B, s);
  }

  /** Blocks anchored on a non-empty address list, the first starting at its head, are non-empty and start and end on it. */
  lemma BlocksWithin(B: seq<Block>, s: seq<int>)
    requires s != [] && Anchored(B, s[1..], s[0])
    requires B != [] ==> B[0].start == s[0]
    ensures forall i :: 0 <= i < |B| ==> B[i].count >= 1 && B[i].start in s && End(B[i]) in s
  {
    assert [s[0]] + s[1..] == s;
    forall i | 0 <= i < |B| ensures B[i].count >= 1 && B[i].start in s && End(B[i]) in s {
      if i > 0 {
        assert B[i].start in s[1..];
      }
    }
  }


  /** Every input address lies in exactly one block. */
  lemma PlanCoverage(addresses: seq<int>, maxGap: int)
    ensures var B := Plan(addresses, maxGap);
      && (forall a :: a in addresses ==> BlockIndex(B, a) < |B|)
      && (forall a, i :: 0 <= i < |B| && Covers(B[i], a) ==> i == BlockIndex(B, a))
  {
    var s := SortedDistinct(addresses);
    var B := Plan(addresses, maxGap);
    PlanShape(addresses, maxGap);
    if s != [] {
      assert [s[0]] + s[1..] == s;
      WalkCovers(s[1..], s[0], s[0], maxGap);
      forall a | a in addresses ensures BlockIndex(B, a) < |B| {
        assert a in Elems(s);
      }
    }
  }

  /**
   * Two neighbouring sorted addresses share a block exactly when they are at
   * most `maxGap` apart (an equal gap extends the block).
   */
  lemma PlanGaps(addresses: seq<int>, maxGap: int)
    ensures var s := SortedDistinct(addresses); var B := Plan(addresses, maxGap);
      forall j :: 0 <= j < |s| - 1 ==>
        (s[j + 1] - s[j] <= maxGap <==> BlockIndex(B, s[j]) == BlockIndex(B, s[j + 1]))
  {
    var s := SortedDistinct(addresses);
    if s != [] {
      assert [s[0]] + s[1..] == s;
      WalkGaps(s[1..], s[0], s[0], maxGap);
    }
  }

  /** Duplicates and the order of the input do not change the plan. */
  lemma PlanDependsOnlyOnSet(xs: seq<int>, ys: seq<int>, maxGap: int)
    requires Elems(xs) == Elems(ys)
    ensures Plan(xs, maxGap) == Plan(ys, maxGap)
  {
    SortedUnique(SortedDistinct(xs), SortedDistinct(ys));
  }

  /** How far the address at `i + 1` lies past the one at `i`. */
  function Step(s: seq<int>, i: int): int
    requires 0 <= i < |s| - 1
  {
    s[i + 1] - s[i]
  }

  /** Addresses from `j` on that each lie at most `maxGap` past the previous one all join the open block. */
  lemma {:induction false} WalkRun(s: seq<int>, j: nat, start: int, maxGap: int)
    requires j < |s|
    requires forall i :: j <= i < |s| - 1 ==> Step(s, i) <= maxGap
    ensures Walk(s[j + 1..], start, s[j], maxGap) == [Block(start, s[|s| - 1] - start + 1)]
    decreases |s| - j
  {
    if j < |s| - 1 {
      assert s[j + 1..][0] == s[j + 1] && s[j + 1..][1..] == s[j + 2..];
      assert Step(s, j) <= maxGap;
      WalkRun(s, j + 1, start, maxGap);
    }
  }

  /**
   * The first address more than `maxGap` past its predecessor, at `k`, closes
   * the open block at `s[k - 1]` and opens the next one at `s[k]`.
   */
  lemma {:induction false} WalkBreak(s: seq<int>, j: nat, k: nat, start: int, maxGap: int)
    requires j < k < |s|
    requires forall i :: j <= i < k - 1 ==> Step(s, i) <= maxGap
    requires Step(s, k - 1) > maxGap
    ensures Walk(s[j + 1..], start, s[j], maxGap)
      == [Block(start, s[k - 1] - start + 1)] + Walk(s[k + 1..], s[k], s[k], maxGap)
    decreases k - j
  {
    assert s[j + 1..][0] == s[j + 1] && s[j + 1..][1..] == s[j + 2..];
    if j < k - 1 {
      assert Step(s, j) <= maxGap;
      WalkBreak(s, j + 1, k, start, maxGap);
    }
  }

  /** Each address lies past the one before it: the sequence is strictly increasing from `i` to `j`. */
  lemma {:induction false} StepsChain(s: seq<int>, i: nat, j: nat)
    requires forall n :: 0 <= n < |s| - 1 ==> Step(s, n) > 0
    requires i < j < |s|
    ensures s[i] < s[j]
    decreases j - i
  {
    assert Step(s, i) > 0;
    if i + 1 < j {
      StepsChain(s, i + 1, j);
    }
  }

  lemma StepsIncreasing(s: seq<int>)
    requires forall n :: 0 <= n < |s| - 1 ==> Step(s, n) > 0
    ensures StrictlyIncreasing(s)
  {
    forall i, j | 0 <= i < j < |s| ensures s[i] < s[j] {
      StepsChain(s, i, j);
    }
  }

  /** Sorted addresses with exactly one step wider than `maxGap`, at `k`, make two blocks. */
  lemma TwoRuns(s: seq<int>, k: nat, maxGap: int)
    requires 0 < k < |s|
    requires forall i :: 0 <= i < k - 1 ==> Step(s, i) <= maxGap
    requires Step(s, k - 1) > maxGap
    requires forall i :: k <= i < |s| - 1 ==> Step(s, i) <= maxGap
    ensures PlanSorted(s, maxGap)
      == [Block(s[0], s[k - 1] - s[0] + 1), Block(s[k], s[|s| - 1] - s[k] + 1)]
  {
    WalkBreak(s, 0, k, s[0], maxGap);
    WalkRun(s, k, s[k], maxGap);
  }

  // ---------------------------------------------------------------------
  // Planning the covered registers again
  // ---------------------------------------------------------------------

  /** `range(lo, hi)`: the addresses from `lo` up to, not including, `hi`. */
  function Range(lo: int, hi: int): seq<int>
    decreases hi - lo
  {
    if lo < hi then [lo] + Range(lo + 1, hi) else []
  }

  lemma {:induction false} RangeIndex(lo: int, hi: int)
    ensures |Range(lo, hi)| == if lo < hi then hi - lo else 0
    ensures forall i :: 0 <= i < |Range(lo, hi)| ==> Range(lo, hi)[i] == lo + i
    decreases hi - lo
  {
    if lo < hi {
      RangeIndex(lo + 1, hi);
    }
  }

  /** Every register the blocks read, block after block. */
  function Covered(B: seq<Block>): seq<int> {
    if B == [] then [] else Range(B[0].start, B[0].start + B[0].count) + Covered(B[1..])
  }

  /** The blocks are non-empty, single registers unless `maxGap` lets neighbours join, and more than `maxGap` apart. */
  ghost predicate BlocksFit(B: seq<Block>, maxGap: int) {
    && (forall i :: 0 <= i < |B| ==> B[i].count >= 1 && (B[i].count > 1 ==> maxGap >= 1))
    && Separated(B, maxGap)
  }

  /** Consecutive registers after the open block's end all join it. */
  lemma {:induction false} WalkRange(hi: int, tail: seq<int>, start: int, end: int, maxGap: int)
    requires end < hi
    requires end + 1 < hi ==> maxGap >= 1
    ensures Walk(Range(end + 1, hi) + tail, start, end, maxGap) == Walk(tail, start, hi - 1, maxGap)
    decreases hi - end
  {
    var rest := Range(end + 1, hi) + tail;
    if end + 1 < hi {
      assert rest[0] == end + 1;
      assert rest[1..] == Range(end + 2, hi) + tail;
      WalkRange(hi, tail, start, end + 1, maxGap);
    } else {
      assert rest == tail;
    }
  }

  lemma BlocksFitTail(B: seq<Block>, maxGap: int)
    requires B != [] && BlocksFit(B, maxGap)
    ensures BlocksFit(B[1..], maxGap)
    ensures B[0].count >= 1 && (B[0].count > 1 ==> maxGap >= 1)
    ensures |B| > 1 ==> B[1].start - End(B[0]) > maxGap
  {
    assert forall i :: 0 <= i < |B| - 1 ==> B[1..][i] == B[i + 1];
  }

  /** The registers of the first block, then the rest. */
  lemma CoveredHead(B: seq<Block>)
    requires B != [] && B[0].count >= 1
    ensures Covered(B)[0] == B[0].start
    ensures Covered(B)[1..] == Range(B[0].start + 1, B[0].start + B[0].count) + Covered(B[1..])
  {
    var lo, hi := B[0].start, B[0].start + B[0].count;
    var R1 := Range(lo + 1, hi);
    var T := Covered(B[1..]);
    assert Range(lo, hi) == [lo] + R1;
    assert Covered(B) == ([lo] + R1) + T;
    assert ([lo] + R1) + T == [lo] + (R1 + T);
  }

  /** Walking the registers of fitting blocks, after an open block, gives back the open block and then those blocks. */
  lemma {:induction false} WalkCovered(B: seq<Block>, start: int, end: int, maxGap: int)
    requires BlocksFit(B, maxGap)
    requires B != [] ==> B[0].start - end > maxGap
    ensures Walk(Covered(B), start, end, maxGap) == [Block(start, end - start + 1)] + B
    decreases |B|
  {
    if B != [] {
      var b := B[0];
      BlocksFitTail(B, maxGap);
      CoveredHead(B);
      WalkRange(b.start + b.count, Covered(B[1..]), b.start, b.start, maxGap);
      WalkCovered(B[1..], b.start, End(b), maxGap);
      assert Block(b.start, End(b) - b.start + 1) == b;
      assert [b] + B[1..] == B;
    }
  }

  /** The registers of ascending, non-empty blocks are strictly increasing, from the first block's start on. */
  lemma {:induction false} CoveredIncreasing(B: seq<Block>)
    requires forall i :: 0 <= i < |B| ==> B[i].count >= 1
    requires Ascending(B)
    ensures StrictlyIncreasing(Covered(B))
    ensures B != [] ==> forall i :: 0 <= i < |Covered(B)| ==> B[0].start <= Covered(B)[i]
    decreases |B|
  {
    if B != [] {
      var R := Range(B[0].start, B[0].start + B[0].count);
      var T := Covered(B[1..]);
      RangeIndex(B[0].start, B[0].start + B[0].count);
      assert Ascending(B[1..]);
      assert forall i :: 0 <= i < |B[1..]| ==> B[1..][i].count >= 1;
      CoveredIncreasing(B[1..]);
      if B[1..] != [] {
        assert B[1..][0] == B[1];
        assert End(B[0]) < B[1].start;
      }
      forall i, j | 0 <= i < |R| && 0 <= j < |T| ensures R[i] < T[j] {
        assert B[1..][0].start <= T[j];
      }
      ConcatIncreasing(R, T);
      assert Covered(B) == R + T;
      forall i | 0 <= i < |R + T| ensures B[0].start <= (R + T)[i] {
        if i < |R| {
          assert (R + T)[i] == R[i];
        } else {
          assert (R + T)[i] == T[i - |R|];
          assert B[1..][0] == B[1] && End(B[0]) < B[1].start;
          assert B[1..][0].start <= T[i - |R|];
        }
      }
    }
  }

  lemma ConcatIncreasing(a: seq<int>, b: seq<int>)
    requires StrictlyIncreasing(a) && StrictlyIncreasing(b)
    requires forall i, j :: 0 <= i < |a| && 0 <= j < |b| ==> a[i] < b[j]
    ensures StrictlyIncreasing(a + b)
  {
  }


  /** Planning the registers of fitting, ascending blocks gives back those blocks. */
  lemma PlanCovered(B: seq<Block>, maxGap: int)
    requires BlocksFit(B, maxGap) && Ascending(B)
    ensures Plan(Covered(B), maxGap) == B
  {
    var C := Covered(B);
    CoveredIncreasing(B);
    SortedUnique(SortedDistinct(C), C);
    PlanSortedCovered(B, maxGap);
  }

  lemma PlanSortedCovered(B: seq<Block>, maxGap: int)
    requires BlocksFit(B, maxGap)
    ensures PlanSorted(Covered(B), maxGap) == B
  {
    if B != [] {
      var b := B[0];
      var R1 := Range(b.start + 1, b.start + b.count);
      var T := Covered(B[1..]);
      BlocksFitTail(B, maxGap);
      CoveredHead(B);
      assert PlanSorted(Covered(B), maxGap) == Walk(R1 + T, b.start, b.start, maxGap);
      WalkRange(b.start + b.count, T, b.start, b.start, maxGap);
      assert B[1..] != [] ==> B[1..][0] == B[1];
      WalkCovered(B[1..], b.start, End(b), maxGap);
      assert Block(b.start, End(b) - b.start + 1) == b;
      assert [b] + B[1..] == B;
    }
  }

  /** With `maxGap` below 1 no two addresses share a block. */
  lemma {:induction false} WalkSingles(rest: seq<int>, start: int, maxGap: int)
    requires maxGap < 1
    requires StrictlyIncreasing([start] + rest)
    ensures forall i :: 0 <= i < |Walk(rest, start, start, maxGap)| ==> Walk(rest, start, start, maxGap)[i].count == 1
    decreases |rest|
  {
    if rest != [] {
      IncreasingSplit(start, rest);
      assert [rest[0]] + rest[1..] == rest;
      WalkSingles(rest[1..], rest[0], maxGap);
      var W := Walk(rest[1..], rest[0], rest[0], maxGap);
      assert Walk(rest, start, start, maxGap) == [Block(start, 1)] + W;
    }
  }

  lemma PlanFits(xs: seq<int>, maxGap: int)
    ensures BlocksFit(Plan(xs, maxGap), maxGap) && Ascending(Plan(xs, maxGap))
  {
    PlanShape(xs, maxGap);
    var s := SortedDistinct(xs);
    if maxGap < 1 && s != [] {
      assert [s[0]] + s[1..] == s;
      WalkSingles(s[1..], s[0], maxGap);
    }
  }

  /** Planning the registers a plan reads, with the same gap, gives the same plan. */
  lemma PlanIdempotent(xs: seq<int>, maxGap: int)
    ensures Plan(Covered(Plan(xs, maxGap)), maxGap) == Plan(xs, maxGap)
  {
    PlanFits(xs, maxGap);
    PlanCovered(Plan(xs, maxGap), maxGap);
  }
}

/**
 Splitting a range at the L2 safe heads: the search for the L1 block, the collection of heads,
 and the cutting loops of the Go proposer and of the Rust host.
 */
module SafeHeads {
  import opened Prelude
  import opened Spans

  /** Non-empty spans of at most `size` blocks that cover [start, end) in order, without gap or overlap. */
  ghost predicate TilesExactly(spans: seq<Span>, start: nat, end: nat, size: nat) {
    if spans == [] then start == end
    else
      && spans[0].start == start < spans[0].end <= start + size
      && TilesExactly(spans[1..], spans[0].end, end, size)
  }

  lemma {:induction false} TilesConcat(a: seq<Span>, b: seq<Span>, start: nat, mid: nat, end: nat, size: nat)
    requires TilesExactly(a, start, mid, size)
    ensures TilesExactly(a + b, start, end, size) <==> TilesExactly(b, mid, end, size)
    decreases |a|
  {
    if a == [] {
      assert a + b == b;
    } else {
      TilesConcat(a[1..], b, a[0].end, mid, end, size);
      assert (a + b)[1..] == a[1..] + b;
    }
  }

  // The cuts.

  /** Spans of `size` blocks and a last one of at most that. */
  function Chunks(start: nat, end: nat, size: nat): seq<Span>
    requires size > 0
    decreases if start < end then end - start else 0
  {
    if start + size < end then [Span(start, start + size)] + Chunks(start + size, end, size) else [Span(start, end)]
  }

  lemma {:induction false} ChunksTile(start: nat, end: nat, size: nat)
    requires size > 0 && start < end
    ensures TilesExactly(Chunks(start, end, size), start, end, size)
    decreases end - start
  {
    if start + size < end {
      ChunksTile(start + size, end, size);
      assert Chunks(start, end, size)[1..] == Chunks(start + size, end, size);
    } else {
      assert Chunks(start, end, size)[1..] == [];
    }
  }

  /** The cutting loop of the Go proposer over the heads that remain. */
  function GoCut(heads: seq<nat>, current: nat, end: nat, size: nat): seq<Span>
    requires size > 0
  {
    if heads == [] then []
    else if current < heads[0] then
      Chunks(current, Min(end, heads[0]), size) + GoCut(heads[1..], heads[0], end, size)
    else GoCut(heads[1..], current, end, size)
  }

  /** The cutting loop of the Rust host, which also stops once it is past the end. */
  function RustCut(heads: seq<nat>, current: nat, end: nat, size: nat): seq<Span>
    requires size > 0
  {
    if heads == [] then []
    else if current < heads[0] && current < end then
      Chunks(current, Min(end, heads[0]), size) + RustCut(heads[1..], heads[0], end, size)
    else RustCut(heads[1..], current, end, size)
  }

  ghost predicate Ascending(heads: seq<nat>) {
    forall i, j :: 0 <= i < j < |heads| ==> heads[i] < heads[j]
  }

  /** No head but the last reaches the end. */
  ghost predicate AtMostOneBeyond(heads: seq<nat>, end: nat) {
    forall i :: 0 <= i < |heads| - 1 ==> heads[i] < end
  }

  /** The last head, and no other, reaches the end. */
  ghost predicate OneBeyond(heads: seq<nat>, end: nat) {
    heads != [] && heads[|heads| - 1] >= end && AtMostOneBeyond(heads, end)
  }

  lemma BeyondTail(heads: seq<nat>, end: nat)
    requires heads != []
    ensures AtMostOneBeyond(heads, end) <==> AtMostOneBeyond(heads[1..], end) && (|heads| > 1 ==> heads[0] < end)
    ensures |heads| > 1 && heads[0] < end ==> (OneBeyond(heads, end) <==> OneBeyond(heads[1..], end))
  {
    if AtMostOneBeyond(heads[1..], end) && (|heads| > 1 ==> heads[0] < end) {
      forall i | 0 <= i < |heads| - 1 ensures heads[i] < end {
        if i > 0 {
          assert heads[i] == heads[1..][i - 1];
        }
      }
    }
  }

  /** The Go loop tiles the range exactly when one collected head, and only one, reaches its end. */
  lemma {:induction false} GoTilesIff(heads: seq<nat>, start: nat, end: nat, size: nat)
    requires size > 0 && start < end && Ascending(heads)
    ensures TilesExactly(GoCut(heads, start, end, size), start, end, size) <==> OneBeyond(heads, end)
    decreases |heads|
  {
    if heads != [] {
      var h, rest := heads[0], heads[1..];
      BeyondTail(heads, end);
      if h <= start {
        GoTilesIff(rest, start, end, size);
      } else if h < end {
        ChunksTile(start, h, size);
        TilesConcat(Chunks(start, h, size), GoCut(rest, h, end, size), start, h, end, size);
        GoTilesIff(rest, h, end, size);
      } else {
        ChunksTile(start, end, size);
        TilesConcat(Chunks(start, end, size), GoCut(rest, h, end, size), start, end, end, size);
        GoPastEnd(rest, h, end, size);
      }
    }
  }

  /** Past the end, every further head makes the Go loop emit a span that is empty or inverted. */
  lemma GoPastEnd(heads: seq<nat>, current: nat, end: nat, size: nat)
    requires size > 0 && end <= current && Ascending(heads)
    requires forall i :: 0 <= i < |heads| ==> current < heads[i]
    ensures heads != [] ==>
              GoCut(heads, current, end, size) != [] && GoCut(heads, current, end, size)[0] == Span(current, end)
  {
  }

  lemma {:induction false} RustPastEnd(heads: seq<nat>, current: nat, end: nat, size: nat)
    requires size > 0 && end <= current
    ensures RustCut(heads, current, end, size) == []
  {
    if heads != [] {
      RustPastEnd(heads[1..], current, end, size);
    }
  }

  /** The Rust loop tiles the range exactly when some head reaches its end. */
  lemma {:induction false} RustTilesIff(heads: seq<nat>, start: nat, end: nat, size: nat)
    requires size > 0 && start < end && Ascending(heads)
    ensures TilesExactly(RustCut(heads, start, end, size), start, end, size)
       <==> (heads != [] && end <= heads[|heads| - 1])
    decreases |heads|
  {
    if heads != [] {
      var h, rest := heads[0], heads[1..];
      if h <= start {
        RustTilesIff(rest, start, end, size);
      } else if h < end {
        ChunksTile(start, h, size);
        TilesConcat(Chunks(start, h, size), RustCut(rest, h, end, size), start, h, end, size);
        RustTilesIff(rest, h, end, size);
      } else {
        ChunksTile(start, end, size);
        RustPastEnd(rest, h, end, size);
        assert Chunks(start, end, size) + [] == Chunks(start, end, size);
      }
    }
  }

  /** The two loops agree exactly when at most one head reaches the end. */
  lemma {:induction false} GoEqualsRustIff(heads: seq<nat>, start: nat, end: nat, size: nat)
    requires size > 0 && start < end && Ascending(heads)
    ensures GoCut(heads, start, end, size) == RustCut(heads, start, end, size) <==> AtMostOneBeyond(heads, end)
    decreases |heads|
  {
    if heads != [] {
      var h, rest := heads[0], heads[1..];
      BeyondTail(heads, end);
      if h <= start {
        GoEqualsRustIff(rest, start, end, size);
      } else if h < end {
        GoEqualsRustIff(rest, h, end, size);
        ConcatCancel(Chunks(start, h, size), GoCut(rest, h, end, size), RustCut(rest, h, end, size));
      } else {
        RustPastEnd(rest, h, end, size);
        GoPastEnd(rest, h, end, size);
        ConcatCancel(Chunks(start, end, size), GoCut(rest, h, end, size), RustCut(rest, h, end, size));
      }
    }
  }

  lemma ConcatCancel<T>(a: seq<T>, b: seq<T>, c: seq<T>)
    ensures a + b == a + c <==> b == c
  {
    if a + b == a + c {
      assert b == (a + b)[|a|..] && c == (a + c)[|a|..];
    }
  }

  /** Every head strictly inside the range is a cut. */
  lemma {:induction false} GoCutsAtHeads(heads: seq<nat>, start: nat, end: nat, size: nat, h: nat)
    requires size > 0 && Ascending(heads) && h in heads && start < h < end
    ensures exists k :: 0 <= k < |GoCut(heads, start, end, size)| && GoCut(heads, start, end, size)[k].end == h
    decreases |heads|
  {
    var first, rest := heads[0], heads[1..];
    assert heads == [first] + rest;
    var cut := GoCut(heads, start, end, size);
    if first <= start {
      GoCutsAtHeads(rest, start, end, size, h);
    } else {
      var chunks := Chunks(start, Min(end, first), size);
      ChunksEnd(start, Min(end, first), size);
      if first == h {
        assert cut[|chunks| - 1].end == h;
      } else {
        GoCutsAtHeads(rest, first, end, size, h);
        var more := GoCut(rest, first, end, size);
        var k :| 0 <= k < |more| && more[k].end == h;
        assert cut[|chunks| + k] == more[k];
      }
    }
  }

  lemma {:induction false} ChunksEnd(start: nat, end: nat, size: nat)
    requires size > 0
    ensures |Chunks(start, end, size)| > 0 && Chunks(start, end, size)[|Chunks(start, end, size)| - 1].end == end
    decreases if start < end then end - start else 0
  {
    if start + size < end {
      ChunksEnd(start + size, end, size);
    }
  }

  // Spans are as long as they may be.

  predicate LongOrCut(s: Span, heads: seq<nat>, end: nat, size: nat) {
    s.end - s.start < size ==> s.end in heads || s.end == end
  }

  /** A span of fewer than `size` blocks ends at a head or at the end. */
  ghost predicate AsLongAsAllowed(spans: seq<Span>, heads: seq<nat>, end: nat, size: nat) {
    forall k :: 0 <= k < |spans| ==> LongOrCut(spans[k], heads, end, size)
  }

  lemma {:induction false} ChunksLong(start: nat, end: nat, size: nat)
    requires size > 0
    ensures forall k :: 0 <= k < |Chunks(start, end, size)| ==>
      var s := Chunks(start, end, size)[k];
      s.end - s.start == size || s.end == end
    decreases if start < end then end - start else 0
  {
    if start + size < end {
      ChunksLong(start + size, end, size);
    }
  }

  lemma {:induction false} GoLong(heads: seq<nat>, current: nat, end: nat, size: nat)
    requires size > 0
    ensures AsLongAsAllowed(GoCut(heads, current, end, size), heads, end, size)
  {
    hide Chunks;
    if heads != [] {
      GoLong(heads[1..], if current < heads[0] then heads[0] else current, end, size);
      ChunksLong(current, Min(end, heads[0]), size);
      assert forall h :: h in heads[1..] ==> h in heads;
    }
  }

  lemma {:induction false} RustLong(heads: seq<nat>, current: nat, end: nat, size: nat)
    requires size > 0
    ensures AsLongAsAllowed(RustCut(heads, current, end, size), heads, end, size)
  {
    hide Chunks;
    if heads != [] {
      RustLong(heads[1..], if current < heads[0] && current < end then heads[0] else current, end, size);
      ChunksLong(current, Min(end, heads[0]), size);
      assert forall h :: h in heads[1..] ==> h in heads;
    }
  }

  /** What the splitters promise of their spans. */
  ghost predicate RightCut(spans: seq<Span>, heads: seq<nat>, start: nat, end: nat, size: nat) {
    && TilesExactly(spans, start, end, size)
    && AsLongAsAllowed(spans, heads, end, size)
    && (forall h :: h in heads && start < h < end ==> CutAt(spans, h))
  }

  ghost predicate CutAt(spans: seq<Span>, b: nat) {
    exists k :: 0 <= k < |spans| && spans[k].end == b
  }

  /** In a tiling, later spans end after the first one. */
  lemma {:induction false} TilesBeyond(spans: seq<Span>, start: nat, end: nat, size: nat)
    requires TilesExactly(spans, start, end, size)
    ensures start <= end && forall k :: 0 <= k < |spans| ==> start < spans[k].end <= end
  {
    if spans != [] {
      TilesBeyond(spans[1..], spans[0].end, end, size);
      assert forall k :: 1 <= k < |spans| ==> spans[k] == spans[1..][k - 1];
    }
  }

  lemma TailCut(spans: seq<Span>, heads: seq<nat>, start: nat, end: nat, size: nat)
    requires RightCut(spans, heads, start, end, size) && spans != []
    ensures RightCut(spans[1..], heads, spans[0].end, end, size)
  {
    forall h | h in heads && spans[0].end < h < end ensures CutAt(spans[1..], h) {
      var k :| 0 <= k < |spans| && spans[k].end == h;
      assert spans[1..][k - 1].end == h;
    }
  }

  /** No first span of a right cut is shorter than that of another. */
  lemma FirstNotShorter(a: seq<Span>, b: seq<Span>, heads: seq<nat>, start: nat, end: nat, size: nat)
    requires RightCut(a, heads, start, end, size) && RightCut(b, heads, start, end, size) && a != [] && b != []
    ensures b[0].end <= a[0].end
  {
    TilesBeyond(b, start, end, size);
    TilesBeyond(b[1..], b[0].end, end, size);
    assert LongOrCut(a[0], heads, end, size);
    assert forall k :: 1 <= k < |b| ==> b[k] == b[1..][k - 1];
  }

  /** There is only one right cut. */
  lemma {:induction false} RightCutUnique(
      a: seq<Span>, b: seq<Span>, heads: seq<nat>, start: nat, end: nat, size: nat)
    requires RightCut(a, heads, start, end, size) && RightCut(b, heads, start, end, size)
    ensures a == b
    decreases |a|
  {
    TilesBeyond(a, start, end, size);
    TilesBeyond(b, start, end, size);
    if a != [] && b != [] {
      FirstNotShorter(a, b, heads, start, end, size);
      FirstNotShorter(b, a, heads, start, end, size);
      TailCut(a, heads, start, end, size);
      TailCut(b, heads, start, end, size);
      RightCutUnique(a[1..], b[1..], heads, a[0].end, end, size);
      assert a == [a[0]] + a[1..] && b == [b[0]] + b[1..];
    }
  }

  /** When one head and only one reaches the end, the Go loop and the Rust loop give the right cut. */
  lemma BothRight(heads: seq<nat>, start: nat, end: nat, size: nat)
    requires size > 0 && start < end && Ascending(heads) && OneBeyond(heads, end)
    ensures RightCut(GoCut(heads, start, end, size), heads, start, end, size)
    ensures RustCut(heads, start, end, size) == GoCut(heads, start, end, size)
  {
    hide GoCut, RustCut, TilesExactly, AsLongAsAllowed;
    GoTilesIff(heads, start, end, size);
    GoEqualsRustIff(heads, start, end, size);
    GoLong(heads, start, end, size);
    forall h | h in heads && start < h < end ensures CutAt(GoCut(heads, start, end, size), h) {
      GoCutsAtHeads(heads, start, end, size, h);
    }
  }

  // The search and the collection.

  /**
   From the start block on, L1 origins rise with L2 blocks, and a safe head read at an L1 block derives
   from it or an earlier one. Only the L1 blocks from the start block's origin to the latest are read.
   */
  ghost predicate Consistent(safeHead: nat -> nat, origin: nat -> nat, start: nat, latest: nat) {
    && (forall a: nat, b: nat :: start <= a <= b ==> origin(a) <= origin(b))
    && (forall x: nat :: origin(start) <= x <= latest ==> origin(safeHead(x)) <= x)
  }

  /** The first L1 block from the end block's origin on whose safe head reaches the end block. */
  ghost predicate FirstReaching(safeHead: nat -> nat, origin: nat -> nat, latest: nat, end: nat, head: nat) {
    && origin(end) <= head <= latest && end <= safeHead(head)
    && forall x :: origin(end) <= x < head ==> safeHead(x) < end
  }

  method GetL1HeadForL2Block(safeHead: nat -> nat, origin: nat -> nat, latest: nat, end: nat)
    returns (head: Option<nat>)
    ensures head.Some? ==> FirstReaching(safeHead, origin, latest, end, head.value)
    ensures head.None? ==> forall x :: origin(end) <= x <= latest ==> safeHead(x) < end
  {
    var current := origin(end);
    while current <= latest
      invariant origin(end) <= current
      invariant forall x :: origin(end) <= x < current ==> safeHead(x) < end
      decreases latest + 1 - current
    {
      if end <= safeHead(current) {
        return Some(current);
      }
      current := current + 1;
    }
    return None;
  }

  /** The safe heads read at the L1 blocks from `from` up to and including `head`. */
  ghost function Collected(safeHead: nat -> nat, from: nat, head: nat): set<nat> {
    set x | from <= x <= head :: safeHead(x)
  }

  /** Of the collected heads only the one at the L1 head reaches the end block. */
  lemma CollectedBeyond(safeHead: nat -> nat, origin: nat -> nat, latest: nat, start: nat, end: nat, head: nat)
    requires Consistent(safeHead, origin, start, latest) && start < end
    requires origin(end) <= head <= latest && end <= safeHead(head)
    requires forall x :: origin(end) <= x < head ==> safeHead(x) < end
    ensures safeHead(head) in Collected(safeHead, origin(start), head)
    ensures forall h :: h in Collected(safeHead, origin(start), head) && end <= h ==> h == safeHead(head)
  {
    forall h | h in Collected(safeHead, origin(start), head) && end <= h ensures h == safeHead(head) {
      var x: nat :| origin(start) <= x <= head && safeHead(x) == h;
      assert origin(end) <= origin(h) <= x;
    }
  }

  /** The elements of a set in ascending order. */
  ghost predicate Sorts(heads: seq<nat>, s: set<nat>) {
    Ascending(heads) && forall h: nat :: h in heads <==> h in s
  }

  lemma SortsBeyond(heads: seq<nat>, s: set<nat>, end: nat, top: nat)
    requires Sorts(heads, s) && top in s && end <= top
    requires forall h :: h in s && end <= h ==> h == top
    ensures OneBeyond(heads, end)
  {
    var k :| 0 <= k < |heads| && heads[k] == top;
    forall i | 0 <= i < |heads| ensures heads[i] <= top && (heads[i] < end || i == k) {
      assert heads[i] in s;
    }
    assert heads[|heads| - 1] <= heads[k];
    assert k == |heads| - 1;
  }

  method SortHeads(s: set<nat>) returns (heads: seq<nat>)
    ensures Sorts(heads, s)
  {
    heads := [];
    var rest := s;
    while rest != {}
      invariant rest <= s && Ascending(heads)
      invariant forall h: nat :: h in heads <==> h in s && h !in rest
      invariant forall i, r :: 0 <= i < |heads| && r in rest ==> heads[i] < r
      decreases rest
    {
      LeastExists(rest);
      var least :| least in rest && forall r :: r in rest ==> least <= r;
      heads := heads + [least];
      rest := rest - {least};
    }
  }

  lemma {:induction false} LeastExists(s: set<nat>)
    requires s != {}
    ensures exists m :: m in s && forall r :: r in s ==> m <= r
  {
    var x :| x in s;
    if s != {x} {
      var t := s - {x};
      assert t != {};
      LeastExists(t);
      var m :| m in t && forall r :: r in t ==> m <= r;
      var least := if m <= x then m else x;
      assert forall r :: r in s ==> r == x || r in t;
      assert least in s && forall r :: r in s ==> least <= r;
    } else {
      assert x in s && forall r :: r in s ==> x <= r;
    }
  }

  method CutGo(heads: seq<nat>, start: nat, end: nat, size: nat) returns (spans: seq<Span>)
    requires size > 0
    ensures spans == GoCut(heads, start, end, size)
    ensures AsLongAsAllowed(spans, heads, end, size)
  {
    GoLong(heads, start, end, size);
    spans := [];
    var current: nat := start;
    for i := 0 to |heads|
      invariant spans + GoCut(heads[i..], current, end, size) == GoCut(heads, start, end, size)
    {
      assert heads[i..][0] == heads[i] && heads[i..][1..] == heads[i + 1..];
      if current < heads[i] {
        ghost var before := spans;
        var rangeStart: nat := current;
        while rangeStart + size < Min(end, heads[i])
          invariant spans + Chunks(rangeStart, Min(end, heads[i]), size)
                 == before + Chunks(current, Min(end, heads[i]), size)
          decreases Min(end, heads[i]) - rangeStart
        {
          spans := spans + [Span(rangeStart, rangeStart + size)];
          rangeStart := rangeStart + size;
        }
        spans := spans + [Span(rangeStart, Min(end, heads[i]))];
        current := heads[i];
      }
    }
  }

  method CutRust(heads: seq<nat>, start: nat, end: nat, size: nat) returns (ranges: seq<Span>)
    requires size > 0
    ensures ranges == RustCut(heads, start, end, size)
    ensures AsLongAsAllowed(ranges, heads, end, size)
  {
    RustLong(heads, start, end, size);
    ranges := [];
    var current: nat := start;
    for i := 0 to |heads|
      invariant ranges + RustCut(heads[i..], current, end, size) == RustCut(heads, start, end, size)
    {
      assert heads[i..][0] == heads[i] && heads[i..][1..] == heads[i + 1..];
      if current < heads[i] && current < end {
        ghost var before := ranges;
        var rangeStart: nat := current;
        while rangeStart + size < Min(end, heads[i])
          invariant ranges + Chunks(rangeStart, Min(end, heads[i]), size)
                 == before + Chunks(current, Min(end, heads[i]), size)
          decreases Min(end, heads[i]) - rangeStart
        {
          ranges := ranges + [Span(rangeStart, rangeStart + size)];
          rangeStart := rangeStart + size;
        }
        ranges := ranges + [Span(rangeStart, Min(end, heads[i]))];
        current := heads[i];
      }
    }
  }

  /**
   The Go splitter. When the L1 head is found, the spans tile [start, end) exactly, are cut at
   every collected head strictly inside and nowhere else before they are full, and are those of the
   Rust loop on the same heads.
   */
  method SplitRangeBasedOnSafeHeads(
      safeHead: nat -> nat, origin: nat -> nat, latest: nat, start: nat, end: nat, size: nat)
    returns (r: Option<seq<Span>>)
    requires Consistent(safeHead, origin, start, latest) && start < end && size > 0
    ensures r.None? <==> forall x :: origin(end) <= x <= latest ==> safeHead(x) < end
    ensures r.Some? ==> TilesExactly(r.value, start, end, size)
    ensures r.Some? ==> exists head: nat, heads: seq<nat> ::
      FirstReaching(safeHead, origin, latest, end, head)
      && Sorts(heads, Collected(safeHead, origin(start), head)) && r.value == RustCut(heads, start, end, size)
      && RightCut(r.value, heads, start, end, size)
  {
    var found := GetL1HeadForL2Block(safeHead, origin, latest, end);
    if found.None? {
      return None;
    }
    var head := found.value;
    CollectedBeyond(safeHead, origin, latest, start, end, head);
    var collected: set<nat> := {};
    for x := origin(start) to head + 1
      invariant collected == set y | origin(start) <= y < x :: safeHead(y)
    {
      collected := collected + {safeHead(x)};
    }
    assert collected == Collected(safeHead, origin(start), head);
    var heads := SortHeads(collected);
    SortsBeyond(heads, collected, end, safeHead(head));
    BothRight(heads, start, end, size);
    var spans := CutGo(heads, start, end, size);
    assert safeHead(head) >= end && origin(end) <= head <= latest;
    return Some(spans);
  }

  /** Two heads past the end: the Go loop then emits the inverted span (10, 5). */
  lemma GoInvertedSpan()
    ensures GoCut([10, 20], 0, 5, 30) == [Span(0, 5), Span(10, 5)]
    ensures RustCut([10, 20], 0, 5, 30) == [Span(0, 5)]
  {
    assert [10, 20][1..] == [20] && [20][1..] == [];
    assert GoCut([20], 10, 5, 30) == Chunks(10, 5, 30) + GoCut([], 20, 5, 30);
    RustPastEnd([20], 10, 5, 30);
  }

  // The Rust splitter without safe heads.

  /** The full spans of the Go basic split and, when it leaves one, the remainder. */
  ghost function WithRemainder(start: nat, end: nat, size: nat): seq<Span>
    requires size > 0
  {
    var last := FullSpansEnd(start, end, size);
    FullSpans(start, end, size) + (if last < end then [Span(last, end)] else [])
  }

  lemma RemainderStep(start: nat, end: nat, size: nat)
    requires size > 0 && start < end
    ensures WithRemainder(start, end, size)
         == [Span(start, Min(start + size, end))] + WithRemainder(Min(start + size, end), end, size)
  {
    if start + size <= end {
      var last := FullSpansEnd(start, end, size);
      var tail := if last < end then [Span(last, end)] else [];
      assert [Span(start, start + size)] + FullSpans(start + size, end, size) + tail
          == [Span(start, start + size)] + (FullSpans(start + size, end, size) + tail);
    }
  }

  lemma {:induction false} RemainderTiles(start: nat, end: nat, size: nat)
    requires size > 0 && start <= end
    ensures TilesExactly(WithRemainder(start, end, size), start, end, size)
    decreases end - start
  {
    hide WithRemainder;
    if start < end {
      var next := Min(start + size, end);
      RemainderStep(start, end, size);
      RemainderTiles(next, end, size);
      assert ([Span(start, next)] + WithRemainder(next, end, size))[1..] == WithRemainder(next, end, size);
    } else {
      RemainderNone(end, size);
    }
  }

  lemma RemainderNone(end: nat, size: nat)
    requires size > 0
    ensures WithRemainder(end, end, size) == []
  {
  }

  /** The Rust basic split tiles the range: it is the Go basic split plus the remainder. */
  method SplitRangeBasicRust(start: nat, end: nat, size: nat) returns (ranges: seq<Span>)
    requires size > 0
    ensures start <= end ==> TilesExactly(ranges, start, end, size) && ranges == WithRemainder(start, end, size)
    ensures end <= start ==> ranges == []
  {
    hide WithRemainder;
    ranges := [];
    var current: nat := start;
    while current < end
      invariant start <= end ==> current <= end
      invariant end <= start ==> current == start && ranges == []
      invariant start <= end ==> WithRemainder(start, end, size) == ranges + WithRemainder(current, end, size)
      decreases end - current
    {
      var next := Min(current + size, end);
      RemainderStep(current, end, size);
      ranges := ranges + [Span(current, next)];
      current := next;
    }
    if start <= end {
      RemainderNone(end, size);
      assert ranges == WithRemainder(start, end, size);
      RemainderTiles(start, end, size);
    }
  }
}

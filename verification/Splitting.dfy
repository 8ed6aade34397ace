/** When `RetryRequest` splits a span, where it cuts, and how far splitting can go. */
module Splitting {
  import opened Prelude
  import opened Tallies
  import opened Requests
  import opened Spans
  import opened Scheduler
  import opened Partition
  import opened Aggregates
  import opened Invariant

  function Len(r: Row): int {
    r.end - r.start
  }

  // One retry.

  /** Another request for the range of row `id` has failed. */
  ghost predicate FailedBefore(rows: Table, id: nat)
    requires id < |rows|
  {
    exists j :: 0 <= j < |rows| && j != id && FailedSpan(rows[j]) && SameRange(rows[j], rows[id])
  }

  predicate SameRange(a: Row, b: Row) {
    a.start == b.start && a.end == b.end
  }

  /** New requests for the two halves of r; of an odd number of blocks the second half gets one more. */
  predicate Halves(r: Row, a: Row, b: Row) {
    && a == NewRow(SPAN, r.start, a.end) && b == NewRow(SPAN, a.end, r.end)
    && Len(a) <= Len(b) <= Len(a) + 1
  }

  lemma SeveralFailed(rows: Table, id: nat)
    requires id < |rows| && rows[id].kind == SPAN
    ensures
      var r := rows[id];
      Count(rows[id := r.(status := FAILED)], WithRange(SPAN, r.start, r.end, FAILED)) > 1 <==> FailedBefore(rows, id)
  {
    hide Count;
    var r := rows[id];
    var p := WithRange(SPAN, r.start, r.end, FAILED);
    var others := rows[id := r.(status := UNREQ)];
    CountUpdate(others, id, r.(status := FAILED), p);
    assert others[id := r.(status := FAILED)] == rows[id := r.(status := FAILED)];
    if FailedBefore(rows, id) {
      var j :| 0 <= j < |rows| && j != id && FailedSpan(rows[j]) && SameRange(rows[j], rows[id]);
      CountSome(others, j, p);
    } else {
      CountNone(others, p);
    }
  }

  lemma CountSome(rows: Table, j: nat, p: Row -> bool)
    requires j < |rows| && p(rows[j])
    ensures Count(rows, p) >= 1
  {
    SumAtLeastOne(rows, j, Indicator(p));
  }

  /**
   A retried span is replaced by its two halves if and only if it has more than one block and either
   cannot be executed or had failed before; otherwise the same range is asked for again.
   */
  lemma RetryRule(rows: Table, id: nat, unexecutable: bool)
    requires id < |rows| && rows[id].kind == SPAN && rows[id].start < rows[id].end
    ensures
      var r, n, rows' := rows[id], |rows|, RetryRows(rows, id, unexecutable);
      && n < |rows'| <= n + 2 && rows'[..n] == rows[id := r.(status := FAILED)]
      && (|rows'| == n + 2 <==> Len(r) > 1 && (unexecutable || FailedBefore(rows, id)))
      && (|rows'| == n + 1 ==> rows'[n] == NewRow(SPAN, r.start, r.end))
      && (|rows'| == n + 2 ==> Halves(r, rows'[n], rows'[n + 1]))
  {
    hide Count;
    SeveralFailed(rows, id);
  }

  // All splits together.

  predicate StrictlyInside(a: Row, b: Row) {
    Inside(a, b) && Len(a) < Len(b)
  }

  /** A span inside a larger one has at most half its blocks, rounded up. */
  predicate FitsHalf(a: Row, b: Row) {
    StrictlyInside(a, b) ==> 2 * Len(a) <= Len(b) + 1
  }

  ghost predicate Halved(rows: Table) {
    forall i, j :: 0 <= i < |rows| && 0 <= j < |rows| && rows[i].kind == SPAN && rows[j].kind == SPAN ==>
      FitsHalf(rows[i], rows[j])
  }

  lemma HalvedUpdate(rows: Table, id: nat, r: Row)
    requires Halved(rows) && id < |rows| && r.kind == rows[id].kind && SameRange(r, rows[id])
    ensures Halved(rows[id := r])
  {
    var rows' := rows[id := r];
    forall i, j | 0 <= i < |rows'| && 0 <= j < |rows'| && rows'[i].kind == SPAN && rows'[j].kind == SPAN
      ensures FitsHalf(rows'[i], rows'[j])
    {
      assert FitsHalf(rows[i], rows[j]);
    }
  }

  lemma HalvedGrow(rows: Table, more: Table)
    requires Halved(rows) && Halved(more)
    requires forall i, k :: 0 <= i < |rows| && 0 <= k < |more| && rows[i].kind == SPAN && more[k].kind == SPAN ==>
               FitsHalf(rows[i], more[k]) && FitsHalf(more[k], rows[i])
    ensures Halved(rows + more)
  {
  }

  /** New spans after everything in the table, all of one length. */
  lemma HalvedAfter(rows: Table, more: Table, f: nat, size: nat)
    requires Halved(rows) && NonEmpty(rows) && forall i :: 0 <= i < |rows| ==> rows[i].end <= f
    requires forall k :: 0 <= k < |more| ==> f <= more[k].start < more[k].end && Len(more[k]) == size
    ensures Halved(rows + more)
  {
    HalvedGrow(rows, more);
  }

  lemma {:induction false} FullSpansSize(start: nat, end: nat, size: nat)
    requires size > 0
    ensures forall k :: 0 <= k < |FullSpans(start, end, size)| ==>
      var s := FullSpans(start, end, size)[k];
      start <= s.start < s.end == s.start + size
    decreases if start < end then end - start else 0
  {
    if start + size <= end {
      FullSpansSize(start + size, end, size);
    }
  }

  /** The halves of a live span fit in everything the span fits in. */
  lemma PieceFits(rows: Table, id: nat, p: Row, i: nat)
    requires Halved(rows) && NonEmpty(rows) && Disjoint(rows) && FailedNested(rows)
    requires id < |rows| && Live(rows[id]) && i < |rows| && rows[i].kind == SPAN
    requires p.kind == SPAN && p.start < p.end && Inside(p, rows[id])
    requires SameRange(p, rows[id]) || 2 * Len(p) <= Len(rows[id]) + 1
    ensures FitsHalf(p, rows[i]) && FitsHalf(rows[i], p)
  {
    assert FitsHalf(rows[id], rows[i]) && FitsHalf(rows[i], rows[id]);
    if i != id {
      assert Live(rows[i]) ==> Apart(rows[i], rows[id]);
      assert FailedSpan(rows[i]) ==> Apart(rows[id], rows[i]) || Inside(rows[id], rows[i]);
    }
  }

  lemma RetryHalved(cfg: Config, rows: Table, id: nat, unexecutable: bool)
    requires SpanInv(cfg, rows) && Halved(rows) && id < |rows| && rows[id].status in {WITNESSGEN, PROVING}
    ensures Halved(RetryRows(rows, id, unexecutable))
  {
    hide SpanInv, RetryRows, Disjoint, FailedNested, Halved, Tiles;
    SpanFacts(cfg, rows);
    RetryShape(rows, id, unexecutable);
    var failed, pieces := rows[id := rows[id].(status := FAILED)], Pieces(rows, id, unexecutable);
    HalvedUpdate(rows, id, failed[id]);
    if rows[id].kind == SPAN {
      RetryRule(rows, id, unexecutable);
      PiecesHalved(rows, id, pieces);
    } else {
      AggHalved(failed, pieces[0]);
    }
  }

  lemma AggHalved(rows: Table, agg: Row)
    requires Halved(rows) && agg.kind == AGG
    ensures Halved(rows + [agg])
  {
    HalvedGrow(rows, [agg]);
  }

  lemma PiecesHalved(rows: Table, id: nat, pieces: Table)
    requires Halved(rows) && NonEmpty(rows) && Disjoint(rows) && FailedNested(rows) && id < |rows| && Live(rows[id])
    requires |pieces| == 1 ==> pieces[0] == NewRow(SPAN, rows[id].start, rows[id].end)
    requires |pieces| == 2 ==> Len(rows[id]) > 1 && Halves(rows[id], pieces[0], pieces[1])
    requires |pieces| in {1, 2}
    ensures Halved(rows[id := rows[id].(status := FAILED)] + pieces)
  {
    hide Halved, Disjoint, FailedNested;
    var failed := rows[id := rows[id].(status := FAILED)];
    HalvedUpdate(rows, id, failed[id]);
    forall i, k | 0 <= i < |rows| && 0 <= k < |pieces| && rows[i].kind == SPAN && pieces[k].kind == SPAN
      ensures FitsHalf(failed[i], pieces[k]) && FitsHalf(pieces[k], failed[i])
    {
      PieceFits(rows, id, pieces[k], i);
    }
    PiecesApart(pieces, rows[id]);
    HalvedGrow(failed, pieces);
  }

  lemma PiecesApart(pieces: Table, r: Row)
    requires |pieces| in {1, 2} && (|pieces| == 2 ==> Len(r) > 1 && Halves(r, pieces[0], pieces[1]))
    ensures Halved(pieces)
  {
  }

  lemma StepHalved(cfg: Config, rows: Table, step: Step)
    requires Inv(cfg, rows) && Halved(rows) && Enabled(cfg, rows, step)
    ensures Halved(Apply(cfg, rows, step))
  {
    hide SpanInv, AggInv, FailInv, CapInv, FullSpans, Frontier, RetryRows, MaxContiguous, UnderCaps,
      CheckpointChoice, Halved, Disjoint, FailedNested;
    SpanFacts(cfg, rows);
    var rows' := Apply(cfg, rows, step);
    match step
    case AddRanges(latest, head) =>
      var f := NextStart(rows, latest);
      FullSpansSize(f, head, cfg.maxRange);
      FrontierAbove(rows);
      HalvedAfter(rows, SpanRows(FullSpans(f, head, cfg.maxRange)), f, cfg.maxRange);
    case Fulfil(id, _) => HalvedUpdate(rows, id, rows'[id]);
    case Retry(id, unexecutable) => RetryHalved(cfg, rows, id, unexecutable);
    case StartProving(id) => HalvedUpdate(rows, id, rows'[id]);
    case DeriveAgg(latest, _, end) =>
      if rows' != rows {
        AggHalved(rows, NewRow(AGG, latest, end));
      }
    case Dispatch(id, _) => HalvedUpdate(rows, id, rows'[id]);
  }

  lemma FrontierAbove(rows: Table)
    ensures forall i :: 0 <= i < |rows| ==> rows[i].end <= Frontier(rows)
  {
  }

  lemma {:induction false} RunHalved(cfg: Config, rows: Table, steps: seq<Step>, rows': Table)
    requires Inv(cfg, rows) && Halved(rows) && Runs(cfg, rows, steps, rows')
    ensures Halved(rows')
    decreases |steps|
  {
    hide Inv, Halved, Apply, Enabled;
    if steps != [] {
      StepHalved(cfg, rows, steps[0]);
      StepKeeps(cfg, rows, steps[0]);
      RunHalved(cfg, Apply(cfg, rows, steps[0]), steps[1..], rows');
    }
  }

  /** Of any two nested spans ever created the smaller has at most half the blocks of the larger, rounded up. */
  lemma NestedHalves(cfg: Config, rows: Table, i: nat, j: nat)
    requires Reachable(cfg, rows) && i < |rows| && j < |rows| && rows[i].kind == SPAN && rows[j].kind == SPAN
    requires StrictlyInside(rows[i], rows[j])
    ensures 2 * Len(rows[i]) <= Len(rows[j]) + 1
  {
    hide Inv, Runs;
    var steps :| Runs(cfg, [], steps, rows);
    InvEmpty(cfg);
    RunHalved(cfg, [], steps, rows);
    assert FitsHalf(rows[i], rows[j]);
  }

  // How deep spans can nest.

  ghost function Pow2(n: nat): nat {
    if n == 0 then 1 else 2 * Pow2(n - 1)
  }

  /** Spans each strictly inside the one before. */
  ghost predicate NestedChain(rows: Table, chain: seq<nat>) {
    && (forall k :: 0 <= k < |chain| ==> chain[k] < |rows| && rows[chain[k]].kind == SPAN)
    && (forall k :: 0 <= k < |chain| - 1 ==> StrictlyInside(rows[chain[k + 1]], rows[chain[k]]))
  }

  lemma {:induction false} ChainHalves(cfg: Config, rows: Table, chain: seq<nat>)
    requires Reachable(cfg, rows) && NestedChain(rows, chain) && chain != []
    ensures Pow2(|chain| - 1) * (Len(rows[chain[|chain| - 1]]) - 1) <= cfg.maxRange - 1
    decreases |chain|
  {
    hide Reachable, Inv;
    var n := |chain| - 1;
    if n == 0 {
      SpanLength(cfg, rows, chain[0]);
    } else {
      var outer, inner := rows[chain[n - 1]], rows[chain[n]];
      assert StrictlyInside(rows[chain[n - 1 + 1]], rows[chain[n - 1]]);
      NestedHalves(cfg, rows, chain[n], chain[n - 1]);
      ChainHalves(cfg, rows, chain[..n]);
      MulMonotone(Pow2(n - 1), 2 * (Len(inner) - 1), Len(outer) - 1);
    }
  }

  lemma MulMonotone(k: nat, a: int, b: int)
    requires a <= b
    ensures k * a <= k * b
  {
  }

  lemma SpanLength(cfg: Config, rows: Table, i: nat)
    requires Reachable(cfg, rows) && i < |rows| && rows[i].kind == SPAN
    ensures 1 <= Len(rows[i]) <= cfg.maxRange
  {
    hide Reachable, AggInv, FailInv, CapInv, Family, Covers;
    ReachableInv(cfg, rows);
  }

  /**
   In every reachable table, d nested splits below a span of n blocks leave spans of m blocks with
   2^d (m-1) <= n-1, so distinct ranges nest at most to the logarithm of the maximal span length.
   */
  lemma SplitDepth(cfg: Config, rows: Table, chain: seq<nat>)
    requires Reachable(cfg, rows) && NestedChain(rows, chain) && chain != []
    ensures Pow2(|chain| - 1) * (Len(rows[chain[|chain| - 1]]) - 1) <= cfg.maxRange - 1
    ensures |chain| >= 2 ==> Pow2(|chain| - 2) <= cfg.maxRange - 1
  {
    hide Reachable;
    ChainHalves(cfg, rows, chain);
    if |chain| >= 2 {
      var n := |chain| - 2;
      SpanLength(cfg, rows, chain[n + 1]);
      assert StrictlyInside(rows[chain[n + 1]], rows[chain[n]]);
      ChainHalves(cfg, rows, chain[..n + 1]);
      MulMonotone(Pow2(n), 1, Len(rows[chain[n]]) - 1);
    }
  }
}

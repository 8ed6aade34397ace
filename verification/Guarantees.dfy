/** What the scheduler guarantees in every reachable table and over every run. */
module Guarantees {
  import opened Prelude
  import opened Tallies
  import opened Requests
  import opened Spans
  import opened Scheduler
  import opened Partition
  import opened Aggregates
  import opened Invariant
  import opened Measure
  import ProofDb

  ghost predicate InLiveSpan(rows: Table, i: nat, b: nat) {
    i < |rows| && Live(rows[i]) && rows[i].start <= b < rows[i].end
  }

  /** Live spans partition the blocks from the first ever requested up to the highest end block. */
  ghost predicate LivePartition(rows: Table) {
    && rows != []
    && Disjoint(rows)
    && Covers(rows, Base(rows), Frontier(rows))
    && (forall i :: 0 <= i < |rows| && Live(rows[i]) ==> Base(rows) <= rows[i].start && rows[i].end <= Frontier(rows))
  }

  /** Each block up to the frontier is in exactly one live span, and each of those has 1..maxRange blocks. */
  lemma ExactlyOneLiveSpan(cfg: Config, rows: Table, b: nat) returns (i: nat)
    requires Reachable(cfg, rows) && rows != [] && Base(rows) <= b < Frontier(rows)
    ensures InLiveSpan(rows, i, b) && 1 <= rows[i].end - rows[i].start <= cfg.maxRange
    ensures Base(rows) <= rows[i].start && rows[i].end <= Frontier(rows)
    ensures forall j: nat :: InLiveSpan(rows, j, b) ==> j == i
  {
    hide AggInv, FailInv, CapInv, FailedNested, Laminar, Reachable;
    ReachableInv(cfg, rows);
    assert Covered(rows, b);
    i :| 0 <= i < |rows| && Live(rows[i]) && rows[i].start <= b < rows[i].end;
  }

  // Aggregates over whole runs.

  /**
   From the moment an AGG request exists, `GetConsecutiveSpanProofs` over its range succeeds in
   every later table, and always with the same rows and the same proofs.
   */
  lemma AggProofsStable(
      cfg: Config, rows: Table, agg: nat, ids: seq<nat>, steps: seq<Step>, rows': Table, ids': seq<nat>)
    requires Reachable(cfg, rows) && Runs(cfg, rows, steps, rows')
    requires agg < |rows| && rows[agg].kind == AGG
    requires Ordered(rows, DoneWithin(rows[agg].start, rows[agg].end), ids)
    requires Ordered(rows', DoneWithin(rows[agg].start, rows[agg].end), ids')
    ensures ids != [] && DoneChain(rows', ids', rows[agg].start, rows[agg].end)
    ensures ConsecutiveProofs(rows', ids', rows[agg].start, rows[agg].end)
         == ConsecutiveProofs(rows, ids, rows[agg].start, rows[agg].end)
         == Ok(ProofsOf(rows, ids))
    ensures forall k :: 0 <= k < |ids| ==> rows[ids[k]].proof.Some?
  {
    hide Reachable, Runs, FailInv, CapInv, SpanInv, Disjoint, ConsecutiveProofs, DoneChain, Backed;
    var s, e := rows[agg].start, rows[agg].end;
    ReachableInv(cfg, rows);
    RunKeeps(cfg, rows, steps, rows');
    SpanFacts(cfg, rows);
    SpanFacts(cfg, rows');
    ConsecutiveSame(rows, ids, rows', ids', s, e);
    BackedKept(rows, rows', s, e);
    ConsecutiveScan(rows, ids, s, e);
    ConsecutiveScan(rows', ids', s, e);
    DoneFirst(rows, ids, s, e);
    ProofsKept(rows, rows', ids);
    forall k | 0 <= k < |ids| ensures rows[ids[k]].proof.Some? {
      assert DoneWithin(s, e)(rows[ids[k]]);
      ProofUnset(cfg, rows, ids[k]);
    }
  }

  lemma {:induction false} ProofsKept(rows: Table, rows': Table, ids: seq<nat>)
    requires DoneKept(rows, rows') && Ids(rows, ids)
    requires forall k :: 0 <= k < |ids| ==> Done(rows[ids[k]])
    ensures ProofsOf(rows, ids) == ProofsOf(rows', ids)
  {
    if ids != [] {
      ProofsKept(rows, rows', ids[1..]);
    }
  }

  /**
   Once an AGG request exists for a start block, in every later table all AGG requests for that
   start block have its end block and exactly one of them has not failed.
   */
  lemma OneAggPerStart(cfg: Config, rows: Table, agg: nat, steps: seq<Step>, rows': Table) returns (active: nat)
    requires Reachable(cfg, rows) && Runs(cfg, rows, steps, rows')
    requires agg < |rows| && rows[agg].kind == AGG
    ensures active < |rows'| && rows'[active].kind == AGG && rows'[active].status != FAILED
    ensures rows'[active].start == rows[agg].start
    ensures forall i :: 0 <= i < |rows'| && rows'[i].kind == AGG && rows'[i].start == rows[agg].start ==>
              rows'[i].end == rows[agg].end && (rows'[i].status != FAILED ==> i == active)
  {
    hide Reachable, Runs, FailInv, CapInv, SpanInv, AggBacked, CheckpointUnique, CheckpointSet;
    ReachableInv(cfg, rows);
    RunKeeps(cfg, rows, steps, rows');
    assert AggInFlight(rows', rows'[agg].start);
    active :| 0 <= active < |rows'| && rows'[active].kind == AGG && rows'[active].start == rows[agg].start
              && rows'[active].status != FAILED;
  }

  /**
   Every AGG request past UNREQ has a checkpoint, and one that is recorded for an AGG range is the
   only one any request of that range ever has.
   */
  lemma OneCheckpointPerAgg(cfg: Config, rows: Table, agg: nat, steps: seq<Step>, rows': Table)
    requires Reachable(cfg, rows) && Runs(cfg, rows, steps, rows')
    requires agg < |rows| && rows[agg].kind == AGG
    ensures forall i :: 0 <= i < |rows'| && rows'[i].kind == AGG && rows'[i].status != UNREQ ==> rows'[i].l1.Some?
    ensures rows[agg].l1.Some? ==>
              forall i :: 0 <= i < |rows'| && rows'[i].kind == AGG && rows'[i].start == rows[agg].start ==>
                rows'[i].l1.None? || rows'[i].l1 == rows[agg].l1
  {
    hide Reachable, Runs, FailInv, CapInv, SpanInv, AggBacked, AggActive;
    ReachableInv(cfg, rows);
    RunKeeps(cfg, rows, steps, rows');
    assert RowEvolves(rows[agg], rows'[agg]);
  }

  // Spans over whole runs.

  /** A span boundary never disappears: later live spans begin or end there and none straddles it. */
  lemma BoundaryKept(cfg: Config, rows: Table, i: nat, b: nat, steps: seq<Step>, rows': Table)
    requires Reachable(cfg, rows) && Runs(cfg, rows, steps, rows')
    requires i < |rows| && rows[i].kind == SPAN && (b == rows[i].start || b == rows[i].end)
    ensures forall j :: 0 <= j < |rows'| && Live(rows'[j]) ==> Uncut(rows'[j], b)
    ensures exists j :: 0 <= j < |rows'| && Live(rows'[j]) && (rows'[j].start == b || rows'[j].end == b)
  {
    hide Reachable, Runs, FailInv, CapInv, AggInv, SpanInv;
    ReachableInv(cfg, rows);
    RunKeeps(cfg, rows, steps, rows');
    assert RowEvolves(rows[i], rows'[i]);
    BoundaryHere(cfg, rows', i, b);
  }

  lemma BoundaryHere(cfg: Config, rows: Table, i: nat, b: nat)
    requires SpanInv(cfg, rows) && i < |rows| && rows[i].kind == SPAN && (b == rows[i].start || b == rows[i].end)
    ensures forall j :: 0 <= j < |rows| && Live(rows[j]) ==> Uncut(rows[j], b)
    ensures exists j :: 0 <= j < |rows| && Live(rows[j]) && (rows[j].start == b || rows[j].end == b)
  {
    hide Laminar, Frontier;
    assert Live(rows[i]) || FailedSpan(rows[i]);
    var x := if b == rows[i].start then b else b - 1;
    assert Covered(rows, x);
  }

  /** Range (start, end) has been given up: it failed and nothing asks for it as a whole. */
  ghost predicate GivenUp(rows: Table, start: nat, end: nat) {
    && (exists i :: 0 <= i < |rows| && FailedSpan(rows[i]) && rows[i].start == start && rows[i].end == end)
    && (forall i :: 0 <= i < |rows| && Live(rows[i]) ==> !(rows[i].start == start && rows[i].end == end))
  }

  lemma GivenUpRetry(rows: Table, id: nat, pieces: Table, start: nat, end: nat)
    requires GivenUp(rows, start, end) && FailedNested(rows) && NonEmpty(rows) && id < |rows|
    requires rows[id].status != FAILED
    requires rows[id].kind == SPAN ==> Tiles(pieces, rows[id].start, rows[id].end)
    requires rows[id].kind == AGG ==> pieces == [NewRow(AGG, rows[id].start, rows[id].end)]
    ensures GivenUp(rows[id := rows[id].(status := FAILED)] + pieces, start, end)
  {
    var rows' := rows[id := rows[id].(status := FAILED)] + pieces;
    var f :| 0 <= f < |rows| && FailedSpan(rows[f]) && rows[f].start == start && rows[f].end == end;
    assert rows'[f] == rows[f];
    if rows[id].kind == SPAN {
      TilesInside(pieces, rows[id].start, rows[id].end);
      assert Live(rows[id]);
      assert Apart(rows[id], rows[f]) || Inside(rows[id], rows[f]);
      forall k | 0 <= k < |pieces| ensures !(pieces[k].start == start && pieces[k].end == end) {
      }
    }
  }

  lemma GivenUpUpdate(rows: Table, id: nat, r: Row, start: nat, end: nat)
    requires GivenUp(rows, start, end) && id < |rows| && SameRow(rows[id], r)
    ensures GivenUp(rows[id := r], start, end)
  {
    var f :| 0 <= f < |rows| && FailedSpan(rows[f]) && rows[f].start == start && rows[f].end == end;
    assert FailedSpan(rows[id := r][f]);
  }

  lemma GivenUpGrow(rows: Table, more: Table, start: nat, end: nat)
    requires GivenUp(rows, start, end)
    requires forall k :: 0 <= k < |more| && Live(more[k]) ==> end <= more[k].start < more[k].end
    ensures GivenUp(rows + more, start, end)
  {
    var f :| 0 <= f < |rows| && FailedSpan(rows[f]) && rows[f].start == start && rows[f].end == end;
    assert (rows + more)[f] == rows[f];
  }

  lemma StepGivenUp(cfg: Config, rows: Table, step: Step, start: nat, end: nat)
    requires Inv(cfg, rows) && GivenUp(rows, start, end) && Enabled(cfg, rows, step)
    ensures GivenUp(Apply(cfg, rows, step), start, end)
  {
    hide SpanInv, AggInv, FailInv, CapInv, GivenUp, FailedNested, FullSpans, Frontier, RetryRows, MaxContiguous,
      Disjoint, UnderCaps, CheckpointChoice, Pieces;
    SpanFacts(cfg, rows);
    var rows' := Apply(cfg, rows, step);
    match step
    case AddRanges(latest, head) =>
      var f := NextStart(rows, latest);
      FullSpansAfter(f, head, cfg.maxRange);
      GivenUpBound(rows, start, end);
      GivenUpGrow(rows, SpanRows(FullSpans(f, head, cfg.maxRange)), start, end);
    case Fulfil(id, _) => GivenUpUpdate(rows, id, rows'[id], start, end);
    case Retry(id, unexecutable) =>
      RetryShape(rows, id, unexecutable);
      GivenUpRetry(rows, id, Pieces(rows, id, unexecutable), start, end);
    case StartProving(id) => GivenUpUpdate(rows, id, rows'[id], start, end);
    case DeriveAgg(_, _, _) =>
      if rows' != rows {
        GivenUpGrow(rows, [rows'[|rows|]], start, end);
      }
    case Dispatch(id, _) => GivenUpUpdate(rows, id, rows'[id], start, end);
  }

  lemma GivenUpBound(rows: Table, start: nat, end: nat)
    requires GivenUp(rows, start, end)
    ensures rows != [] && end <= Frontier(rows)
  {
  }

  /** A range that has been split is never asked for again. */
  lemma {:induction false} SplitNeverRecreated(
      cfg: Config, rows: Table, start: nat, end: nat, steps: seq<Step>, rows': Table)
    requires Inv(cfg, rows) && GivenUp(rows, start, end) && Runs(cfg, rows, steps, rows')
    ensures GivenUp(rows', start, end)
    decreases |steps|
  {
    hide Inv, GivenUp, Apply, Enabled;
    if steps != [] {
      StepGivenUp(cfg, rows, steps[0], start, end);
      StepKeeps(cfg, rows, steps[0]);
      SplitNeverRecreated(cfg, Apply(cfg, rows, steps[0]), start, end, steps[1..], rows');
    }
  }

  /** All spans ever created are pairwise nested or disjoint, and a multi-block range fails at most twice. */
  lemma NestedAndFailTwice(cfg: Config, rows: Table, i: nat, j: nat)
    requires Reachable(cfg, rows) && i < |rows| && j < |rows| && rows[i].kind == SPAN && rows[j].kind == SPAN
    ensures Apart(rows[i], rows[j]) || Inside(rows[i], rows[j]) || Inside(rows[j], rows[i])
    ensures rows[i].end - rows[i].start > 1 ==> FailCount(rows, rows[i].start, rows[i].end) <= 2
  {
    hide Reachable, AggInv, CapInv, Disjoint, FailedNested, Covers, Bounds;
    ReachableInv(cfg, rows);
  }

  /** Spans that `GetRangeProofBoundaries` has just inserted are fresh. */
  lemma AddedFresh(cfg: Config, rows: Table, latest: nat, head: nat, id: nat)
    requires Inv(cfg, rows)
    requires |rows| <= id < |Apply(cfg, rows, AddRanges(latest, head))|
    ensures FreshSpan(Apply(cfg, rows, AddRanges(latest, head)), id)
    ensures
      var r := Apply(cfg, rows, AddRanges(latest, head))[id];
      r.end == r.start + cfg.maxRange
  {
    hide Inv, SpanInv, FullSpans, FullSpansEnd, Disjoint, FailedNested;
    var f := NextStart(rows, latest);
    var rows' := Apply(cfg, rows, AddRanges(latest, head));
    AddRangesKeeps(cfg, rows, latest, head);
    InvSpans(cfg, rows');
    SpanFacts(cfg, rows');
    FullSpansAfter(f, head, cfg.maxRange);
    assert forall k :: |rows| <= k < |rows'| ==> Live(rows'[k]);
    LaterApart(rows', |rows|, id);
  }

  lemma InvSpans(cfg: Config, rows: Table)
    requires Inv(cfg, rows)
    ensures SpanInv(cfg, rows)
  {
  }

  lemma LaterApart(rows: Table, n: nat, id: nat)
    requires Disjoint(rows) && n <= id < |rows| && forall k :: n <= k < |rows| ==> Live(rows[k])
    ensures forall k :: n <= k < |rows| && k != id ==> Apart(rows[k], rows[id])
  {
  }

  /**
   Inside a span as first inserted, of maxRange blocks, every run makes at most maxRange-1 splits
   and 2(maxRange-1) failures of multi-block requests.
   */
  lemma InsertedSpanBound(
      cfg: Config, rows: Table, latest: nat, head: nat, id: nat, steps: seq<Step>, rows': Table)
    requires Reachable(cfg, rows)
    requires |rows| <= id < |Apply(cfg, rows, AddRanges(latest, head))|
    requires Runs(cfg, Apply(cfg, rows, AddRanges(latest, head)), steps, rows')
    ensures
      var first := Apply(cfg, rows, AddRanges(latest, head));
      var a, b := first[id].start, first[id].end;
      && Splits(cfg, first, steps, rows', a, b) <= cfg.maxRange - 1
      && MultiFailed(rows', a, b) <= 2 * (cfg.maxRange - 1)
      && (MultiFailed(rows', a, b) == 2 * (cfg.maxRange - 1) ==>
            forall i :: 0 <= i < |rows'| && LiveWithin(a, b)(rows'[i]) ==> rows'[i].end == rows'[i].start + 1)
  {
    hide Inv, Runs, Splits, Count, Reachable, Apply;
    ReachableInv(cfg, rows);
    AddedFresh(cfg, rows, latest, head, id);
    StepKeeps(cfg, rows, AddRanges(latest, head));
    RetryBound(cfg, Apply(cfg, rows, AddRanges(latest, head)), id, steps, rows');
  }

  /** SPAN requests respect both caps in every reachable table, although AGG requests ignore them. */
  lemma SpansUnderCaps(cfg: Config, rows: Table)
    requires Reachable(cfg, rows)
    ensures Count(rows, SpanWitness()) <= cfg.maxWitnessGen
    ensures Count(rows, SpanBusy()) <= cfg.maxRequests
  {
    hide Reachable, SpanInv, AggInv, FailInv, Count;
    ReachableInv(cfg, rows);
  }

  /** A chain of completed spans leads from start to end, and none continues it. */
  ghost predicate MaximalChain(rows: Table, start: nat, end: nat) {
    !DoneStartsAt(rows, end) && exists chain :: DoneChain(rows, chain, start, end)
  }

  /**
   In every reachable table and for every start, on a boundary or not, `GetMaxContiguousSpanProofRange`
   answers exactly the block that ends a maximal chain of completed spans, and there is one such block.
   */
  lemma MaxContiguousExact(cfg: Config, rows: Table, start: nat)
    requires Reachable(cfg, rows)
    ensures forall end: nat :: MaxContiguous(rows, start, end) <==> MaximalChain(rows, start, end)
    ensures exists end: nat :: MaximalChain(rows, start, end)
    ensures forall e: nat, f: nat :: MaximalChain(rows, start, e) && MaximalChain(rows, start, f) ==> e == f
  {
    hide Reachable, AggInv, FailInv, CapInv, SpanInv, Disjoint, ContiguousEnd, MaximalChain;
    ReachableInv(cfg, rows);
    SpanFacts(cfg, rows);
    var ids := ProofDb.OrderedExists(rows, DoneFrom(start));
    var only := ContiguousEnd(rows, ids, start);
    assert MaxContiguous(rows, start, only);
    forall end: nat | MaxContiguous(rows, start, end) ensures MaximalChain(rows, start, end) {
      ScanIsMaximal(rows, start, end);
    }
    forall e: nat, f: nat | MaximalChain(rows, start, e) && MaximalChain(rows, start, f) ensures e == f {
      MaximalUnique(rows, start, e, f);
    }
  }

  lemma ScanIsMaximal(rows: Table, start: nat, end: nat)
    requires NonEmpty(rows) && Disjoint(rows) && MaxContiguous(rows, start, end)
    ensures MaximalChain(rows, start, end)
  {
    hide DoneChain, Disjoint, DoneStartsAt, ContiguousEnd;
    var ids :| Ordered(rows, DoneFrom(start), ids) && ContiguousEnd(rows, ids, start) == end;
    var chain := ContiguousScan(rows, ids, start);
  }

  lemma MaximalUnique(rows: Table, start: nat, e: nat, f: nat)
    requires NonEmpty(rows) && Disjoint(rows) && MaximalChain(rows, start, e) && MaximalChain(rows, start, f)
    ensures e == f
  {
    var a :| DoneChain(rows, a, start, e);
    var b :| DoneChain(rows, b, start, f);
    ContiguousUnique(rows, a, b, start, e, f);
  }

  // Where the guard on retries is needed.

  /** Retrying a span keeps the live spans a partition exactly when the span had not already failed. */
  lemma RetryPartitionIff(cfg: Config, rows: Table, id: nat, unexecutable: bool)
    requires Inv(cfg, rows) && id < |rows| && rows[id].kind == SPAN
    ensures LivePartition(RetryRows(rows, id, unexecutable)) <==> rows[id].status != FAILED
  {
    hide AggInv, FailInv, CapInv, Laminar, Covers, RetryRows, Pieces;
    var r := rows[id];
    var failed := rows[id := r.(status := FAILED)];
    var hi := Frontier(rows);
    SpanFacts(cfg, rows);
    RetryShape(rows, id, unexecutable);
    var pieces := Pieces(rows, id, unexecutable);
    TilesInside(pieces, r.start, r.end);
    if Live(r) {
      RetryLive(cfg, rows, id, pieces);
    } else {
      RetryFailed(cfg, rows, id, pieces);
    }
  }

  lemma RetryLive(cfg: Config, rows: Table, id: nat, pieces: Table)
    requires SpanInv(cfg, rows) && id < |rows| && Live(rows[id]) && Tiles(pieces, rows[id].start, rows[id].end)
    ensures LivePartition(rows[id := rows[id].(status := FAILED)] + pieces)
  {
    hide Family, Covers, Frontier;
    var failed := rows[id := rows[id].(status := FAILED)];
    RetryLiveFamily(rows, id, pieces);
    ReplaceBounds(rows, id, pieces, rows[0].start, Frontier(rows));
    ReplaceCovers(rows, id, pieces, rows[0].start, Frontier(rows));
    FrontierIs(failed + pieces, Frontier(rows));
  }

  lemma RetryLiveFamily(rows: Table, id: nat, pieces: Table)
    requires Family(rows) && id < |rows| && Live(rows[id]) && Tiles(pieces, rows[id].start, rows[id].end)
    ensures Disjoint(rows[id := rows[id].(status := FAILED)] + pieces)
  {
    FailFamily(rows, id);
    ReplaceFamily(rows[id := rows[id].(status := FAILED)], id, rows[id].start, pieces);
  }

  lemma RetryFailed(cfg: Config, rows: Table, id: nat, pieces: Table)
    requires SpanInv(cfg, rows) && id < |rows| && FailedSpan(rows[id])
    requires Tiles(pieces, rows[id].start, rows[id].end)
    ensures !Disjoint(rows[id := rows[id].(status := FAILED)] + pieces)
  {
    hide Family;
    var rows' := rows[id := rows[id].(status := FAILED)] + pieces;
    assert Covered(rows, rows[id].start);
    var j :| 0 <= j < |rows| && Live(rows[j]) && rows[j].start <= rows[id].start < rows[j].end;
    TilesInside(pieces, rows[id].start, rows[id].end);
    assert rows'[j] == rows[j] && rows'[|rows|] == pieces[0];
    assert Live(rows'[j]) && Live(rows'[|rows|]) && !Apart(rows'[j], rows'[|rows|]);
  }

  /** A late status write keeps the partition exactly when the row has not failed in the meantime. */
  lemma LateUpdateIff(cfg: Config, rows: Table, id: nat)
    requires Inv(cfg, rows) && id < |rows| && rows[id].kind == SPAN
    ensures LivePartition(rows[id := rows[id].(status := PROVING)]) <==> rows[id].status != FAILED
  {
    hide AggInv, FailInv, CapInv, Laminar, FailedNested, Frontier;
    var rows' := rows[id := rows[id].(status := PROVING)];
    if Live(rows[id]) {
      CoversGrow(rows, rows', rows[0].start, Frontier(rows));
      var i :| 0 <= i < |rows| && rows[i].end == Frontier(rows);
      assert rows'[i].end == Frontier(rows);
      FrontierIs(rows', Frontier(rows));
    } else {
      assert Covered(rows, rows[id].start);
      var j :| 0 <= j < |rows| && Live(rows[j]) && rows[j].start <= rows[id].start < rows[j].end;
      assert rows'[j] == rows[j];
      assert Live(rows'[id]) && Live(rows'[j]) && !Apart(rows'[id], rows'[j]);
    }
  }

  /**
   The failing side is met: a span is inserted, dispatched and retried. Retrying its failed row again,
   or a late status write to it, then breaks the partition.
   */
  lemma FailedSpanReachable(cfg: Config) returns (rows: Table)
    requires cfg.maxWitnessGen > 0 && cfg.maxRequests > 0
    ensures Reachable(cfg, rows) && rows != [] && FailedSpan(rows[0])
    ensures !LivePartition(RetryRows(rows, 0, false))
    ensures !LivePartition(rows[0 := rows[0].(status := PROVING)])
  {
    hide LivePartition, Inv, Frontier;
    var unused := Checkpoint(0, L1.Opaque(0));
    var one := [NewRow(SPAN, 0, cfg.maxRange)];
    assert FullSpans(0, cfg.maxRange, cfg.maxRange) == [Span(0, cfg.maxRange)];
    assert Apply(cfg, [], AddRanges(0, cfg.maxRange)) == one;
    RunsOne(cfg, [], AddRanges(0, cfg.maxRange));
    CountNone(one, WithStatus(WITNESSGEN));
    CountNone(one, WithStatus(PROVING));
    var sent := Apply(cfg, one, Dispatch(0, unused));
    RunsOne(cfg, one, Dispatch(0, unused));
    RunsConcat(cfg, [], [AddRanges(0, cfg.maxRange)], one, [Dispatch(0, unused)], sent);
    rows := Apply(cfg, sent, Retry(0, false));
    RunsOne(cfg, sent, Retry(0, false));
    RunsConcat(cfg, [], [AddRanges(0, cfg.maxRange)] + [Dispatch(0, unused)], sent, [Retry(0, false)], rows);
    ReachableInv(cfg, rows);
    RetryPartitionIff(cfg, rows, 0, false);
    LateUpdateIff(cfg, rows, 0);
  }
}

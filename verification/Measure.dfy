/**
 Retrying has a measure. Between two span boundaries, the failures of multi-block requests
 plus the failures that the live spans may still cause never increase.
 */
module Measure {
  import opened Tallies
  import opened Requests
  import opened Spans
  import opened Scheduler
  import opened Partition
  import opened Aggregates
  import opened Invariant

  predicate Within(r: Row, a: nat, b: nat) {
    a <= r.start && r.end <= b
  }

  function LiveWithin(a: nat, b: nat): Row -> bool {
    (r: Row) => Live(r) && Within(r, a, b)
  }

  /** Failed requests for more than one block. */
  function MultiFailedWithin(a: nat, b: nat): Row -> bool {
    (r: Row) => FailedSpan(r) && r.end - r.start > 1 && Within(r, a, b)
  }

  function BlocksWithin(a: nat, b: nat): Row -> int {
    (r: Row) => if Live(r) && Within(r, a, b) then r.end - r.start else 0
  }

  /** How often requests for parts of a live span of n blocks can still fail: 2(n-1), less past failures. */
  ghost function CreditWithin(rows: Table, a: nat, b: nat): Row -> int {
    (r: Row) =>
      if Live(r) && Within(r, a, b) && r.end - r.start > 1
      then 2 * (r.end - r.start - 1) - FailCount(rows, r.start, r.end)
      else 0
  }

  ghost function LiveCount(rows: Table, a: nat, b: nat): nat {
    Count(rows, LiveWithin(a, b))
  }

  ghost function MultiFailed(rows: Table, a: nat, b: nat): nat {
    Count(rows, MultiFailedWithin(a, b))
  }

  ghost function Blocks(rows: Table, a: nat, b: nat): int {
    Sum(rows, BlocksWithin(a, b))
  }

  ghost function Credit(rows: Table, a: nat, b: nat): int {
    Sum(rows, CreditWithin(rows, a, b))
  }

  /** Blocks a and b are boundaries inside the table: no live span straddles them. */
  ghost predicate Aligned(rows: Table, a: nat, b: nat) {
    && rows != [] && b <= Frontier(rows)
    && forall i :: 0 <= i < |rows| && Live(rows[i]) ==> Uncut(rows[i], a) && Uncut(rows[i], b)
  }

  predicate Uncut(r: Row, b: nat) {
    b <= r.start || r.end <= b
  }

  // Changes that leave every tally alone.

  predicate SameSpan(r: Row, r': Row) {
    r'.start == r.start && r'.end == r.end && Live(r') == Live(r) && FailedSpan(r') == FailedSpan(r)
  }

  ghost predicate SameTallies(rows: Table, rows': Table, a: nat, b: nat) {
    && LiveCount(rows', a, b) == LiveCount(rows, a, b)
    && MultiFailed(rows', a, b) == MultiFailed(rows, a, b)
    && Blocks(rows', a, b) == Blocks(rows, a, b)
    && Credit(rows', a, b) == Credit(rows, a, b)
  }

  lemma TallyUpdate(rows: Table, id: nat, r: Row, a: nat, b: nat)
    requires id < |rows| && SameSpan(rows[id], r)
    ensures SameTallies(rows, rows[id := r], a, b)
  {
    var rows' := rows[id := r];
    CountUpdate(rows, id, r, LiveWithin(a, b));
    CountUpdate(rows, id, r, MultiFailedWithin(a, b));
    SumUpdate(rows, id, r, BlocksWithin(a, b));
    SumUpdate(rows, id, r, CreditWithin(rows, a, b));
    forall s: nat, e: nat ensures FailCount(rows', s, e) == FailCount(rows, s, e) {
      CountUpdate(rows, id, r, WithRange(SPAN, s, e, FAILED));
    }
    SumSame(rows', CreditWithin(rows, a, b), CreditWithin(rows', a, b));
  }

  lemma TallyGrow(rows: Table, more: Table, a: nat, b: nat)
    requires forall k :: 0 <= k < |more| ==> !FailedSpan(more[k])
    requires forall k :: 0 <= k < |more| ==> !LiveWithin(a, b)(more[k])
    ensures SameTallies(rows, rows + more, a, b)
  {
    var rows' := rows + more;
    CountConcat(rows, more, LiveWithin(a, b));
    CountNone(more, LiveWithin(a, b));
    CountConcat(rows, more, MultiFailedWithin(a, b));
    CountNone(more, MultiFailedWithin(a, b));
    SumConcat(rows, more, BlocksWithin(a, b));
    SumZero(more, BlocksWithin(a, b));
    SumConcat(rows, more, CreditWithin(rows', a, b));
    SumZero(more, CreditWithin(rows', a, b));
    forall s: nat, e: nat ensures FailCount(rows', s, e) == FailCount(rows, s, e) {
      FailCountConcat(rows, more, s, e);
    }
    SumSame(rows, CreditWithin(rows, a, b), CreditWithin(rows', a, b));
  }

  // Failing a live span and appending its pieces.

  /** One more failure, when it is of a multi-block request in [a, b). */
  ghost function FailureOf(r: Row, a: nat, b: nat): nat {
    if r.end - r.start > 1 && Within(r, a, b) then 1 else 0
  }

  lemma CountsRetry(rows: Table, id: nat, pieces: Table, a: nat, b: nat)
    requires id < |rows| && Live(rows[id]) && Tiles(pieces, rows[id].start, rows[id].end)
    requires Uncut(rows[id], a) && Uncut(rows[id], b) && rows[id].start < rows[id].end
    ensures
      var rows' := rows[id := rows[id].(status := FAILED)] + pieces;
      var inside := if Within(rows[id], a, b) then 1 else 0;
      && LiveCount(rows', a, b) == LiveCount(rows, a, b) - inside + inside * |pieces|
      && MultiFailed(rows', a, b) == MultiFailed(rows, a, b) + FailureOf(rows[id], a, b)
      && Blocks(rows', a, b) == Blocks(rows, a, b)
  {
    hide Count, Sum, Tiles;
    var r := rows[id];
    var failed := rows[id := r.(status := FAILED)];
    CountUpdate(rows, id, failed[id], LiveWithin(a, b));
    CountUpdate(rows, id, failed[id], MultiFailedWithin(a, b));
    SumUpdate(rows, id, failed[id], BlocksWithin(a, b));
    CountConcat(failed, pieces, LiveWithin(a, b));
    CountConcat(failed, pieces, MultiFailedWithin(a, b));
    SumConcat(failed, pieces, BlocksWithin(a, b));
    TilesInside(pieces, r.start, r.end);
    CountNone(pieces, MultiFailedWithin(a, b));
    TilesTally(pieces, r.start, r.end, a, b);
  }

  lemma {:induction false} TilesTally(pieces: Table, start: nat, end: nat, a: nat, b: nat)
    requires Tiles(pieces, start, end)
    requires (a <= start && end <= b) || end <= a || b <= start
    ensures start < end && a <= start && end <= b ==>
      Count(pieces, LiveWithin(a, b)) == |pieces| && Sum(pieces, BlocksWithin(a, b)) == end - start
    ensures start < end && !(a <= start && end <= b) ==>
      Count(pieces, LiveWithin(a, b)) == 0 && Sum(pieces, BlocksWithin(a, b)) == 0
  {
    hide Count, Sum;
    if pieces == [] {
      TilesEmpty(a, b);
    } else {
      var first, rest := pieces[0], pieces[1..];
      TilesInside(rest, first.end, end);
      if rest == [] {
        TilesEmpty(a, b);
      } else {
        TilesTally(rest, first.end, end, a, b);
      }
      CountFront(first, rest, LiveWithin(a, b));
      SumFront(first, rest, BlocksWithin(a, b));
      assert pieces == [first] + rest;
    }
  }

  lemma TilesEmpty(a: nat, b: nat)
    ensures Count([], LiveWithin(a, b)) == 0 && Sum([], BlocksWithin(a, b)) == 0
  {
  }

  /** The credit left after failing `id`, before its pieces are added. */
  lemma CreditFail(rows: Table, id: nat, more: Table, a: nat, b: nat)
    requires id < |rows| && Live(rows[id]) && Disjoint(rows) && NonEmpty(rows)
    requires forall k :: 0 <= k < |more| ==> !FailedSpan(more[k])
    ensures
      var failed := rows[id := rows[id].(status := FAILED)];
      Sum(failed, CreditWithin(failed + more, a, b)) == Credit(rows, a, b) - CreditWithin(rows, a, b)(rows[id])
  {
    var failed := rows[id := rows[id].(status := FAILED)];
    var w, w' := CreditWithin(rows, a, b), CreditWithin(failed + more, a, b);
    SumUpdate(rows, id, failed[id], w);
    forall r | r in failed ensures w(r) == w'(r) {
      if Live(r) {
        var k :| 0 <= k < |failed| && failed[k] == r;
        assert Live(rows[k]) && k != id;
        assert Apart(rows[k], rows[id]);
        FailCountFail(rows, id, r.start, r.end);
        FailCountConcat(failed, more, r.start, r.end);
      }
    }
    SumSame(failed, w, w');
  }

  /** A failure is paid for by the credit of the span that failed. */
  lemma CreditRetry(rows: Table, id: nat, unexecutable: bool, a: nat, b: nat)
    requires id < |rows| && Live(rows[id]) && Disjoint(rows) && NonEmpty(rows) && FailedNested(rows) && FailInv(rows)
    requires Uncut(rows[id], a) && Uncut(rows[id], b)
    ensures Credit(RetryRows(rows, id, unexecutable), a, b) + FailureOf(rows[id], a, b) <= Credit(rows, a, b)
  {
    var r := rows[id];
    var failed := rows[id := r.(status := FAILED)];
    RetryShape(rows, id, unexecutable);
    var pieces := Pieces(rows, id, unexecutable);
    var rows' := failed + pieces;
    TilesInside(pieces, r.start, r.end);
    CreditFail(rows, id, pieces, a, b);
    var w' := CreditWithin(rows', a, b);
    SumConcat(failed, pieces, w');
    if FailureOf(r, a, b) == 1 {
      PiecesCredit(rows, id, unexecutable, a, b);
    } else {
      SumZero(pieces, w');
    }
  }

  lemma PiecesCredit(rows: Table, id: nat, unexecutable: bool, a: nat, b: nat)
    requires id < |rows| && Live(rows[id]) && NonEmpty(rows) && FailedNested(rows) && FailInv(rows)
    requires FailureOf(rows[id], a, b) == 1
    ensures
      var pieces := Pieces(rows, id, unexecutable);
      var rows' := RetryRows(rows, id, unexecutable);
      Sum(pieces, CreditWithin(rows', a, b)) + 1 <= CreditWithin(rows, a, b)(rows[id])
  {
    hide Sum, Tiles, FailedNested;
    var r := rows[id];
    var failed := rows[id := r.(status := FAILED)];
    RetryShape(rows, id, unexecutable);
    var pieces := Pieces(rows, id, unexecutable);
    var rows' := failed + pieces;
    var w' := CreditWithin(rows', a, b);
    TilesInside(pieces, r.start, r.end);
    forall k | 0 <= k < |pieces|
      ensures FailCount(rows', pieces[k].start, pieces[k].end)
           == FailCount(rows, pieces[k].start, pieces[k].end) + (if |pieces| == 1 then 1 else 0)
    {
      FailCountFail(rows, id, pieces[k].start, pieces[k].end);
      FailCountConcat(failed, pieces, pieces[k].start, pieces[k].end);
    }
    SumZero([], w');
    SumFront(pieces[0], pieces[1..], w');
    assert pieces == [pieces[0]] + pieces[1..];
    if |pieces| == 2 {
      SumFront(pieces[1], [], w');
      assert pieces[1..] == [pieces[1]] + [];
      NeverFailed(rows, id, pieces[0].start, pieces[0].end);
      NeverFailed(rows, id, pieces[1].start, pieces[1].end);
    } else {
      assert pieces[1..] == [];
    }
  }

  // Steps and runs.

  /** The step splits a request inside [a, b) in two. */
  ghost function SplitAt(cfg: Config, rows: Table, step: Step, a: nat, b: nat): nat
    requires Enabled(cfg, rows, step)
  {
    if step.Retry? && Within(rows[step.id], a, b) && |Apply(cfg, rows, step)| == |rows| + 2 then 1 else 0
  }

  ghost function Splits(cfg: Config, rows: Table, steps: seq<Step>, rows': Table, a: nat, b: nat): nat
    requires Runs(cfg, rows, steps, rows')
    decreases |steps|
  {
    if steps == [] then 0
    else SplitAt(cfg, rows, steps[0], a, b) + Splits(cfg, Apply(cfg, rows, steps[0]), steps[1..], rows', a, b)
  }

  /** What one step may do to the tallies between two boundaries. */
  ghost predicate Pays(cfg: Config, rows: Table, rows': Table, splits: nat, a: nat, b: nat) {
    && Aligned(rows', a, b)
    && MultiFailed(rows', a, b) + Credit(rows', a, b) <= MultiFailed(rows, a, b) + Credit(rows, a, b)
    && MultiFailed(rows, a, b) <= MultiFailed(rows', a, b)
    && LiveCount(rows', a, b) == LiveCount(rows, a, b) + splits
    && Blocks(rows', a, b) == Blocks(rows, a, b)
  }

  lemma AlignedUpdate(rows: Table, id: nat, r: Row, a: nat, b: nat)
    requires Aligned(rows, a, b) && id < |rows| && SameSpan(rows[id], r)
    ensures Aligned(rows[id := r], a, b)
  {
    var rows' := rows[id := r];
    var i :| 0 <= i < |rows| && rows[i].end == Frontier(rows);
    assert rows'[i].end <= Frontier(rows');
  }

  lemma AlignedGrow(rows: Table, more: Table, a: nat, b: nat)
    requires Aligned(rows, a, b)
    requires forall k :: 0 <= k < |more| && Live(more[k]) ==> Uncut(more[k], a) && Uncut(more[k], b)
    ensures Aligned(rows + more, a, b)
  {
    var rows' := rows + more;
    var i :| 0 <= i < |rows| && rows[i].end == Frontier(rows);
    assert rows'[i].end <= Frontier(rows');
  }

  lemma AlignedFail(rows: Table, id: nat, a: nat, b: nat)
    requires Aligned(rows, a, b) && id < |rows|
    ensures Aligned(rows[id := rows[id].(status := FAILED)], a, b)
  {
    var rows' := rows[id := rows[id].(status := FAILED)];
    var i :| 0 <= i < |rows| && rows[i].end == Frontier(rows);
    assert rows'[i].end <= Frontier(rows');
  }

  lemma RetryPays(cfg: Config, rows: Table, id: nat, unexecutable: bool, a: nat, b: nat)
    requires Inv(cfg, rows) && Aligned(rows, a, b) && a < b
    requires id < |rows| && rows[id].status in {WITNESSGEN, PROVING}
    ensures Pays(cfg, rows, RetryRows(rows, id, unexecutable),
                 if Within(rows[id], a, b) && |RetryRows(rows, id, unexecutable)| == |rows| + 2 then 1 else 0, a, b)
  {
    hide SpanInv, AggInv, FailInv, CapInv, Disjoint, FailedNested, Count, Sum, Tiles, RetryRows, Pieces;
    var r := rows[id];
    var failed := rows[id := r.(status := FAILED)];
    SpanFacts(cfg, rows);
    RetryShape(rows, id, unexecutable);
    var pieces := Pieces(rows, id, unexecutable);
    AlignedFail(rows, id, a, b);
    if r.kind == SPAN {
      TilesInside(pieces, r.start, r.end);
      AlignedGrow(failed, pieces, a, b);
      CountsRetry(rows, id, pieces, a, b);
      CreditRetry(rows, id, unexecutable, a, b);
      RetrySize(rows, id, unexecutable);
    } else {
      AlignedGrow(failed, pieces, a, b);
      TallyUpdate(rows, id, failed[id], a, b);
      TallyGrow(failed, pieces, a, b);
    }
  }

  lemma RetrySize(rows: Table, id: nat, unexecutable: bool)
    requires id < |rows|
    ensures |Pieces(rows, id, unexecutable)| in {1, 2}
    ensures |RetryRows(rows, id, unexecutable)| == |rows| + |Pieces(rows, id, unexecutable)|
  {
  }

  lemma GrowPays(cfg: Config, rows: Table, more: Table, a: nat, b: nat)
    requires Aligned(rows, a, b) && a < b
    requires forall k :: 0 <= k < |more| ==> !FailedSpan(more[k]) && more[k].start < more[k].end
    requires forall k :: 0 <= k < |more| && Live(more[k]) ==> b <= more[k].start
    ensures Pays(cfg, rows, rows + more, 0, a, b)
  {
    AlignedGrow(rows, more, a, b);
    TallyGrow(rows, more, a, b);
  }

  lemma UpdatePays(cfg: Config, rows: Table, id: nat, r: Row, a: nat, b: nat)
    requires Aligned(rows, a, b) && id < |rows| && SameSpan(rows[id], r)
    ensures Pays(cfg, rows, rows[id := r], 0, a, b)
  {
    AlignedUpdate(rows, id, r, a, b);
    TallyUpdate(rows, id, r, a, b);
  }

  lemma StepPays(cfg: Config, rows: Table, step: Step, a: nat, b: nat)
    requires Inv(cfg, rows) && Aligned(rows, a, b) && a < b && Enabled(cfg, rows, step)
    ensures Pays(cfg, rows, Apply(cfg, rows, step), SplitAt(cfg, rows, step, a, b), a, b)
  {
    hide Inv, Pays, FullSpans, MaxContiguous, UnderCaps, CheckpointChoice, RetryRows;
    match step
    case AddRanges(latest, head) =>
      FullSpansAfter(Frontier(rows), head, cfg.maxRange);
      GrowPays(cfg, rows, SpanRows(FullSpans(Frontier(rows), head, cfg.maxRange)), a, b);
    case Fulfil(id, proof) => UpdatePays(cfg, rows, id, Apply(cfg, rows, step)[id], a, b);
    case Retry(id, unexecutable) => RetryPays(cfg, rows, id, unexecutable, a, b);
    case StartProving(id) => UpdatePays(cfg, rows, id, Apply(cfg, rows, step)[id], a, b);
    case DeriveAgg(latest, minTo, end) =>
      if Apply(cfg, rows, step) == rows {
        assert rows + [] == rows;
        GrowPays(cfg, rows, [], a, b);
      } else {
        GrowPays(cfg, rows, [NewRow(AGG, latest, end)], a, b);
      }
    case Dispatch(id, checkpoint) => UpdatePays(cfg, rows, id, Apply(cfg, rows, step)[id], a, b);
  }

  lemma {:induction false} RunPays(cfg: Config, rows: Table, steps: seq<Step>, rows': Table, a: nat, b: nat)
    requires Inv(cfg, rows) && Aligned(rows, a, b) && a < b && Runs(cfg, rows, steps, rows')
    ensures Pays(cfg, rows, rows', Splits(cfg, rows, steps, rows', a, b), a, b)
    decreases |steps|
  {
    hide Inv, Apply, Enabled, Aligned, Count, Sum;
    if steps != [] {
      var next := Apply(cfg, rows, steps[0]);
      StepPays(cfg, rows, steps[0], a, b);
      StepKeeps(cfg, rows, steps[0]);
      RunPays(cfg, next, steps[1..], rows', a, b);
    }
  }

  // Bounds.

  lemma CreditPositive(rows: Table, r: Row)
    requires FailInv(rows) && r in rows && Live(r) && r.end - r.start > 1
    ensures 2 * (r.end - r.start - 1) - FailCount(rows, r.start, r.end) >= 1
  {
  }

  lemma CreditBounds(rows: Table, a: nat, b: nat)
    requires FailInv(rows)
    ensures 0 <= Credit(rows, a, b)
    ensures forall i :: 0 <= i < |rows| && LiveWithin(a, b)(rows[i]) && rows[i].end - rows[i].start > 1 ==>
              Credit(rows, a, b) >= 1
  {
    var w := CreditWithin(rows, a, b);
    forall r | r in rows ensures 0 <= w(r) {
      if w(r) != 0 {
        CreditPositive(rows, r);
      }
    }
    SumAtLeast(rows, r => 0, w);
    SumZero(rows, r => 0);
    forall i | 0 <= i < |rows| && LiveWithin(a, b)(rows[i]) && rows[i].end - rows[i].start > 1
      ensures Credit(rows, a, b) >= 1
    {
      CreditPositive(rows, rows[i]);
      SumAtLeastOne(rows, i, w);
    }
  }

  lemma LiveAtMostBlocks(rows: Table, a: nat, b: nat)
    requires NonEmpty(rows)
    ensures LiveCount(rows, a, b) <= Blocks(rows, a, b)
  {
    SumAtLeast(rows, Indicator(LiveWithin(a, b)), BlocksWithin(a, b));
  }

  /** Row `id` is the only live span of its range and nothing inside it has failed. */
  ghost predicate FreshSpan(rows: Table, id: nat) {
    && id < |rows| && Live(rows[id])
    && (forall i :: 0 <= i < |rows| && i != id && rows[i].kind == SPAN ==> Apart(rows[i], rows[id]))
  }

  lemma FreshTallies(rows: Table, id: nat)
    requires FreshSpan(rows, id) && NonEmpty(rows)
    ensures
      var a, b := rows[id].start, rows[id].end;
      && LiveCount(rows, a, b) == 1 && MultiFailed(rows, a, b) == 0 && Blocks(rows, a, b) == b - a
      && Credit(rows, a, b) == 2 * (b - a - 1)
  {
    var r := rows[id];
    var a, b := r.start, r.end;
    var none := r.(status := FAILED, kind := AGG);
    var rest := rows[id := none];
    assert rows == rest[id := r];
    assert forall x :: x in rest ==> x == none || x.kind == AGG || Apart(x, r);
    CountUpdate(rest, id, r, LiveWithin(a, b));
    CountNone(rest, LiveWithin(a, b));
    SumUpdate(rest, id, r, BlocksWithin(a, b));
    SumZero(rest, BlocksWithin(a, b));
    SumUpdate(rest, id, r, CreditWithin(rows, a, b));
    SumZero(rest, CreditWithin(rows, a, b));
    CountNone(rows, MultiFailedWithin(a, b));
    CountNone(rows, WithRange(SPAN, a, b, FAILED));
  }

  /**
   Inside a span of n blocks, from the moment it is first asked for, any run makes at most n-1
   splits and at most 2(n-1) failures of multi-block requests; once all of those have happened,
   only single-block requests are left.
   */
  lemma RetryBound(cfg: Config, rows: Table, id: nat, steps: seq<Step>, rows': Table)
    requires Inv(cfg, rows) && FreshSpan(rows, id) && Runs(cfg, rows, steps, rows')
    ensures
      var a, b := rows[id].start, rows[id].end;
      && Splits(cfg, rows, steps, rows', a, b) <= b - a - 1
      && MultiFailed(rows', a, b) <= 2 * (b - a - 1)
      && (MultiFailed(rows', a, b) == 2 * (b - a - 1) ==>
            forall i :: 0 <= i < |rows'| && LiveWithin(a, b)(rows'[i]) ==> rows'[i].end == rows'[i].start + 1)
  {
    hide Runs, Splits, AggInv, CapInv, Family, Covers, Count, Sum, FailInv;
    var a, b := rows[id].start, rows[id].end;
    FreshFacts(cfg, rows, id);
    RunPays(cfg, rows, steps, rows', a, b);
    RunKeeps(cfg, rows, steps, rows');
    FreshTallies(rows, id);
    CreditBounds(rows', a, b);
    SpanFacts(cfg, rows');
    LiveAtMostBlocks(rows', a, b);
  }

  lemma FreshFacts(cfg: Config, rows: Table, id: nat)
    requires Inv(cfg, rows) && FreshSpan(rows, id)
    ensures NonEmpty(rows) && rows[id].start < rows[id].end && Aligned(rows, rows[id].start, rows[id].end)
  {
    hide AggInv, FailInv, CapInv, FailedNested, Laminar, Covers, Frontier;
  }
}

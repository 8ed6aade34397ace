/** Everything that holds in every reachable table, and what no step ever undoes. */
module Invariant {
  import opened Prelude
  import opened Tallies
  import opened Requests
  import opened Spans
  import opened Scheduler
  import opened Partition
  import opened Aggregates

  // AGG requests.

  /** An AGG request only ever spans completed spans. */
  ghost predicate AggBacked(rows: Table) {
    forall i :: 0 <= i < |rows| && rows[i].kind == AGG ==> Backed(rows, rows[i].start, rows[i].end)
  }

  /** Once an AGG request exists for a start block, one that has not failed exists. */
  ghost predicate AggActive(rows: Table) {
    forall i :: 0 <= i < |rows| && rows[i].kind == AGG ==> AggInFlight(rows, rows[i].start)
  }

  /** AGG requests with one start block have one end block, and at most one of them has not failed. */
  ghost predicate AggUnique(rows: Table) {
    forall i, j :: 0 <= i < j < |rows| && rows[i].kind == AGG && rows[j].kind == AGG && rows[i].start == rows[j].start
      ==> rows[i].end == rows[j].end && (rows[i].status == FAILED || rows[j].status == FAILED)
  }

  /** At most one L1 checkpoint is ever recorded for an AGG range. */
  ghost predicate CheckpointUnique(rows: Table) {
    forall i, j :: 0 <= i < j < |rows| && rows[i].kind == AGG && rows[j].kind == AGG && rows[i].start == rows[j].start
                   && rows[i].l1.Some? && rows[j].l1.Some?
      ==> rows[i].l1 == rows[j].l1
  }

  /** Every AGG request that has been dispatched has its checkpoint. */
  ghost predicate CheckpointSet(rows: Table) {
    forall i :: 0 <= i < |rows| && rows[i].kind == AGG && rows[i].status != UNREQ ==> rows[i].l1.Some?
  }

  ghost predicate AggInv(rows: Table) {
    AggBacked(rows) && AggActive(rows) && AggUnique(rows) && CheckpointUnique(rows) && CheckpointSet(rows)
  }

  // Failures of one range.

  ghost function FailCount(rows: Table, start: nat, end: nat): nat {
    Count(rows, WithRange(SPAN, start, end, FAILED))
  }

  /** A multi-block range fails at most twice, and at most once while it is still being asked for. */
  ghost predicate FailInv(rows: Table) {
    && (forall s: nat, e: nat :: e - s > 1 ==> FailCount(rows, s, e) <= 2)
    && (forall i :: 0 <= i < |rows| && Live(rows[i]) && rows[i].end - rows[i].start > 1
          ==> FailCount(rows, rows[i].start, rows[i].end) <= 1)
  }

  // Concurrency.

  function SpanWitness(): Row -> bool {
    (r: Row) => r.kind == SPAN && r.status == WITNESSGEN
  }

  function SpanBusy(): Row -> bool {
    (r: Row) => r.kind == SPAN && (r.status == WITNESSGEN || r.status == PROVING)
  }

  ghost predicate CapInv(cfg: Config, rows: Table) {
    && Count(rows, SpanWitness()) <= cfg.maxWitnessGen
    && Count(rows, SpanBusy()) <= cfg.maxRequests
  }

  ghost predicate Inv(cfg: Config, rows: Table) {
    SpanInv(cfg, rows) && AggInv(rows) && FailInv(rows) && CapInv(cfg, rows)
  }

  // What every step does to the rows that are there.

  /** Ranges never change, failed and complete rows are final, checkpoints stay. */
  ghost predicate Evolves(rows: Table, rows': Table) {
    && |rows| <= |rows'|
    && forall i :: 0 <= i < |rows| ==> RowEvolves(rows[i], rows'[i])
  }

  predicate RowEvolves(r: Row, r': Row) {
    && r'.kind == r.kind && r'.start == r.start && r'.end == r.end
    && (r.status == FAILED ==> r'.status == FAILED)
    && (r.status == COMPLETE ==> r' == r)
    && (r.l1.Some? ==> r'.l1 == r.l1)
  }

  lemma UpdateEvolves(rows: Table, id: nat, r: Row, more: Table)
    requires id < |rows| && RowEvolves(rows[id], r)
    ensures Evolves(rows, rows[id := r] + more)
  {
  }

  lemma StepEvolves(cfg: Config, rows: Table, step: Step)
    requires Enabled(cfg, rows, step)
    ensures Evolves(rows, Apply(cfg, rows, step))
  {
    hide FullSpans, Frontier, MaxContiguous, UnderCaps, CheckpointChoice, Count;
    var rows' := Apply(cfg, rows, step);
    match step
    case AddRanges(_, _) =>
    case Fulfil(id, _) => UpdateEvolves(rows, id, rows'[id], []);
    case Retry(id, _) => UpdateEvolves(rows, id, rows'[id], rows'[|rows|..]);
    case StartProving(id) => UpdateEvolves(rows, id, rows'[id], []);
    case DeriveAgg(_, _, _) =>
    case Dispatch(id, _) => UpdateEvolves(rows, id, rows'[id], []);
  }

  // AGG lemmas, one per kind of change.

  lemma AggGrow(rows: Table, more: Table)
    requires AggInv(rows) && forall k :: 0 <= k < |more| ==> more[k].kind == SPAN
    ensures AggInv(rows + more)
  {
    var rows' := rows + more;
    forall i | 0 <= i < |rows'| && rows'[i].kind == AGG
      ensures Backed(rows', rows'[i].start, rows'[i].end) && AggInFlight(rows', rows'[i].start)
    {
      BackedKept(rows, rows', rows[i].start, rows[i].end);
      assert AggInFlight(rows, rows[i].start);
      var j :| 0 <= j < |rows| && rows[j].kind == AGG && rows[j].start == rows[i].start && rows[j].status != FAILED;
      assert rows'[j] == rows[j];
    }
  }

  /** The checkpoint of r agrees with all recorded for its start block. */
  ghost predicate CheckpointFits(rows: Table, r: Row) {
    forall j :: 0 <= j < |rows| && rows[j].kind == AGG && rows[j].start == r.start && rows[j].l1.Some? && r.l1.Some?
      ==> rows[j].l1 == r.l1
  }

  lemma AggUpdate(rows: Table, id: nat, r: Row)
    requires AggInv(rows) && id < |rows| && !Done(rows[id]) && SameRow(rows[id], r)
    requires r.kind == AGG ==> CheckpointFits(rows, r) && (r.status != UNREQ ==> r.l1.Some?)
    ensures AggInv(rows[id := r])
  {
    var rows' := rows[id := r];
    forall i | 0 <= i < |rows'| && rows'[i].kind == AGG
      ensures Backed(rows', rows'[i].start, rows'[i].end) && AggInFlight(rows', rows'[i].start)
    {
      BackedKept(rows, rows', rows[i].start, rows[i].end);
      assert AggInFlight(rows, rows[i].start);
      var j :| 0 <= j < |rows| && rows[j].kind == AGG && rows[j].start == rows[i].start && rows[j].status != FAILED;
      assert rows'[j].kind == AGG && rows'[j].status != FAILED;
    }
  }

  /** A new aggregate over a backed range whose start block has none in flight. */
  lemma AggNew(rows: Table, start: nat, end: nat)
    requires AggInv(rows) && Backed(rows, start, end) && !AggInFlight(rows, start)
    ensures AggInv(rows + [NewRow(AGG, start, end)])
  {
    var rows' := rows + [NewRow(AGG, start, end)];
    assert rows'[|rows|] == NewRow(AGG, start, end);
    assert forall i :: 0 <= i < |rows| && rows[i].kind == AGG ==> rows[i].start != start;
    forall i | 0 <= i < |rows'| && rows'[i].kind == AGG
      ensures Backed(rows', rows'[i].start, rows'[i].end) && AggInFlight(rows', rows'[i].start)
    {
      BackedKept(rows, rows', rows'[i].start, rows'[i].end);
      if i < |rows| {
        assert AggInFlight(rows, rows[i].start);
        var j :| 0 <= j < |rows| && rows[j].kind == AGG && rows[j].start == rows[i].start && rows[j].status != FAILED;
        assert rows'[j] == rows[j];
      }
    }
  }

  /** Failing a request that was in flight, and asking for it again if it is an aggregate. */
  lemma AggRetry(rows: Table, id: nat, pieces: Table)
    requires AggInv(rows) && id < |rows| && rows[id].status in {WITNESSGEN, PROVING}
    requires rows[id].kind == SPAN ==> forall k :: 0 <= k < |pieces| ==> pieces[k].kind == SPAN
    requires rows[id].kind == AGG ==> pieces == [NewRow(AGG, rows[id].start, rows[id].end)]
    ensures AggInv(rows[id := rows[id].(status := FAILED)] + pieces)
  {
    var r := rows[id];
    var failed := rows[id := r.(status := FAILED)];
    var rows' := failed + pieces;
    if r.kind == SPAN {
      FailSpanAgg(rows, id);
      AggGrow(failed, pieces);
    } else {
      assert rows'[|rows|] == pieces[0];
      forall i | 0 <= i < |rows'| && rows'[i].kind == AGG
        ensures Backed(rows', rows'[i].start, rows'[i].end) && AggInFlight(rows', rows'[i].start)
      {
        var k := if i < |rows| then i else id;
        BackedKept(rows, rows', rows[k].start, rows[k].end);
        assert AggInFlight(rows, rows[k].start);
        var j :| 0 <= j < |rows| && rows[j].kind == AGG && rows[j].start == rows[k].start && rows[j].status != FAILED;
        assert j != id ==> rows'[j] == rows[j];
      }
    }
  }

  lemma FailSpanAgg(rows: Table, id: nat)
    requires AggInv(rows) && id < |rows| && rows[id].kind == SPAN && rows[id].status != COMPLETE
    ensures AggInv(rows[id := rows[id].(status := FAILED)])
  {
    var rows' := rows[id := rows[id].(status := FAILED)];
    forall i | 0 <= i < |rows'| && rows'[i].kind == AGG
      ensures Backed(rows', rows'[i].start, rows'[i].end) && AggInFlight(rows', rows'[i].start)
    {
      BackedKept(rows, rows', rows[i].start, rows[i].end);
      assert AggInFlight(rows, rows[i].start);
      var j :| 0 <= j < |rows| && rows[j].kind == AGG && rows[j].start == rows[i].start && rows[j].status != FAILED;
      assert rows'[j] == rows[j];
    }
  }

  /** Taking over a checkpoint, or recording the first one, keeps them all equal. */
  lemma CheckpointTaken(rows: Table, id: nat, checkpoint: Checkpoint)
    requires AggInv(rows) && id < |rows| && rows[id].kind == AGG && rows[id].status == UNREQ && rows[id].l1.None?
    requires CheckpointChoice(rows, id, checkpoint)
    ensures CheckpointFits(rows, Dispatched(rows[id], checkpoint))
  {
    forall j | 0 <= j < |rows| && rows[j].kind == AGG && rows[j].start == rows[id].start && rows[j].l1.Some?
      ensures rows[j].l1 == Some(checkpoint)
    {
      assert HoldsCheckpoint(rows[j], rows[id].start, rows[id].end);
      var k :| 0 <= k < |rows| && HoldsCheckpoint(rows[k], rows[id].start, rows[id].end)
               && rows[k].l1 == Some(checkpoint);
    }
  }

  // Failure counts.

  lemma FailCountConcat(rows: Table, more: Table, start: nat, end: nat)
    requires forall k :: 0 <= k < |more| ==> !FailedSpan(more[k])
    ensures FailCount(rows + more, start, end) == FailCount(rows, start, end)
  {
    CountConcat(rows, more, WithRange(SPAN, start, end, FAILED));
    CountNone(more, WithRange(SPAN, start, end, FAILED));
  }

  lemma FailCountUpdate(rows: Table, id: nat, r: Row, start: nat, end: nat)
    requires id < |rows| && SameRow(rows[id], r)
    ensures FailCount(rows[id := r], start, end) == FailCount(rows, start, end)
  {
    CountUpdate(rows, id, r, WithRange(SPAN, start, end, FAILED));
  }

  lemma FailCountFail(rows: Table, id: nat, start: nat, end: nat)
    requires id < |rows| && Live(rows[id])
    ensures FailCount(rows[id := rows[id].(status := FAILED)], start, end)
         == FailCount(rows, start, end) + (if rows[id].start == start && rows[id].end == end then 1 else 0)
  {
    CountUpdate(rows, id, rows[id].(status := FAILED), WithRange(SPAN, start, end, FAILED));
  }

  /** A range strictly inside a live span has never failed: it has never existed. */
  lemma NeverFailed(rows: Table, id: nat, start: nat, end: nat)
    requires FailedNested(rows) && id < |rows| && Live(rows[id])
    requires rows[id].start <= start < end <= rows[id].end && end - start < rows[id].end - rows[id].start
    ensures FailCount(rows, start, end) == 0
  {
    var p := WithRange(SPAN, start, end, FAILED);
    forall r | r in rows ensures !p(r) {
      var i :| 0 <= i < |rows| && rows[i] == r;
      assert FailedSpan(rows[i]) ==> Apart(rows[id], rows[i]) || Inside(rows[id], rows[i]);
    }
    CountNone(rows, p);
  }

  lemma FailGrow(rows: Table, more: Table)
    requires FailInv(rows)
    requires forall k :: 0 <= k < |more| ==> !FailedSpan(more[k])
    requires forall k :: 0 <= k < |more| && Live(more[k]) && more[k].end - more[k].start > 1 ==>
               FailCount(rows, more[k].start, more[k].end) <= 1
    ensures FailInv(rows + more)
  {
    forall s: nat, e: nat ensures FailCount(rows + more, s, e) == FailCount(rows, s, e) {
      FailCountConcat(rows, more, s, e);
    }
  }

  lemma FailUpdate(rows: Table, id: nat, r: Row)
    requires FailInv(rows) && id < |rows| && SameRow(rows[id], r)
    ensures FailInv(rows[id := r])
  {
    var rows' := rows[id := r];
    forall s: nat, e: nat ensures FailCount(rows', s, e) == FailCount(rows, s, e) {
      FailCountUpdate(rows, id, r, s, e);
    }
    forall i | 0 <= i < |rows'| && Live(rows'[i]) && rows'[i].end - rows'[i].start > 1
      ensures FailCount(rows', rows'[i].start, rows'[i].end) <= 1
    {
      assert Live(rows[i]);
    }
  }

  lemma FailFail(rows: Table, id: nat)
    requires FailInv(rows) && Disjoint(rows) && NonEmpty(rows) && id < |rows| && Live(rows[id])
    ensures FailInv(rows[id := rows[id].(status := FAILED)])
  {
    var rows' := rows[id := rows[id].(status := FAILED)];
    forall s: nat, e: nat
      ensures FailCount(rows', s, e)
           == FailCount(rows, s, e) + (if rows[id].start == s && rows[id].end == e then 1 else 0)
    {
      FailCountFail(rows, id, s, e);
    }
    forall i | 0 <= i < |rows'| && Live(rows'[i])
      ensures i != id && Apart(rows[i], rows[id])
    {
      assert Live(rows[i]);
    }
  }

  /** Where a new span's range has failed: nowhere beyond the table's end. */
  lemma FreshRange(rows: Table, start: nat, end: nat)
    requires forall i :: 0 <= i < |rows| ==> rows[i].end <= start
    requires start < end
    ensures FailCount(rows, start, end) == 0
  {
    CountNone(rows, WithRange(SPAN, start, end, FAILED));
  }

  lemma FailRetry(rows: Table, id: nat, unexecutable: bool)
    requires FailInv(rows) && Disjoint(rows) && FailedNested(rows) && NonEmpty(rows)
    requires id < |rows| && rows[id].status in {WITNESSGEN, PROVING}
    ensures FailInv(RetryRows(rows, id, unexecutable))
  {
    var r := rows[id];
    var failed := rows[id := r.(status := FAILED)];
    RetryShape(rows, id, unexecutable);
    var pieces := Pieces(rows, id, unexecutable);
    if r.kind == AGG {
      FailCountAgg(rows, id);
      FailGrow(failed, pieces);
    } else {
      FailFail(rows, id);
      TilesInside(pieces, r.start, r.end);
      forall k | 0 <= k < |pieces| && pieces[k].end - pieces[k].start > 1
        ensures FailCount(failed, pieces[k].start, pieces[k].end) <= 1
      {
        FailCountFail(rows, id, pieces[k].start, pieces[k].end);
        if |pieces| == 2 {
          NeverFailed(rows, id, pieces[k].start, pieces[k].end);
        }
      }
      FailGrow(failed, pieces);
    }
  }

  lemma FailCountAgg(rows: Table, id: nat)
    requires FailInv(rows) && id < |rows| && rows[id].kind == AGG
    ensures FailInv(rows[id := rows[id].(status := FAILED)])
  {
    var rows' := rows[id := rows[id].(status := FAILED)];
    forall s: nat, e: nat ensures FailCount(rows', s, e) == FailCount(rows, s, e) {
      CountUpdate(rows, id, rows'[id], WithRange(SPAN, s, e, FAILED));
    }
  }

  // Caps.

  lemma CapGrow(cfg: Config, rows: Table, more: Table)
    requires CapInv(cfg, rows) && forall k :: 0 <= k < |more| ==> more[k].status == UNREQ
    ensures CapInv(cfg, rows + more)
  {
    CountConcat(rows, more, SpanWitness());
    CountConcat(rows, more, SpanBusy());
    CountNone(more, SpanWitness());
    CountNone(more, SpanBusy());
  }

  /** A change that makes no row busier. */
  lemma CapUpdate(cfg: Config, rows: Table, id: nat, r: Row)
    requires CapInv(cfg, rows) && id < |rows|
    requires SpanWitness()(r) ==> SpanWitness()(rows[id])
    requires SpanBusy()(r) ==> SpanBusy()(rows[id])
    ensures CapInv(cfg, rows[id := r])
  {
    CountUpdate(rows, id, r, SpanWitness());
    CountUpdate(rows, id, r, SpanBusy());
  }

  lemma CapDispatch(cfg: Config, rows: Table, id: nat, r: Row)
    requires CapInv(cfg, rows) && id < |rows| && (r.kind == SPAN ==> UnderCaps(cfg, rows))
    ensures CapInv(cfg, rows[id := r])
  {
    CountUpdate(rows, id, r, SpanWitness());
    CountUpdate(rows, id, r, SpanBusy());
    CountImplies(rows, SpanWitness(), WithStatus(WITNESSGEN));
    CountEither(rows, WithStatus(WITNESSGEN), WithStatus(PROVING), SpanBusy());
  }

  // Every step keeps the invariant.

  lemma InvEmpty(cfg: Config)
    ensures Inv(cfg, [])
  {
    forall s: nat, e: nat ensures FailCount([], s, e) == 0 {
    }
  }

  lemma UpdateKeeps(cfg: Config, rows: Table, id: nat, r: Row)
    requires SpanInv(cfg, rows) && AggInv(rows) && FailInv(rows)
    requires id < |rows| && rows[id].status != COMPLETE && SameRow(rows[id], r) && RowOk(cfg, r)
    requires r.kind == AGG ==> CheckpointFits(rows, r) && (r.status != UNREQ ==> r.l1.Some?)
    ensures SpanInv(cfg, rows[id := r]) && AggInv(rows[id := r]) && FailInv(rows[id := r])
    ensures Frontier(rows[id := r]) == Frontier(rows)
  {
    hide AggInv, FailInv, Family, Bounds, Covers, Frontier;
    KeepShape(cfg, rows, rows[id := r], Frontier(rows));
    MakeInv(cfg, rows[id := r], Frontier(rows));
    AggUpdate(rows, id, r);
    FailUpdate(rows, id, r);
  }

  lemma AddRangesKeeps(cfg: Config, rows: Table, latest: nat, head: nat)
    requires Inv(cfg, rows)
    ensures
      var rows' := Apply(cfg, rows, AddRanges(latest, head));
      && Inv(cfg, rows')
      && (rows' != [] ==> Frontier(rows') == FullSpansEnd(NextStart(rows, latest), head, cfg.maxRange))
  {
    hide SpanInv, AggInv, FailInv, CapInv, FullSpans, FullSpansEnd, FailCount;
    var f, size := NextStart(rows, latest), cfg.maxRange;
    var more := SpanRows(FullSpans(f, head, size));
    AddSpans(cfg, rows, latest, head);
    AggGrow(rows, more);
    FullSpansAfter(f, head, size);
    forall k | 0 <= k < |more| ensures FailCount(rows, more[k].start, more[k].end) == 0 {
      FreshRange(rows, more[k].start, more[k].end);
    }
    FailGrow(rows, more);
    CapGrow(cfg, rows, more);
  }

  lemma {:induction false} FullSpansAfter(start: nat, end: nat, size: nat)
    requires size > 0
    ensures forall k :: 0 <= k < |FullSpans(start, end, size)| ==>
      var span := FullSpans(start, end, size)[k]; start <= span.start && span.end == span.start + size
    decreases if start < end then end - start else 0
  {
    if start + size <= end {
      FullSpansAfter(start + size, end, size);
    }
  }

  lemma AddSpans(cfg: Config, rows: Table, latest: nat, head: nat)
    requires SpanInv(cfg, rows)
    ensures
      var f := NextStart(rows, latest);
      var rows' := rows + SpanRows(FullSpans(f, head, cfg.maxRange));
      && SpanInv(cfg, rows')
      && (rows' != [] ==> Frontier(rows') == FullSpansEnd(f, head, cfg.maxRange))
  {
    hide SpansTo, Frontier, FullSpans, FullSpansEnd;
    if rows == [] {
      AddFirst(cfg, latest, head);
      assert rows + SpanRows(FullSpans(latest, head, cfg.maxRange)) == SpanRows(FullSpans(latest, head, cfg.maxRange));
    } else {
      AppendSpans(cfg, rows, Frontier(rows), head);
      MakeInv(cfg, rows + SpanRows(FullSpans(Frontier(rows), head, cfg.maxRange)),
              FullSpansEnd(Frontier(rows), head, cfg.maxRange));
    }
  }

  lemma AddFirst(cfg: Config, start: nat, head: nat)
    ensures
      var rows := SpanRows(FullSpans(start, head, cfg.maxRange));
      SpanInv(cfg, rows) && (rows != [] ==> Frontier(rows) == FullSpansEnd(start, head, cfg.maxRange))
  {
    hide SpansTo, Frontier;
    var size := cfg.maxRange;
    if start + size <= head {
      var first := [NewRow(SPAN, start, start + size)];
      FirstSpan(cfg, start);
      AppendSpans(cfg, first, start + size, head);
      OneSpan([], start, head, size);
      assert first + SpanRows(FullSpans(start + size, head, size)) == SpanRows(FullSpans(start, head, size));
      MakeInv(cfg, SpanRows(FullSpans(start, head, size)), FullSpansEnd(start, head, size));
    }
  }

  /** What the retry and derive steps need to know about the spans. */
  lemma SpanFacts(cfg: Config, rows: Table)
    requires SpanInv(cfg, rows)
    ensures NonEmpty(rows) && Disjoint(rows) && FailedNested(rows)
    ensures rows != [] ==> SpansTo(cfg, rows, Frontier(rows))
  {
  }

  lemma RetryStepKeeps(cfg: Config, rows: Table, id: nat, unexecutable: bool)
    requires Inv(cfg, rows) && id < |rows| && rows[id].status in {WITNESSGEN, PROVING}
    ensures Inv(cfg, RetryRows(rows, id, unexecutable))
    ensures Frontier(RetryRows(rows, id, unexecutable)) == Frontier(rows)
  {
    hide SpanInv, SpansTo, AggInv, FailInv, CapInv, Disjoint, FailedNested, RetryRows, Frontier, Pieces;
    var rows' := RetryRows(rows, id, unexecutable);
    SpanFacts(cfg, rows);
    RetryKeeps(cfg, rows, id, unexecutable, Frontier(rows));
    MakeInv(cfg, rows', Frontier(rows));
    RetryShape(rows, id, unexecutable);
    var pieces := Pieces(rows, id, unexecutable);
    if rows[id].kind == SPAN {
      TilesInside(pieces, rows[id].start, rows[id].end);
    }
    AggRetry(rows, id, pieces);
    FailRetry(rows, id, unexecutable);
    CapUpdate(cfg, rows, id, rows[id].(status := FAILED));
    CapGrow(cfg, rows[id := rows[id].(status := FAILED)], pieces);
  }

  lemma DeriveAggKeeps(cfg: Config, rows: Table, latest: nat, minTo: nat, end: nat)
    requires Inv(cfg, rows) && Enabled(cfg, rows, DeriveAgg(latest, minTo, end))
    ensures
      var rows' := Apply(cfg, rows, DeriveAgg(latest, minTo, end));
      Inv(cfg, rows') && Frontier(rows') == Frontier(rows)
  {
    hide SpanInv, SpansTo, AggInv, FailInv, CapInv, Disjoint, FailedNested, Frontier, AggInFlight, MaxContiguous;
    if !AggInFlight(rows, latest) && minTo <= end {
      var r := NewRow(AGG, latest, end);
      DerivedBacked(cfg, rows, latest, end);
      SpanFacts(cfg, rows);
      AppendAgg(cfg, rows, latest, end, Frontier(rows));
      MakeInv(cfg, rows + [r], Frontier(rows));
      AggNew(rows, latest, end);
      FailGrow(rows, [r]);
      CapGrow(cfg, rows, [r]);
    }
  }

  /** A contiguous end past the start is backed and within the table's blocks. */
  lemma DerivedBacked(cfg: Config, rows: Table, start: nat, end: nat)
    requires SpanInv(cfg, rows) && MaxContiguous(rows, start, end) && start < end
    ensures Backed(rows, start, end) && rows != [] && Base(rows) <= start && end <= Frontier(rows)
  {
    hide FailedNested, Laminar, Covers, Frontier, ContiguousEnd, DoneChain;
    var ids :| Ordered(rows, DoneFrom(start), ids) && ContiguousEnd(rows, ids, start) == end;
    var chain := ContiguousScan(rows, ids, start);
    ChainBacked(rows, chain, start, end);
  }

  lemma DispatchKeeps(cfg: Config, rows: Table, id: nat, checkpoint: Checkpoint)
    requires Inv(cfg, rows) && Enabled(cfg, rows, Dispatch(id, checkpoint))
    ensures
      var rows' := Apply(cfg, rows, Dispatch(id, checkpoint));
      Inv(cfg, rows') && Frontier(rows') == Frontier(rows)
  {
    hide Family, Bounds, Covers, FailInv, AggBacked, AggActive, Frontier, CheckpointChoice,
      UnderCaps, CapInv;
    var r := Dispatched(rows[id], checkpoint);
    if r.kind == AGG && rows[id].l1.None? {
      CheckpointTaken(rows, id, checkpoint);
    }
    UpdateKeeps(cfg, rows, id, r);
    CapDispatch(cfg, rows, id, r);
  }

  /** A request in flight moves on to proving or to completion. */
  lemma AdvanceKeeps(cfg: Config, rows: Table, id: nat, r: Row)
    requires Inv(cfg, rows) && id < |rows| && rows[id].status in {WITNESSGEN, PROVING}
    requires r == rows[id].(status := r.status, proof := r.proof)
    requires (r.status == COMPLETE && r.proof.Some?) || (r.status == PROVING && r.proof.None?)
    ensures Inv(cfg, rows[id := r]) && Frontier(rows[id := r]) == Frontier(rows)
  {
    hide Family, Bounds, Covers, FailInv, AggBacked, AggActive;
    UpdateKeeps(cfg, rows, id, r);
    CapUpdate(cfg, rows, id, r);
  }

  lemma ProofUnset(cfg: Config, rows: Table, id: nat)
    requires SpanInv(cfg, rows) && id < |rows|
    ensures rows[id].status == COMPLETE <==> rows[id].proof.Some?
  {
  }

  lemma StepKeeps(cfg: Config, rows: Table, step: Step)
    requires Inv(cfg, rows) && Enabled(cfg, rows, step)
    ensures Inv(cfg, Apply(cfg, rows, step))
  {
    hide SpanInv, AggInv, FailInv, CapInv, Frontier, FullSpans, NextUnrequested, UnderCaps, CheckpointChoice;
    match step
    case AddRanges(latest, head) => AddRangesKeeps(cfg, rows, latest, head);
    case Fulfil(id, proof) => AdvanceKeeps(cfg, rows, id, rows[id].(status := COMPLETE, proof := Some(proof)));
    case Retry(id, unexecutable) => RetryStepKeeps(cfg, rows, id, unexecutable);
    case StartProving(id) =>
      ProofUnset(cfg, rows, id);
      AdvanceKeeps(cfg, rows, id, rows[id].(status := PROVING));
    case DeriveAgg(latest, minTo, end) => DeriveAggKeeps(cfg, rows, latest, minTo, end);
    case Dispatch(id, checkpoint) => DispatchKeeps(cfg, rows, id, checkpoint);
  }

  /** Every run keeps the invariant and only ever extends the history. */
  lemma {:induction false} RunKeeps(cfg: Config, rows: Table, steps: seq<Step>, rows': Table)
    requires Inv(cfg, rows) && Runs(cfg, rows, steps, rows')
    ensures Inv(cfg, rows') && Evolves(rows, rows')
    decreases |steps|
  {
    hide Inv, Apply, Enabled;
    if steps != [] {
      StepKeeps(cfg, rows, steps[0]);
      StepEvolves(cfg, rows, steps[0]);
      RunKeeps(cfg, Apply(cfg, rows, steps[0]), steps[1..], rows');
    }
  }

  lemma ReachableInv(cfg: Config, rows: Table)
    requires Reachable(cfg, rows)
    ensures Inv(cfg, rows)
  {
    var steps :| Runs(cfg, [], steps, rows);
    InvEmpty(cfg);
    RunKeeps(cfg, [], steps, rows);
  }
}

/**
 The live spans always partition [base, frontier), whatever retries, splits and insertions
 happen, and all spans ever created form a nested family.
 */
module Partition {
  import opened Prelude
  import opened Requests
  import opened Spans
  import opened Scheduler

  /** Live spans do not overlap. */
  ghost predicate Disjoint(rows: Table) {
    forall i, j :: 0 <= i < j < |rows| && Live(rows[i]) && Live(rows[j]) ==> Apart(rows[i], rows[j])
  }

  /** A live span never straddles a boundary of a failed one. */
  ghost predicate FailedNested(rows: Table) {
    forall i, j :: 0 <= i < |rows| && 0 <= j < |rows| && FailedSpan(rows[i]) && Live(rows[j])
      ==> Apart(rows[j], rows[i]) || Inside(rows[j], rows[i])
  }

  /** Any two spans ever created are nested or disjoint. */
  ghost predicate Laminar(rows: Table) {
    forall i, j :: 0 <= i < j < |rows| && rows[i].kind == SPAN && rows[j].kind == SPAN
      ==> Apart(rows[i], rows[j]) || Inside(rows[i], rows[j]) || Inside(rows[j], rows[i])
  }

  ghost predicate Family(rows: Table) {
    Disjoint(rows) && FailedNested(rows) && Laminar(rows)
  }

  predicate FailedSpan(r: Row) {
    r.kind == SPAN && r.status == FAILED
  }

  ghost predicate Covered(rows: Table, b: nat) {
    exists i :: 0 <= i < |rows| && Live(rows[i]) && rows[i].start <= b < rows[i].end
  }

  ghost predicate Covers(rows: Table, lo: nat, hi: nat) {
    forall b :: lo <= b < hi ==> Covered(rows, b)
  }

  /** Every row lies in [lo, hi), and some row ends at hi. */
  ghost predicate Bounds(rows: Table, lo: nat, hi: nat) {
    && (forall i :: 0 <= i < |rows| ==> lo <= rows[i].start && rows[i].end <= hi)
    && (exists i :: 0 <= i < |rows| && rows[i].end == hi)
  }

  /** What one row satisfies on its own. */
  ghost predicate RowOk(cfg: Config, r: Row) {
    && r.start < r.end
    && (r.kind == SPAN ==> r.end - r.start <= cfg.maxRange)
    && (r.status == COMPLETE <==> r.proof.Some?)
  }

  ghost predicate RowsOk(cfg: Config, rows: Table) {
    forall i :: 0 <= i < |rows| ==> RowOk(cfg, rows[i])
  }

  /** The invariant of a non-empty table that reaches up to block hi. */
  ghost predicate SpansTo(cfg: Config, rows: Table, hi: nat) {
    && rows != [] && rows[0].kind == SPAN
    && RowsOk(cfg, rows)
    && Family(rows)
    && Bounds(rows, rows[0].start, hi)
    && Covers(rows, rows[0].start, hi)
  }

  ghost predicate SpanInv(cfg: Config, rows: Table) {
    rows == [] || SpansTo(cfg, rows, Frontier(rows))
  }

  lemma MakeInv(cfg: Config, rows: Table, hi: nat)
    requires SpansTo(cfg, rows, hi)
    ensures Frontier(rows) == hi && SpanInv(cfg, rows)
  {
  }

  // How the family changes.

  /** Same rows up to statuses, proofs and checkpoints, and the same rows are failed. */
  ghost predicate SameShape(rows: Table, rows': Table) {
    && |rows'| == |rows|
    && forall i :: 0 <= i < |rows| ==> SameRow(rows[i], rows'[i])
  }

  predicate SameRow(r: Row, r': Row) {
    && r'.kind == r.kind && r'.start == r.start && r'.end == r.end
    && (r'.status == FAILED <==> r.status == FAILED)
  }

  lemma ShapeFamily(rows: Table, rows': Table)
    requires Family(rows) && SameShape(rows, rows')
    ensures Family(rows')
  {
  }

  /** A span that may join: it overlaps no live span and no failed one it is not inside of. */
  ghost predicate Fits(rows: Table, r: Row) {
    && (forall i :: 0 <= i < |rows| && Live(rows[i]) ==> Apart(rows[i], r))
    && (forall i :: 0 <= i < |rows| && FailedSpan(rows[i]) ==> Apart(r, rows[i]) || Inside(r, rows[i]))
  }

  lemma JoinFamily(rows: Table, r: Row)
    requires Family(rows) && (Live(r) ==> Fits(rows, r)) && !FailedSpan(r)
    ensures Family(rows + [r])
  {
  }

  lemma FailFamily(rows: Table, id: nat)
    requires Family(rows) && id < |rows|
    ensures Family(rows[id := rows[id].(status := FAILED)])
  {
  }

  /** Every live span that covered a block still does. */
  lemma CoversGrow(rows: Table, rows': Table, lo: nat, hi: nat)
    requires Covers(rows, lo, hi) && |rows| <= |rows'|
    requires forall i :: 0 <= i < |rows| && Live(rows[i]) ==> Live(rows'[i]) && SameRow(rows[i], rows'[i])
    ensures Covers(rows', lo, hi)
  {
    forall b | lo <= b < hi ensures Covered(rows', b) {
      assert Covered(rows, b);
      var i :| 0 <= i < |rows| && Live(rows[i]) && rows[i].start <= b < rows[i].end;
      assert Live(rows'[i]);
    }
  }

  lemma KeepShape(cfg: Config, rows: Table, rows': Table, hi: nat)
    requires SpansTo(cfg, rows, hi) && SameShape(rows, rows') && RowsOk(cfg, rows')
    ensures SpansTo(cfg, rows', hi)
  {
    ShapeFamily(rows, rows');
    CoversGrow(rows, rows', rows[0].start, hi);
    var i :| 0 <= i < |rows| && rows[i].end == hi;
    assert rows'[i].end == hi;
  }

  lemma JoinBounds(rows: Table, r: Row, lo: nat, hi: nat, hi': nat)
    requires Bounds(rows, lo, hi) && lo <= r.start && hi' == Max(hi, r.end)
    ensures Bounds(rows + [r], lo, hi')
  {
    var i :| 0 <= i < |rows| && rows[i].end == hi;
    assert (rows + [r])[i].end == hi && (rows + [r])[|rows|] == r;
  }

  lemma FirstSpan(cfg: Config, start: nat)
    ensures SpansTo(cfg, [NewRow(SPAN, start, start + cfg.maxRange)], start + cfg.maxRange)
  {
    var rows := [NewRow(SPAN, start, start + cfg.maxRange)];
    assert rows[0].end == start + cfg.maxRange;
    forall b | start <= b < start + cfg.maxRange ensures Covered(rows, b) {
      assert Live(rows[0]);
    }
  }

  /** Appending the span that begins where the table ends. */
  lemma AppendSpan(cfg: Config, rows: Table, hi: nat)
    requires SpansTo(cfg, rows, hi)
    ensures SpansTo(cfg, rows + [NewRow(SPAN, hi, hi + cfg.maxRange)], hi + cfg.maxRange)
  {
    var r := NewRow(SPAN, hi, hi + cfg.maxRange);
    var rows' := rows + [r];
    JoinFamily(rows, r);
    JoinBounds(rows, r, rows[0].start, hi, hi + cfg.maxRange);
    CoversGrow(rows, rows', rows[0].start, hi);
    forall b | rows[0].start <= b < hi + cfg.maxRange ensures Covered(rows', b) {
      if hi <= b {
        assert rows'[|rows|] == r && Live(r);
      }
    }
  }

  lemma {:induction false} AppendSpans(cfg: Config, rows: Table, hi: nat, head: nat)
    requires SpansTo(cfg, rows, hi)
    ensures SpansTo(cfg, rows + SpanRows(FullSpans(hi, head, cfg.maxRange)), FullSpansEnd(hi, head, cfg.maxRange))
    decreases if hi < head then head - hi else 0
  {
    hide SpansTo;
    var size := cfg.maxRange;
    if hi + size <= head {
      AppendSpan(cfg, rows, hi);
      AppendSpans(cfg, rows + [NewRow(SPAN, hi, hi + size)], hi + size, head);
      OneSpan(rows, hi, head, size);
    } else {
      assert rows + SpanRows(FullSpans(hi, head, size)) == rows;
    }
  }

  lemma OneSpan(rows: Table, f: nat, head: nat, size: nat)
    requires size > 0 && f + size <= head
    ensures rows + SpanRows(FullSpans(f, head, size))
         == (rows + [NewRow(SPAN, f, f + size)]) + SpanRows(FullSpans(f + size, head, size))
  {
  }

  lemma AppendAgg(cfg: Config, rows: Table, start: nat, end: nat, hi: nat)
    requires SpansTo(cfg, rows, hi)
    requires rows[0].start <= start < end <= hi
    ensures SpansTo(cfg, rows + [NewRow(AGG, start, end)], hi)
  {
    var r := NewRow(AGG, start, end);
    JoinFamily(rows, r);
    JoinBounds(rows, r, rows[0].start, hi, hi);
    CoversGrow(rows, rows + [r], rows[0].start, hi);
  }

  /** Failing a live span and appending fresh spans that tile its range. */
  lemma Replace(cfg: Config, rows: Table, id: nat, pieces: Table, hi: nat)
    requires SpansTo(cfg, rows, hi) && id < |rows| && Live(rows[id]) && rows[id].status != COMPLETE
    requires Tiles(pieces, rows[id].start, rows[id].end)
    ensures SpansTo(cfg, rows[id := rows[id].(status := FAILED)] + pieces, hi)
  {
    var failed := rows[id := rows[id].(status := FAILED)];
    FailFamily(rows, id);
    ReplaceFamily(failed, id, rows[id].start, pieces);
    ReplaceBounds(rows, id, pieces, rows[0].start, hi);
    ReplaceCovers(rows, id, pieces, rows[0].start, hi);
    ReplaceOk(cfg, rows, id, pieces);
  }

  lemma ReplaceOk(cfg: Config, rows: Table, id: nat, pieces: Table)
    requires RowsOk(cfg, rows) && id < |rows| && Live(rows[id]) && rows[id].status != COMPLETE
    requires Tiles(pieces, rows[id].start, rows[id].end)
    ensures RowsOk(cfg, rows[id := rows[id].(status := FAILED)] + pieces)
  {
    TilesInside(pieces, rows[id].start, rows[id].end);
  }

  /** Fresh spans that tile [start, end) in order. */
  ghost predicate Tiles(pieces: Table, start: nat, end: nat) {
    if pieces == [] then start == end
    else
      && pieces[0] == NewRow(SPAN, start, pieces[0].end)
      && start < pieces[0].end
      && Tiles(pieces[1..], pieces[0].end, end)
  }

  lemma {:induction false} TilesInside(pieces: Table, start: nat, end: nat)
    requires Tiles(pieces, start, end)
    ensures start <= end
    ensures forall k :: 0 <= k < |pieces| ==>
      Live(pieces[k]) && start <= pieces[k].start < pieces[k].end <= end && pieces[k].proof.None?
      && pieces[k].status == UNREQ
  {
    if pieces != [] {
      TilesInside(pieces[1..], pieces[0].end, end);
    }
  }

  lemma {:induction false} TilesCover(pieces: Table, start: nat, end: nat, b: nat) returns (k: nat)
    requires Tiles(pieces, start, end) && start <= b < end
    ensures k < |pieces| && Live(pieces[k]) && pieces[k].start <= b < pieces[k].end
  {
    if b < pieces[0].end {
      k := 0;
    } else {
      k := TilesCover(pieces[1..], pieces[0].end, end, b);
      k := k + 1;
    }
  }

  lemma {:induction false} ReplaceFamily(rows: Table, id: nat, from: nat, pieces: Table)
    requires Family(rows) && id < |rows| && FailedSpan(rows[id])
    requires rows[id].start <= from
    requires Tiles(pieces, from, rows[id].end)
    requires forall i :: 0 <= i < |rows| && Live(rows[i]) ==> rows[i].end <= from || rows[id].end <= rows[i].start
    requires forall i :: 0 <= i < |rows| && FailedSpan(rows[i]) ==>
               Apart(rows[id], rows[i]) || Inside(rows[id], rows[i])
    ensures Family(rows + pieces)
    decreases |pieces|
  {
    if pieces == [] {
      assert rows + pieces == rows;
    } else {
      var r := pieces[0];
      TilesInside(pieces, from, rows[id].end);
      JoinFamily(rows, r);
      ReplaceFamily(rows + [r], id, r.end, pieces[1..]);
      assert rows + pieces == (rows + [r]) + pieces[1..];
    }
  }

  lemma ReplaceBounds(rows: Table, id: nat, pieces: Table, lo: nat, hi: nat)
    requires Bounds(rows, lo, hi) && id < |rows| && Tiles(pieces, rows[id].start, rows[id].end)
    ensures Bounds(rows[id := rows[id].(status := FAILED)] + pieces, lo, hi)
  {
    var rows' := rows[id := rows[id].(status := FAILED)] + pieces;
    TilesInside(pieces, rows[id].start, rows[id].end);
    var i :| 0 <= i < |rows| && rows[i].end == hi;
    assert rows'[i].end == hi;
  }

  lemma ReplaceCovers(rows: Table, id: nat, pieces: Table, lo: nat, hi: nat)
    requires Covers(rows, lo, hi) && id < |rows| && Tiles(pieces, rows[id].start, rows[id].end)
    ensures Covers(rows[id := rows[id].(status := FAILED)] + pieces, lo, hi)
  {
    var rows' := rows[id := rows[id].(status := FAILED)] + pieces;
    forall b | lo <= b < hi ensures Covered(rows', b) {
      assert Covered(rows, b);
      var i :| 0 <= i < |rows| && Live(rows[i]) && rows[i].start <= b < rows[i].end;
      if i != id {
        assert Live(rows'[i]);
      } else {
        var k := TilesCover(pieces, rows[id].start, rows[id].end, b);
        assert rows'[|rows| + k] == pieces[k];
      }
    }
  }

  /** What `RetryRequest` appends: the same request, or its two halves. */
  ghost function Pieces(rows: Table, id: nat, unexecutable: bool): Table
    requires id < |rows|
  {
    RetryRows(rows, id, unexecutable)[|rows|..]
  }

  lemma RetryShape(rows: Table, id: nat, unexecutable: bool)
    requires id < |rows| && rows[id].start < rows[id].end
    ensures RetryRows(rows, id, unexecutable)
         == rows[id := rows[id].(status := FAILED)] + Pieces(rows, id, unexecutable)
    ensures rows[id].kind == SPAN ==> Tiles(Pieces(rows, id, unexecutable), rows[id].start, rows[id].end)
    ensures rows[id].kind == AGG ==> Pieces(rows, id, unexecutable) == [NewRow(AGG, rows[id].start, rows[id].end)]
  {
    var pieces := Pieces(rows, id, unexecutable);
    if |pieces| == 2 {
      assert pieces[1..][1..] == [];
    } else {
      assert pieces[1..] == [];
    }
  }

  /** Retrying any row that is neither failed nor complete keeps the invariant and the frontier. */
  lemma RetryKeeps(cfg: Config, rows: Table, id: nat, unexecutable: bool, hi: nat)
    requires SpansTo(cfg, rows, hi) && id < |rows| && rows[id].status !in {FAILED, COMPLETE}
    ensures SpansTo(cfg, RetryRows(rows, id, unexecutable), hi)
  {
    var r := rows[id];
    RetryShape(rows, id, unexecutable);
    if r.kind == SPAN {
      Replace(cfg, rows, id, Pieces(rows, id, unexecutable), hi);
    } else {
      FailAgg(cfg, rows, id, hi);
      AppendAgg(cfg, rows[id := r.(status := FAILED)], r.start, r.end, hi);
    }
  }

  lemma FailAgg(cfg: Config, rows: Table, id: nat, hi: nat)
    requires SpansTo(cfg, rows, hi) && id < |rows| && rows[id].kind == AGG && rows[id].status != COMPLETE
    ensures SpansTo(cfg, rows[id := rows[id].(status := FAILED)], hi)
  {
    var rows' := rows[id := rows[id].(status := FAILED)];
    FailFamily(rows, id);
    CoversGrow(rows, rows', rows[0].start, hi);
    var i :| 0 <= i < |rows| && rows[i].end == hi;
    assert rows'[i].end == hi;
  }
}

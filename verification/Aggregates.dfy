/**
 The two sorted scans over completed spans, and the rows that aggregate them.
 The scans are only right because live spans are disjoint.
 */
module Aggregates {
  import opened Prelude
  import opened Requests
  import opened Partition

  /** `chain` lists completed spans that tile [start, end) in order. */
  ghost predicate DoneChain(rows: Table, chain: seq<nat>, start: nat, end: nat) {
    if chain == [] then start == end
    else
      && chain[0] < |rows| && Done(rows[chain[0]])
      && rows[chain[0]].start == start
      && DoneChain(rows, chain[1..], rows[chain[0]].end, end)
  }

  ghost predicate DoneStartsAt(rows: Table, b: nat) {
    exists i :: 0 <= i < |rows| && Done(rows[i]) && rows[i].start == b
  }

  /** Block b is in a completed span that stays within [start, end). */
  ghost predicate BackedAt(rows: Table, start: nat, end: nat, b: nat) {
    exists i :: 0 <= i < |rows| && Done(rows[i]) && start <= rows[i].start <= b < rows[i].end <= end
  }

  /** Completed spans make up all of [start, end). */
  ghost predicate Backed(rows: Table, start: nat, end: nat) {
    forall b :: start <= b < end ==> BackedAt(rows, start, end, b)
  }

  ghost predicate NonEmpty(rows: Table) {
    forall i :: 0 <= i < |rows| ==> rows[i].start < rows[i].end
  }

  lemma {:induction false} ChainBacked(rows: Table, chain: seq<nat>, start: nat, end: nat)
    requires NonEmpty(rows) && DoneChain(rows, chain, start, end)
    ensures start <= end && Backed(rows, start, end)
    ensures start < end ==> exists i :: 0 <= i < |rows| && Done(rows[i]) && rows[i].end == end
  {
    if chain != [] {
      var first := chain[0];
      ChainBacked(rows, chain[1..], rows[first].end, end);
      forall b | start <= b < end ensures BackedAt(rows, start, end, b) {
        if rows[first].end <= b {
          assert BackedAt(rows, rows[first].end, end, b);
        } else {
          assert Done(rows[first]);
        }
      }
    }
  }

  // GetMaxContiguousSpanProofRange.

  /** Reading past the first span leaves the query for the rest. */
  lemma OrderedTail(rows: Table, p: Row -> bool, q: Row -> bool, ids: seq<nat>)
    requires ids != [] && Ordered(rows, p, ids)
    requires forall i :: 0 <= i < |rows| ==> (q(rows[i]) <==> p(rows[i]) && i != ids[0])
    ensures Ordered(rows, q, ids[1..])
  {
    assert ids == [ids[0]] + ids[1..];
  }

  /** The sorted scan stops at the end of a chain that no completed span continues. */
  lemma {:induction false} ContiguousScan(rows: Table, ids: seq<nat>, start: nat) returns (chain: seq<nat>)
    requires NonEmpty(rows) && Disjoint(rows) && Ordered(rows, DoneFrom(start), ids)
    ensures DoneChain(rows, chain, start, ContiguousEnd(rows, ids, start))
    ensures !DoneStartsAt(rows, ContiguousEnd(rows, ids, start))
    decreases |ids|
  {
    if ids == [] || rows[ids[0]].start != start {
      chain := [];
      forall i | 0 <= i < |rows| && Done(rows[i]) ensures rows[i].start != start {
        assert DoneFrom(start)(rows[i]) ==> i in ids;
      }
    } else {
      var first := ids[0];
      DoneAfter(rows, start, first);
      OrderedTail(rows, DoneFrom(start), DoneFrom(rows[first].end), ids);
      var rest := ContiguousScan(rows, ids[1..], rows[first].end);
      chain := [first] + rest;
      assert chain[1..] == rest;
    }
  }

  lemma DoneAfter(rows: Table, start: nat, first: nat)
    requires NonEmpty(rows) && Disjoint(rows)
    requires first < |rows| && Done(rows[first]) && rows[first].start == start
    ensures forall i :: 0 <= i < |rows| ==>
      (DoneFrom(rows[first].end)(rows[i]) <==> DoneFrom(start)(rows[i]) && i != first)
  {
    forall i | 0 <= i < |rows| && Done(rows[i]) && i != first
      ensures Apart(rows[i], rows[first])
    {
      assert Live(rows[i]) && Live(rows[first]);
    }
  }

  /** Only one block can end such a chain, so the answer does not depend on the query's tie order. */
  lemma {:induction false} ContiguousUnique(rows: Table, c: seq<nat>, d: seq<nat>, start: nat, e: nat, f: nat)
    requires Disjoint(rows) && NonEmpty(rows)
    requires DoneChain(rows, c, start, e) && !DoneStartsAt(rows, e)
    requires DoneChain(rows, d, start, f) && !DoneStartsAt(rows, f)
    ensures c == d && e == f
    decreases |c|
  {
    if c != [] && d != [] {
      SameStart(rows, c[0], d[0]);
      ContiguousUnique(rows, c[1..], d[1..], rows[c[0]].end, e, f);
    }
  }

  // GetConsecutiveSpanProofs.

  /** Completed spans of [start, end] other than the one at `start` begin after it. */
  lemma DoneRest(rows: Table, start: nat, end: nat, first: nat)
    requires NonEmpty(rows) && Disjoint(rows) && Backed(rows, start, end)
    requires first < |rows| && Done(rows[first]) && rows[first].start == start && rows[first].end <= end
    ensures forall i :: 0 <= i < |rows| ==>
      (DoneWithin(rows[first].end, end)(rows[i]) <==> DoneWithin(start, end)(rows[i]) && i != first)
    ensures Backed(rows, rows[first].end, end)
  {
    DoneAfter(rows, start, first);
    forall b | rows[first].end <= b < end ensures BackedAt(rows, rows[first].end, end, b) {
      assert BackedAt(rows, start, end, b);
      var i :| 0 <= i < |rows| && Done(rows[i]) && start <= rows[i].start <= b < rows[i].end <= end;
      assert DoneFrom(start)(rows[i]) && i != first;
    }
  }

  /** The first row of the ordered query is the span that begins at `start`. */
  lemma DoneFirst(rows: Table, ids: seq<nat>, start: nat, end: nat)
    requires NonEmpty(rows) && Disjoint(rows) && Backed(rows, start, end)
    requires Ordered(rows, DoneWithin(start, end), ids)
    ensures ids == [] <==> end <= start
    ensures ids != [] ==> rows[ids[0]].start == start
  {
    if ids != [] {
      assert DoneWithin(start, end)(rows[ids[0]]);
      assert start < end;
    }
    if start < end {
      assert BackedAt(rows, start, end, start);
      var i :| 0 <= i < |rows| && Done(rows[i]) && start <= rows[i].start <= start < rows[i].end <= end;
      assert DoneWithin(start, end)(rows[i]);
      assert i in ids;
    }
  }

  ghost function ProofsOf(rows: Table, ids: seq<nat>): (proofs: seq<Option<Proof>>)
    requires Ids(rows, ids)
    ensures |proofs| == |ids|
    ensures forall k :: 0 <= k < |ids| ==> proofs[k] == rows[ids[k]].proof
  {
    if ids == [] then [] else [rows[ids[0]].proof] + ProofsOf(rows, ids[1..])
  }

  /** On a backed range the scan succeeds and returns the proofs of a chain over the range. */
  lemma {:induction false} ConsecutiveScan(rows: Table, ids: seq<nat>, start: nat, end: nat)
    requires NonEmpty(rows) && Disjoint(rows) && Backed(rows, start, end) && start <= end
    requires Ordered(rows, DoneWithin(start, end), ids)
    ensures DoneChain(rows, ids, start, end)
    ensures ConsecutiveProofs(rows, ids, start, end) == Ok(ProofsOf(rows, ids))
    decreases |ids|
  {
    hide Disjoint, Backed;
    DoneFirst(rows, ids, start, end);
    if ids != [] {
      var first := ids[0];
      assert DoneWithin(start, end)(rows[first]);
      DoneRest(rows, start, end, first);
      OrderedTail(rows, DoneWithin(start, end), DoneWithin(rows[first].end, end), ids);
      ConsecutiveScan(rows, ids[1..], rows[first].end, end);
    }
  }

  /** What an answer of the scan means, in any table. */
  ghost predicate ScanMeans(
      rows: Table, ids: seq<nat>, start: nat, end: nat, r: Result<seq<Option<Proof>>, ScanError>)
    requires Ids(rows, ids)
  {
    match r
    case Ok(proofs) => DoneChain(rows, ids, start, end) && proofs == ProofsOf(rows, ids)
    case Err(Incomplete(at, expected)) => DoneChain(rows, ids, start, at) && at != end && expected == end
    case Err(Gap(expected, got)) => exists k: nat :: GapAt(rows, ids, start, k, expected, got)
  }

  /** The first k spans are a chain up to block `expected`, and the next begins at another block. */
  ghost predicate GapAt(rows: Table, ids: seq<nat>, start: nat, k: nat, expected: nat, got: nat)
    requires Ids(rows, ids)
  {
    k < |ids| && DoneChain(rows, ids[..k], start, expected) && rows[ids[k]].start == got != expected
  }

  /** In any table the scan succeeds exactly on a chain over the range, and else names what is wrong. */
  lemma {:induction false} ConsecutiveMeaning(rows: Table, ids: seq<nat>, start: nat, end: nat)
    requires Ids(rows, ids) && forall k :: 0 <= k < |ids| ==> Done(rows[ids[k]])
    ensures ScanMeans(rows, ids, start, end, ConsecutiveProofs(rows, ids, start, end))
    ensures ConsecutiveProofs(rows, ids, start, end).Ok? <==> DoneChain(rows, ids, start, end)
    decreases |ids|
  {
    if ids == [] {
    } else if rows[ids[0]].start != start {
      assert GapAt(rows, ids, start, 0, start, rows[ids[0]].start);
    } else {
      var rest := ids[1..];
      ConsecutiveMeaning(rows, rest, rows[ids[0]].end, end);
      match ConsecutiveProofs(rows, rest, rows[ids[0]].end, end)
      case Ok(_) =>
      case Err(Incomplete(_, _)) =>
      case Err(Gap(expected, got)) =>
        var k: nat :| GapAt(rows, rest, rows[ids[0]].end, k, expected, got);
        assert ids[..k + 1][1..] == rest[..k];
        assert GapAt(rows, ids, start, k + 1, expected, got);
    }
  }

  /** Completed spans are never touched again. */
  ghost predicate DoneKept(rows: Table, rows': Table) {
    && |rows| <= |rows'|
    && forall i :: 0 <= i < |rows| && Done(rows[i]) ==> rows'[i] == rows[i]
  }

  lemma BackedKept(rows: Table, rows': Table, start: nat, end: nat)
    requires Backed(rows, start, end) && DoneKept(rows, rows')
    ensures Backed(rows', start, end)
  {
    forall b | start <= b < end ensures BackedAt(rows', start, end, b) {
      assert BackedAt(rows, start, end, b);
      var i :| 0 <= i < |rows| && Done(rows[i]) && start <= rows[i].start <= b < rows[i].end <= end;
      assert rows'[i] == rows[i];
    }
  }

  lemma SameStart(rows: Table, i: nat, j: nat)
    requires NonEmpty(rows) && Disjoint(rows) && i < |rows| && j < |rows|
    requires Live(rows[i]) && Live(rows[j]) && rows[i].start == rows[j].start
    ensures i == j
  {
  }

  /** A backed range is answered by the same rows forever. */
  lemma {:induction false} ConsecutiveSame(
      rows: Table, ids: seq<nat>, rows': Table, ids': seq<nat>, start: nat, end: nat)
    requires NonEmpty(rows) && Disjoint(rows) && Backed(rows, start, end) && start <= end
    requires NonEmpty(rows') && Disjoint(rows') && DoneKept(rows, rows')
    requires Ordered(rows, DoneWithin(start, end), ids) && Ordered(rows', DoneWithin(start, end), ids')
    ensures ids == ids'
    decreases |ids|
  {
    hide Disjoint, Backed;
    BackedKept(rows, rows', start, end);
    DoneFirst(rows, ids, start, end);
    DoneFirst(rows', ids', start, end);
    if ids != [] {
      var first := ids[0];
      assert DoneWithin(start, end)(rows[first]) && DoneWithin(start, end)(rows'[ids'[0]]);
      SameStart(rows', first, ids'[0]);
      DoneRest(rows, start, end, first);
      DoneRest(rows', start, end, first);
      OrderedTail(rows, DoneWithin(start, end), DoneWithin(rows[first].end, end), ids);
      OrderedTail(rows', DoneWithin(start, end), DoneWithin(rows[first].end, end), ids');
      ConsecutiveSame(rows, ids[1..], rows', ids'[1..], rows[first].end, end);
    }
  }
}

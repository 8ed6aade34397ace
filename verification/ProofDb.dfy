/** The request database: a table that is appended to and updated in place. */
module ProofDb {
  import opened Prelude
  import opened Tallies
  import opened Requests
  import opened Scheduler
  import Aggregates

  datatype DbError = NotFound | NotSingular | NotProving | ProofAlreadySet

  /** What `Update().Where(ID(id)).SetStatus(status)` leaves: nothing changes when there is no such row. */
  function SetStatus(rows: Table, id: nat, status: Status): Table {
    if id < |rows| then rows[id := rows[id].(status := status)] else rows
  }

  /** The AGG requests that are waiting for a checkpoint of the range (start, end). */
  function AwaitsCheckpoint(start: nat, end: nat): Row -> bool {
    WithRange(AGG, start, end, UNREQ)
  }

  /** Row i, and no other, satisfies p. */
  ghost predicate OnlyMatch(rows: Table, p: Row -> bool, i: nat) {
    i < |rows| && p(rows[i]) && forall j :: 0 <= j < |rows| && p(rows[j]) ==> j == i
  }

  function SetCheckpoint(rows: Table, start: nat, end: nat, checkpoint: Checkpoint): (rows': Table)
    ensures |rows'| == |rows|
    ensures forall i :: 0 <= i < |rows| ==>
      rows'[i] == if AwaitsCheckpoint(start, end)(rows[i]) then rows[i].(l1 := Some(checkpoint)) else rows[i]
  {
    seq(|rows|, i requires 0 <= i < |rows| =>
      if AwaitsCheckpoint(start, end)(rows[i]) then rows[i].(l1 := Some(checkpoint)) else rows[i])
  }

  function Inserted(ids: seq<nat>, n: nat, k: nat): (ids': seq<nat>)
    requires k <= |ids|
    ensures |ids'| == |ids| + 1
    ensures forall m :: 0 <= m < |ids'| ==> ids'[m] == if m < k then ids[m] else if m == k then n else ids[m - 1]
  {
    ids[..k] + [n] + ids[k..]
  }

  ghost predicate Below(ids: seq<nat>, n: nat) {
    forall k :: 0 <= k < |ids| ==> ids[k] < n
  }

  ghost predicate Distinct(ids: seq<nat>) {
    forall j, k :: 0 <= j < k < |ids| ==> ids[j] != ids[k]
  }

  ghost predicate Ascending(rows: Table, ids: seq<nat>)
    requires Below(ids, |rows|)
  {
    forall j, k :: 0 <= j < k < |ids| ==> rows[ids[j]].start <= rows[ids[k]].start
  }

  lemma InsertDistinct(ids: seq<nat>, n: nat, k: nat)
    requires k <= |ids| && Below(ids, n) && Distinct(ids)
    ensures Below(Inserted(ids, n, k), n + 1) && Distinct(Inserted(ids, n, k))
  {
  }

  lemma InsertAscending(rows: Table, ids: seq<nat>, n: nat, k: nat)
    requires n < |rows| && k <= |ids| && Below(ids, |rows|) && Ascending(rows, ids)
    requires forall j :: 0 <= j < k ==> rows[ids[j]].start <= rows[n].start
    requires forall j :: k <= j < |ids| ==> rows[n].start <= rows[ids[j]].start
    ensures Below(Inserted(ids, n, k), |rows|) && Ascending(rows, Inserted(ids, n, k))
  {
  }

  lemma InsertMember(ids: seq<nat>, n: nat, k: nat, i: nat)
    requires k <= |ids|
    ensures i in Inserted(ids, n, k) <==> i == n || i in ids
  {
  }

  lemma PlaceExists(rows: Table, ids: seq<nat>, i: nat) returns (k: nat)
    requires i < |rows| && Below(ids, |rows|) && Ascending(rows, ids)
    ensures k <= |ids|
    ensures forall j :: 0 <= j < k ==> rows[ids[j]].start <= rows[i].start
    ensures forall j :: k <= j < |ids| ==> rows[i].start <= rows[ids[j]].start
  {
    k := |ids|;
    while k > 0 && rows[i].start < rows[ids[k - 1]].start
      invariant k <= |ids|
      invariant forall j :: k <= j < |ids| ==> rows[i].start <= rows[ids[j]].start
    {
      k := k - 1;
    }
  }

  /** Every ordered query has an answer. */
  lemma OrderedExists(rows: Table, p: Row -> bool) returns (ids: seq<nat>)
    ensures Ordered(rows, p, ids)
  {
    hide Inserted;
    ids := [];
    for i := 0 to |rows|
      invariant Below(ids, i) && Distinct(ids) && Below(ids, |rows|) && Ascending(rows, ids)
      invariant forall j :: 0 <= j < i ==> (p(rows[j]) <==> j in ids)
    {
      if p(rows[i]) {
        var k := PlaceExists(rows, ids, i);
        InsertDistinct(ids, i, k);
        InsertAscending(rows, ids, i, k);
        forall j: nat ensures j in Inserted(ids, i, k) <==> j == i || j in ids {
          InsertMember(ids, i, k, j);
        }
        ids := Inserted(ids, i, k);
      }
    }
    forall k | 0 <= k < |ids| ensures p(rows[ids[k]]) {
      assert ids[k] in ids;
    }
  }

  class ProofDB {
    var rows: Table

    constructor ()
      ensures rows == []
    {
      rows := [];
    }

    method NewEntry(kind: Kind, start: nat, end: nat)
      modifies this
      ensures rows == old(rows) + [NewRow(kind, start, end)]
    {
      rows := rows + [NewRow(kind, start, end)];
    }

    method UpdateProofStatus(id: nat, status: Status)
      modifies this
      ensures rows == SetStatus(old(rows), id, status)
    {
      if id < |rows| {
        rows := rows[id := rows[id].(status := status)];
      }
    }

    /** Only a request that is being proved and has no proof yet can be completed. */
    method AddFulfilledProof(id: nat, proof: Proof) returns (r: Result<nat, DbError>)
      modifies this
      ensures r.Ok? <==> id < |old(rows)| && old(rows)[id].status == PROVING && old(rows)[id].proof.None?
      ensures r.Ok? ==> rows == old(rows)[id := old(rows)[id].(status := COMPLETE, proof := Some(proof))]
      ensures r.Err? ==> rows == old(rows)
      ensures r == Err(NotFound) <==> |old(rows)| <= id
      ensures r == Err(NotProving) <==> id < |old(rows)| && old(rows)[id].status != PROVING
    {
      if id >= |rows| {
        return Err(NotFound);
      }
      if rows[id].status != PROVING {
        return Err(NotProving);
      }
      if rows[id].proof.Some? {
        return Err(ProofAlreadySet);
      }
      rows := rows[id := rows[id].(status := COMPLETE, proof := Some(proof))];
      return Ok(id);
    }

    method CountWithStatus(status: Status) returns (n: nat)
      ensures n == Count(rows, WithStatus(status))
    {
      n := 0;
      for i := 0 to |rows|
        invariant n == Count(rows[..i], WithStatus(status))
      {
        assert rows[..i + 1] == rows[..i] + [rows[i]];
        CountPush(rows[..i], rows[i], WithStatus(status));
        if rows[i].status == status {
          n := n + 1;
        }
      }
      assert rows[..|rows|] == rows;
    }

    /** A query without an order. */
    method Select(p: Row -> bool) returns (ids: seq<nat>)
      ensures Listing(rows, p, ids)
    {
      ids := [];
      for i := 0 to |rows|
        invariant forall k :: 0 <= k < |ids| ==> ids[k] < i && p(rows[ids[k]])
        invariant forall j, k :: 0 <= j < k < |ids| ==> ids[j] != ids[k]
        invariant forall k :: 0 <= k < i && p(rows[k]) ==> k in ids
      {
        if p(rows[i]) {
          ids := ids + [i];
        }
      }
    }

    /** Where row i goes among ids that are in ascending order. */
    method InsertionPoint(ids: seq<nat>, i: nat) returns (k: nat)
      requires i < |rows| && Below(ids, |rows|) && Ascending(rows, ids)
      ensures k <= |ids|
      ensures forall j :: 0 <= j < k ==> rows[ids[j]].start <= rows[i].start
      ensures forall j :: k <= j < |ids| ==> rows[i].start <= rows[ids[j]].start
    {
      k := |ids|;
      while k > 0 && rows[i].start < rows[ids[k - 1]].start
        invariant k <= |ids|
        invariant forall j :: k <= j < |ids| ==> rows[i].start <= rows[ids[j]].start
      {
        k := k - 1;
      }
    }

    /** A query ordered by ascending start block. */
    method SelectOrdered(p: Row -> bool) returns (ids: seq<nat>)
      ensures Ordered(rows, p, ids)
    {
      hide Inserted;
      ids := [];
      for i := 0 to |rows|
        invariant Below(ids, i) && Distinct(ids) && Below(ids, |rows|) && Ascending(rows, ids)
        invariant forall j :: 0 <= j < i ==> (p(rows[j]) <==> j in ids)
      {
        if p(rows[i]) {
          var k := InsertionPoint(ids, i);
          InsertDistinct(ids, i, k);
          InsertAscending(rows, ids, i, k);
          forall j: nat ensures j in Inserted(ids, i, k) <==> j == i || j in ids {
            InsertMember(ids, i, k, j);
          }
          ids := Inserted(ids, i, k);
        }
      }
      forall k | 0 <= k < |ids| ensures p(rows[ids[k]]) {
        assert ids[k] in ids;
      }
    }

    /** None when the table is empty, else the highest end block of any row. */
    method GetLatestEndBlock() returns (latest: Option<nat>)
      ensures latest == if rows == [] then None else Some(Frontier(rows))
    {
      if rows == [] {
        return None;
      }
      var top := rows[0].end;
      for i := 1 to |rows|
        invariant forall j :: 0 <= j < i ==> rows[j].end <= top
        invariant exists j :: 0 <= j < i && rows[j].end == top
      {
        if top < rows[i].end {
          top := rows[i].end;
        }
      }
      FrontierIs(rows, top);
      return Some(top);
    }

    /** The waiting AGG request with the lowest start block; without one, the lowest waiting SPAN request. */
    method GetNextUnrequestedProof() returns (next: Option<nat>)
      ensures next.Some? ==> NextUnrequested(rows, next.value)
      ensures next.None? ==> forall i :: 0 <= i < |rows| ==> rows[i].status != UNREQ
    {
      var aggs := SelectOrdered((r: Row) => r.status == UNREQ && r.kind == AGG);
      if aggs != [] {
        return Some(aggs[0]);
      }
      var spans := SelectOrdered((r: Row) => r.status == UNREQ && r.kind == SPAN);
      if spans != [] {
        return Some(spans[0]);
      }
      return None;
    }

    /** Records a checkpoint on the waiting request of a range, which must be the only one. */
    method AddL1BlockInfoToAggRequest(start: nat, end: nat, checkpoint: Checkpoint) returns (r: Result<nat, DbError>)
      modifies this
      ensures rows == SetCheckpoint(old(rows), start, end, checkpoint)
      ensures r.Ok? ==> r.value < |rows| && AwaitsCheckpoint(start, end)(old(rows)[r.value])
      ensures r.Ok? <==> exists i :: OnlyMatch(old(rows), AwaitsCheckpoint(start, end), i)
      ensures r == Err(NotFound) <==> forall i :: 0 <= i < |old(rows)| ==> !AwaitsCheckpoint(start, end)(old(rows)[i])
    {
      rows := SetCheckpoint(rows, start, end, checkpoint);
      var ids := Select(AwaitsCheckpoint(start, end));
      assert forall i :: 0 <= i < |rows| ==>
        (AwaitsCheckpoint(start, end)(rows[i]) <==> AwaitsCheckpoint(start, end)(old(rows)[i]));
      if |ids| == 0 {
        return Err(NotFound);
      }
      if |ids| > 1 {
        assert ids[0] != ids[1];
        return Err(NotSingular);
      }
      assert OnlyMatch(old(rows), AwaitsCheckpoint(start, end), ids[0]);
      return Ok(ids[0]);
    }

    /** Follows completed spans in ascending order for as long as each begins where the last one ended. */
    method GetMaxContiguousSpanProofRange(start: nat) returns (end: nat)
      ensures MaxContiguous(rows, start, end)
    {
      var ids := SelectOrdered(DoneFrom(start));
      end := start;
      var k := 0;
      while k < |ids|
        invariant k <= |ids|
        invariant ContiguousEnd(rows, ids, start) == ContiguousEnd(rows, ids[k..], end)
      {
        assert ids[k..][1..] == ids[k + 1..];
        if rows[ids[k]].start != end {
          break;
        }
        end := rows[ids[k]].end;
        k := k + 1;
      }
    }

    /** The proofs of the completed spans of [start, end], or the gap that keeps them from covering it. */
    method GetConsecutiveSpanProofs(start: nat, end: nat) returns (r: Result<seq<Option<Proof>>, ScanError>)
      ensures exists ids :: Ordered(rows, DoneWithin(start, end), ids) && r == ConsecutiveProofs(rows, ids, start, end)
                            && Aggregates.ScanMeans(rows, ids, start, end, r)
    {
      hide Aggregates.ScanMeans, Aggregates.DoneChain;
      var spans := SelectOrdered(DoneWithin(start, end));
      Aggregates.ConsecutiveMeaning(rows, spans, start, end);
      var result: seq<Option<Proof>> := [];
      var block := start;
      var k := 0;
      assert spans[0..] == spans;
      assert forall more: seq<Option<Proof>> :: result + more == more;
      while k < |spans|
        invariant k <= |spans|
        invariant Prepend(result, ConsecutiveProofs(rows, spans[k..], block, end))
               == ConsecutiveProofs(rows, spans, start, end)
      {
        assert spans[k..][1..] == spans[k + 1..];
        if rows[spans[k]].start != block {
          return Err(Gap(block, rows[spans[k]].start));
        }
        ghost var rest := ConsecutiveProofs(rows, spans[k + 1..], rows[spans[k]].end, end);
        assert rest.Ok? ==>
          result + ([rows[spans[k]].proof] + rest.value) == (result + [rows[spans[k]].proof]) + rest.value;
        result := result + [rows[spans[k]].proof];
        block := rows[spans[k]].end;
        k := k + 1;
      }
      if block != end {
        return Err(Incomplete(block, end));
      }
      assert result + [] == result;
      return Ok(result);
    }

    /** Queues an aggregate from `from` when none is in flight there and completed spans reach minTo. */
    method TryCreateAggProofFromSpanProofs(from: nat, minTo: nat) returns (created: bool, end: nat)
      modifies this
      ensures created ==> !AggInFlight(old(rows), from) && MaxContiguous(old(rows), from, end) && minTo <= end
      ensures created ==> rows == old(rows) + [NewRow(AGG, from, end)]
      ensures !created ==> rows == old(rows)
      ensures !created ==> AggInFlight(rows, from) || exists e: nat :: MaxContiguous(rows, from, e) && e < minTo
    {
      var inFlight := Select((r: Row) => r.kind == AGG && r.start == from && r.status != FAILED);
      if |inFlight| > 0 {
        assert rows[inFlight[0]].kind == AGG;
        return false, 0;
      }
      var maxEnd := GetMaxContiguousSpanProofRange(from);
      if maxEnd < minTo {
        return false, 0;
      }
      forall i | 0 <= i < |rows| ensures !(rows[i].kind == AGG && rows[i].start == from && rows[i].status != FAILED) {
        assert i !in inFlight;
      }
      NewEntry(AGG, from, maxEnd);
      return true, maxEnd;
    }
  }

  ghost function Prepend<T>(done: seq<T>, rest: Result<seq<T>, ScanError>): Result<seq<T>, ScanError> {
    match rest
    case Ok(more) => Ok(done + more)
    case Err(e) => Err(e)
  }
}

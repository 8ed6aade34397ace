/** L1 headers and their hashes. A hash is modelled symbolically, so hashing is injective. */
module L1 {
  datatype Hash = Digest(preimage: Header) | Opaque(tag: nat)

  datatype Header = Header(number: nat, parent: Hash, body: nat)

  function HashOf(h: Header): Hash {
    Digest(h)
  }
}

/** The `proof_requests` table: its rows, the filters its queries use, and the two sorted scans. */
module Requests {
  import opened Prelude
  import L1

  datatype Kind = SPAN | AGG

  datatype Status = UNREQ | WITNESSGEN | PROVING | FAILED | COMPLETE

  newtype Byte = x: int | 0 <= x < 256

  type Proof = seq<Byte>

  /** The L1 block whose hash has been checkpointed on chain for an AGG request. */
  datatype Checkpoint = Checkpoint(number: nat, hash: L1.Hash)

  /** One request for the blocks [start, end). */
  datatype Row = Row(
    kind: Kind, start: nat, end: nat, status: Status,
    proof: Option<Proof>, l1: Option<Checkpoint>)

  /** The whole table. A row's primary key is its position: rows are only ever appended. */
  type Table = seq<Row>

  function NewRow(kind: Kind, start: nat, end: nat): Row {
    Row(kind, start, end, UNREQ, None, None)
  }

  /** A SPAN request that has not been given up. */
  predicate Live(r: Row) {
    r.kind == SPAN && r.status != FAILED
  }

  predicate Done(r: Row) {
    r.kind == SPAN && r.status == COMPLETE
  }

  predicate Apart(a: Row, b: Row) {
    a.end <= b.start || b.end <= a.start
  }

  predicate Inside(a: Row, b: Row) {
    b.start <= a.start && a.end <= b.end
  }

  // The `Where` clauses of the queries.

  function WithStatus(status: Status): Row -> bool {
    (r: Row) => r.status == status
  }

  function WithRange(kind: Kind, start: nat, end: nat, status: Status): Row -> bool {
    (r: Row) => r.kind == kind && r.start == start && r.end == end && r.status == status
  }

  function DoneFrom(start: nat): Row -> bool {
    (r: Row) => Done(r) && start <= r.start
  }

  function DoneWithin(start: nat, end: nat): Row -> bool {
    (r: Row) => Done(r) && start <= r.start && r.end <= end
  }

  function CompletedAgg(start: nat): Row -> bool {
    (r: Row) => r.kind == AGG && r.start == start && r.status == COMPLETE
  }

  /** The answer of a query without an order: each matching row once, in any order. */
  ghost predicate Listing(rows: Table, p: Row -> bool, ids: seq<nat>) {
    && (forall k :: 0 <= k < |ids| ==> ids[k] < |rows| && p(rows[ids[k]]))
    && (forall j, k :: 0 <= j < k < |ids| ==> ids[j] != ids[k])
    && (forall i :: 0 <= i < |rows| && p(rows[i]) ==> i in ids)
  }

  /** The answer of a query ordered by start block; the order among equal start blocks is left open. */
  ghost predicate Ordered(rows: Table, p: Row -> bool, ids: seq<nat>) {
    && Listing(rows, p, ids)
    && (forall j, k :: 0 <= j < k < |ids| ==> rows[ids[j]].start <= rows[ids[k]].start)
  }

  ghost predicate Ids(rows: Table, ids: seq<nat>) {
    forall k :: 0 <= k < |ids| ==> ids[k] < |rows|
  }

  /** Where the scan of `GetMaxContiguousSpanProofRange` stops, reading `ids` from `block`. */
  ghost function ContiguousEnd(rows: Table, ids: seq<nat>, block: nat): nat
    requires Ids(rows, ids)
  {
    if ids == [] || rows[ids[0]].start != block then block
    else ContiguousEnd(rows, ids[1..], rows[ids[0]].end)
  }

  datatype ScanError = Gap(expected: nat, got: nat) | Incomplete(at: nat, expected: nat)

  /** What the scan of `GetConsecutiveSpanProofs` returns, reading `ids` from `block`. */
  ghost function ConsecutiveProofs(rows: Table, ids: seq<nat>, block: nat, end: nat)
    : Result<seq<Option<Proof>>, ScanError>
    requires Ids(rows, ids)
  {
    if ids == [] then
      if block == end then Ok([]) else Err(Incomplete(block, end))
    else if rows[ids[0]].start != block then
      Err(Gap(block, rows[ids[0]].start))
    else
      match ConsecutiveProofs(rows, ids[1..], rows[ids[0]].end, end)
      case Err(e) => Err(e)
      case Ok(rest) => Ok([rows[ids[0]].proof] + rest)
  }

  /** The highest end block of any row, whatever its kind and status. */
  function Frontier(rows: Table): (f: nat)
    ensures forall i :: 0 <= i < |rows| ==> rows[i].end <= f
    ensures rows != [] ==> exists i :: 0 <= i < |rows| && rows[i].end == f
  {
    if rows == [] then 0
    else
      var init, last := rows[..|rows| - 1], rows[|rows| - 1].end;
      var f := Frontier(init);
      assert forall i :: 0 <= i < |init| ==> init[i] == rows[i];
      if f < last then last else f
  }

  lemma FrontierIs(rows: Table, f: nat)
    requires rows != []
    requires forall i :: 0 <= i < |rows| ==> rows[i].end <= f
    requires exists i :: 0 <= i < |rows| && rows[i].end == f
    ensures Frontier(rows) == f
  {
  }

  /** The first block ever covered: the start of the row inserted first. */
  function Base(rows: Table): nat
    requires rows != []
  {
    rows[0].start
  }
}

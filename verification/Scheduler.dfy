/** `SplitRangeBasic` of the Go proposer as a function. */
module Spans {
  datatype Span = Span(start: nat, end: nat)

  /** Consecutive spans of exactly `size` blocks, as many as fit in [start, end). */
  function FullSpans(start: nat, end: nat, size: nat): seq<Span>
    requires size > 0
    decreases if start < end then end - start else 0
  {
    if start + size <= end then [Span(start, start + size)] + FullSpans(start + size, end, size) else []
  }

  /** Where the last of those spans ends. */
  function FullSpansEnd(start: nat, end: nat, size: nat): (last: nat)
    requires size > 0
    ensures start <= last
    ensures start <= end ==> last <= end
    ensures end < last + size
    decreases if start < end then end - start else 0
  {
    if start + size <= end then FullSpansEnd(start + size, end, size) else start
  }

  /** Cutting at a later block continues the cut made at an earlier one. */
  lemma {:induction false} FullSpansResume(start: nat, mid: nat, end: nat, size: nat)
    requires size > 0 && mid <= end
    ensures FullSpans(start, mid, size) + FullSpans(FullSpansEnd(start, mid, size), end, size)
         == FullSpans(start, end, size)
    ensures FullSpansEnd(FullSpansEnd(start, mid, size), end, size) == FullSpansEnd(start, end, size)
    decreases if start < mid then mid - start else 0
  {
    if start + size <= mid {
      FullSpansResume(start + size, mid, end, size);
      var rest := FullSpans(FullSpansEnd(start, mid, size), end, size);
      assert [Span(start, start + size)] + FullSpans(start + size, mid, size) + rest
          == [Span(start, start + size)] + (FullSpans(start + size, mid, size) + rest);
    }
  }
}

/**
 The proof-request scheduler as a transition system over the table. Each step is one atomic
 outcome of a stage of the proposer's loop or of a request goroutine; everything the outside
 world decides (finalized head, contract height, prover verdicts, time-outs) is a step input.
 */
module Scheduler {
  import opened Prelude
  import opened Tallies
  import opened Requests
  import opened Spans

  datatype RawConfig = Config(maxRange: nat, maxWitnessGen: nat, maxRequests: nat)

  type Config = c: RawConfig | c.maxRange > 0 witness Config(1, 0, 0)

  datatype Step =
    | AddRanges(latest: nat, head: nat)
    | Fulfil(id: nat, proof: Proof)
    | Retry(id: nat, unexecutable: bool)
    | StartProving(id: nat)
    | DeriveAgg(latest: nat, minTo: nat, end: nat)
    | Dispatch(id: nat, checkpoint: Checkpoint)

  function SpanRows(spans: seq<Span>): (rows: Table)
    ensures |rows| == |spans|
    ensures forall k :: 0 <= k < |spans| ==> rows[k] == NewRow(SPAN, spans[k].start, spans[k].end)
  {
    seq(|spans|, k requires 0 <= k < |spans| => NewRow(SPAN, spans[k].start, spans[k].end))
  }

  /** Where new ranges begin: after everything in the table, or at the contract's height. */
  function NextStart(rows: Table, latest: nat): nat {
    if rows == [] then latest else Frontier(rows)
  }

  ghost predicate AggInFlight(rows: Table, start: nat) {
    exists i :: 0 <= i < |rows| && rows[i].kind == AGG && rows[i].start == start && rows[i].status != FAILED
  }

  /** `end` is an answer of `GetMaxContiguousSpanProofRange(start)`. */
  ghost predicate MaxContiguous(rows: Table, start: nat, end: nat) {
    exists ids :: Ordered(rows, DoneFrom(start), ids) && ContiguousEnd(rows, ids, start) == end
  }

  /** Row `id` is an answer of `GetNextUnrequestedProof`: lowest AGG first, else lowest SPAN. */
  ghost predicate NextUnrequested(rows: Table, id: nat) {
    && id < |rows| && rows[id].status == UNREQ
    && (forall j :: 0 <= j < |rows| && rows[j].status == UNREQ && rows[j].kind == rows[id].kind
                    ==> rows[id].start <= rows[j].start)
    && (rows[id].kind == SPAN ==> forall j :: 0 <= j < |rows| && rows[j].status == UNREQ ==> rows[j].kind == SPAN)
  }

  /** The concurrency caps, which count requests of both kinds. */
  ghost predicate UnderCaps(cfg: Config, rows: Table) {
    && Count(rows, WithStatus(WITNESSGEN)) < cfg.maxWitnessGen
    && Count(rows, WithStatus(WITNESSGEN)) + Count(rows, WithStatus(PROVING)) < cfg.maxRequests
  }

  /** Rows whose checkpoint the request (start, end) may take over: failed ones that have one. */
  predicate HoldsCheckpoint(r: Row, start: nat, end: nat) {
    r.kind == AGG && r.start == start && r.end == end && r.status == FAILED && r.l1.Some?
  }

  ghost predicate CheckpointChoice(rows: Table, id: nat, checkpoint: Checkpoint)
    requires id < |rows|
  {
    (exists j :: 0 <= j < |rows| && HoldsCheckpoint(rows[j], rows[id].start, rows[id].end))
    ==> exists j :: 0 <= j < |rows| && HoldsCheckpoint(rows[j], rows[id].start, rows[id].end)
                    && rows[j].l1 == Some(checkpoint)
  }

  /** `RetryRequest`: fail the row, then ask again for the same range or for its two halves. */
  ghost function RetryRows(rows: Table, id: nat, unexecutable: bool): Table
    requires id < |rows|
  {
    var r := rows[id];
    var failed := rows[id := r.(status := FAILED)];
    var several := Count(failed, WithRange(r.kind, r.start, r.end, FAILED)) > 1;
    if r.kind == SPAN && (unexecutable || several) && r.end - r.start > 1 then
      var mid := (r.start + r.end) / 2;
      failed + [NewRow(r.kind, r.start, mid), NewRow(r.kind, mid, r.end)]
    else
      failed + [NewRow(r.kind, r.start, r.end)]
  }

  /** The row a dispatch leaves behind. */
  function Dispatched(r: Row, checkpoint: Checkpoint): Row {
    if r.kind == AGG && r.l1.None? then r.(status := WITNESSGEN, l1 := Some(checkpoint))
    else r.(status := WITNESSGEN)
  }

  ghost predicate Enabled(cfg: Config, rows: Table, step: Step) {
    match step
    case AddRanges(_, _) => true
    case Fulfil(id, _) => id < |rows| && rows[id].status == PROVING && rows[id].proof.None?
    case Retry(id, _) => id < |rows| && rows[id].status in {WITNESSGEN, PROVING}
    case StartProving(id) => id < |rows| && rows[id].status == WITNESSGEN
    case DeriveAgg(latest, minTo, end) => latest < minTo && MaxContiguous(rows, latest, end)
    case Dispatch(id, checkpoint) =>
      && NextUnrequested(rows, id)
      && (rows[id].kind == SPAN ==> UnderCaps(cfg, rows))
      && (rows[id].kind == AGG && rows[id].l1.None? ==> CheckpointChoice(rows, id, checkpoint))
  }

  ghost function Apply(cfg: Config, rows: Table, step: Step): Table
    requires Enabled(cfg, rows, step)
  {
    match step
    case AddRanges(latest, head) =>
      rows + SpanRows(FullSpans(NextStart(rows, latest), head, cfg.maxRange))
    case Fulfil(id, proof) => rows[id := rows[id].(status := COMPLETE, proof := Some(proof))]
    case Retry(id, unexecutable) => RetryRows(rows, id, unexecutable)
    case StartProving(id) => rows[id := rows[id].(status := PROVING)]
    case DeriveAgg(latest, minTo, end) =>
      if AggInFlight(rows, latest) || end < minTo then rows else rows + [NewRow(AGG, latest, end)]
    case Dispatch(id, checkpoint) => rows[id := Dispatched(rows[id], checkpoint)]
  }

  /** `steps` lead from one table to another. */
  ghost predicate Runs(cfg: Config, from: Table, steps: seq<Step>, to: Table)
    decreases |steps|
  {
    if steps == [] then from == to
    else Enabled(cfg, from, steps[0]) && Runs(cfg, Apply(cfg, from, steps[0]), steps[1..], to)
  }

  ghost predicate Reachable(cfg: Config, rows: Table) {
    exists steps :: Runs(cfg, [], steps, rows)
  }

  lemma {:induction false} RunsConcat(cfg: Config, a: Table, s: seq<Step>, b: Table, t: seq<Step>, c: Table)
    requires Runs(cfg, a, s, b) && Runs(cfg, b, t, c)
    ensures Runs(cfg, a, s + t, c)
    decreases |s|
  {
    hide Apply, Enabled;
    if s == [] {
      assert s + t == t;
    } else {
      RunsConcat(cfg, Apply(cfg, a, s[0]), s[1..], b, t, c);
      assert (s + t)[1..] == s[1..] + t;
    }
  }

  lemma RunsOne(cfg: Config, a: Table, step: Step)
    requires Enabled(cfg, a, step)
    ensures Runs(cfg, a, [step], Apply(cfg, a, step))
  {
    assert [step][1..] == [];
  }
}

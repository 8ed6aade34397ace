/**
 The stages of the proposer's loop, each proved to be a run of the scheduler's steps. What the
 stages ask the outside world is passed in as arguments.
 */
module Proposer {
  import opened Prelude
  import opened Tallies
  import opened Requests
  import opened Spans
  import opened Scheduler
  import opened Partition
  import opened Aggregates
  import opened Invariant
  import opened Contract
  import opened ProofDb

  /** The prover network's answer about one request. */
  datatype Verdict = NoAnswer | Pending | Fulfilled(proof: Proof) | Unfulfillable(unexecutable: bool)

  /** The witness server's answer to one request. */
  datatype Reply = Refused | Accepted | MockProof(proof: Proof)

  datatype DispatchResult = Idle | Capped | NoCheckpoint | Sent(id: nat)

  datatype RequestBody =
    | SpanRequest(start: nat, end: nat)
    | AggRequest(subproofs: seq<Option<Proof>>, l1Head: Option<Checkpoint>)

  datatype PrepareError = EmptyRange | BadChain(error: ScanError)

  /** What stage 2 makes of a row that was being proved. */
  ghost predicate Settled(verdict: Verdict, r: Row, r': Row) {
    match verdict
    case Fulfilled(proof) => r' == r.(status := COMPLETE, proof := Some(proof))
    case Unfulfillable(_) => r' == r.(status := FAILED)
    case _ => r' == r
  }

  /**
   Stage 2 from table a to table b: rows that were not being proved stay, the others are settled by
   their verdicts. It stops early only at a request whose query got no answer, and may then leave
   others as they were.
   */
  ghost predicate ProvingStage(
      cfg: Config, a: Table, steps: seq<Step>, b: Table, verdict: nat -> Verdict, ok: bool)
  {
    && Runs(cfg, a, steps, b) && (forall e :: e in steps ==> FollowsVerdict(e, verdict))
    && |a| <= |b|
    && (forall i :: 0 <= i < |a| && a[i].status != PROVING ==> b[i] == a[i])
    && (forall i :: 0 <= i < |a| && a[i].status == PROVING ==>
          Settled(verdict(i), a[i], b[i]) || (!ok && b[i] == a[i]))
    && (ok <==> forall i :: 0 <= i < |a| && a[i].status == PROVING ==> verdict(i) != NoAnswer)
  }

  /** The step completes the request with the proof of its verdict, or retries it for the reason of its verdict. */
  predicate FollowsVerdict(e: Step, verdict: nat -> Verdict) {
    match e
    case Fulfil(id, proof) => verdict(id) == Fulfilled(proof)
    case Retry(id, unexecutable) => verdict(id) == Unfulfillable(unexecutable)
    case _ => false
  }

  /** Stage 3: exactly the rows in witness generation that are chosen fail, and are retried as executable. */
  ghost predicate WitnessStage(cfg: Config, a: Table, steps: seq<Step>, b: Table, chosen: nat -> bool) {
    && Runs(cfg, a, steps, b) && (forall e :: e in steps ==> RetriesChosen(e, chosen))
    && |a| <= |b|
    && forall i :: 0 <= i < |a| ==>
         b[i] == if a[i].status == WITNESSGEN && chosen(i) then a[i].(status := FAILED) else a[i]
  }

  predicate RetriesChosen(e: Step, chosen: nat -> bool) {
    e.Retry? && !e.unexecutable && chosen(e.id)
  }

  /** Stage 4: the aggregate up to the contiguous end is queued, or the reason why not holds. */
  ghost predicate DeriveStage(a: Table, b: Table, latest: nat, minTo: nat) {
    if b == a then AggInFlight(a, latest) || exists end: nat :: MaxContiguous(a, latest, end) && end < minTo
    else
      && !AggInFlight(a, latest)
      && exists end: nat :: minTo <= end && MaxContiguous(a, latest, end) && b == a + [NewRow(AGG, latest, end)]
  }

  /**
   Stage 5: nothing waits; or only spans wait and a cap is reached; or no checkpoint can be had; or the
   next row is dispatched, an AGG row with a checkpoint from a failed request of its range if one has
   it, and else from the contract.
   */
  ghost predicate DispatchStage(cfg: Config, a: Table, b: Table, head: Option<Checkpoint>, r: DispatchResult) {
    match r
    case Idle => b == a && forall i :: 0 <= i < |a| ==> a[i].status != UNREQ
    case Capped =>
      b == a && !UnderCaps(cfg, a) && exists id: nat :: NextUnrequested(a, id) && a[id].kind == SPAN
    case NoCheckpoint =>
      b == a && head.None? && exists id: nat :: NextUnrequested(a, id) && NeedsCheckpoint(a, id) && !Inherits(a, id)
    case Sent(id) =>
      && NextUnrequested(a, id)
      && (a[id].kind == SPAN ==> UnderCaps(cfg, a))
      && |b| == |a| && b == a[id := a[id].(status := WITNESSGEN, l1 := b[id].l1)]
      && (if !NeedsCheckpoint(a, id) then b[id].l1 == a[id].l1
          else if !Inherits(a, id) then head.Some? && b[id].l1 == head
          else exists j :: 0 <= j < |a| && HoldsCheckpoint(a[j], a[id].start, a[id].end) && b[id].l1 == a[j].l1)
  }

  /** Both counts of requests leave room for one more. */
  ghost predicate Room(cfg: Config, rows: Table) {
    && Count(rows, WithStatus(WITNESSGEN)) < cfg.maxWitnessGen
    && Count(rows, (r: Row) => r.status == WITNESSGEN || r.status == PROVING) < cfg.maxRequests
  }

  /**
   Stage 5 never idles needlessly: a waiting aggregate is dispatched whatever the counts, provided the
   contract records a checkpoint, and without one a waiting span is dispatched exactly when there is room.
   */
  lemma DispatchHappens(cfg: Config, a: Table, b: Table, head: Option<Checkpoint>, r: DispatchResult, i: nat)
    requires DispatchStage(cfg, a, b, head, r) && i < |a| && a[i].status == UNREQ
    ensures a[i].kind == AGG && head.Some? ==> r.Sent? && a[r.id].kind == AGG && a[r.id].start <= a[i].start
    ensures (forall j :: 0 <= j < |a| && a[j].status == UNREQ ==> a[j].kind == SPAN) ==>
      (r.Sent? <==> Room(cfg, a)) && (r.Sent? ==> a[r.id].kind == SPAN && a[r.id].start <= a[i].start)
  {
    hide Count;
    BusyApart(a);
  }

  ghost predicate NeedsCheckpoint(rows: Table, id: nat)
    requires id < |rows|
  {
    rows[id].kind == AGG && rows[id].l1.None?
  }

  ghost predicate Inherits(rows: Table, id: nat)
    requires id < |rows|
  {
    exists j :: 0 <= j < |rows| && HoldsCheckpoint(rows[j], rows[id].start, rows[id].end)
  }

  /** How an iteration of the loop ends. */
  datatype TickEnd = Unanswered | Uncheckpointed | Finished(choice: Option<nat>)

  /** The tables after stages 1 to 5, and the steps of stages 2 and 3. */
  datatype Stages = Stages(
    added: Table, proving: seq<Step>, proved: Table, retrying: seq<Step>, witnessed: Table,
    derived: Table, dispatched: Table)

  /** One iteration: the stages one after the other, ended early only by an unanswered query or a missing checkpoint. */
  ghost predicate Iteration(
      cfg: Config, rows: Table, t: Stages, rows': Table, latest: nat, minTo: nat, finalized: nat,
      verdict: nat -> Verdict, expired: nat -> bool, head: Option<Checkpoint>, end: TickEnd)
  {
    && t.added == Apply(cfg, rows, AddRanges(latest, finalized))
    && ProvingStage(cfg, t.added, t.proving, t.proved, verdict, end != Unanswered)
    && (end == Unanswered ==> rows' == t.proved)
    && (end != Unanswered ==>
          && WitnessStage(cfg, t.proved, t.retrying, t.witnessed, expired)
          && DeriveStage(t.witnessed, t.derived, latest, minTo)
          && (exists r :: DispatchStage(cfg, t.derived, t.dispatched, head, r)
                          && (end == Uncheckpointed <==> r == NoCheckpoint))
          && rows' == t.dispatched)
    && (end.Finished? ==> SubmitAnswer(rows', latest, end.choice))
  }

  /** Stage 6: the completed aggregate from the contract's height with the highest end, if there is one. */
  ghost predicate SubmitAnswer(rows: Table, latest: nat, choice: Option<nat>) {
    match choice
    case Some(id) => SubmitChoice(rows, latest, id)
    case None => forall i :: 0 <= i < |rows| ==> !CompletedAgg(latest)(rows[i])
  }

  /** `ids` are the completed spans that make up the range of AGG row `id`, in order. */
  ghost predicate SubproofIds(rows: Table, id: nat, ids: seq<nat>)
    requires id < |rows|
  {
    && Ids(rows, ids)
    && Ordered(rows, DoneWithin(rows[id].start, rows[id].end), ids)
    && DoneChain(rows, ids, rows[id].start, rows[id].end)
  }

  lemma RunsMore(cfg: Config, a: Table, steps: seq<Step>, b: Table, step: Step)
    requires Runs(cfg, a, steps, b) && Enabled(cfg, b, step)
    ensures Runs(cfg, a, steps + [step], Apply(cfg, b, step))
  {
    RunsOne(cfg, b, step);
    RunsConcat(cfg, a, steps, b, [step], Apply(cfg, b, step));
  }

  class OutputSubmitter {
    const db: ProofDB
    const cfg: Config

    constructor (db: ProofDB, cfg: Config)
      ensures this.db == db && this.cfg == cfg
    {
      this.db := db;
      this.cfg := cfg;
    }

    /** As many full spans as fit between start and end. */
    method SplitRangeBasic(start: nat, end: nat) returns (spans: seq<Span>)
      ensures spans == FullSpans(start, end, cfg.maxRange)
    {
      spans := [];
      var i := start;
      while i + cfg.maxRange <= end
        invariant spans + FullSpans(i, end, cfg.maxRange) == FullSpans(start, end, cfg.maxRange)
      {
        spans := spans + [Span(i, i + cfg.maxRange)];
        i := i + cfg.maxRange;
      }
    }

    /** Stage 1. */
    method GetRangeProofBoundaries(latest: nat, head: nat)
      modifies db
      ensures db.rows == Apply(cfg, old(db.rows), AddRanges(latest, head))
    {
      var known := db.GetLatestEndBlock();
      var start := if known.Some? then known.value else latest;
      var spans := SplitRangeBasic(start, head);
      assert db.rows == old(db.rows) + SpanRows(spans[..0]);
      for i := 0 to |spans|
        invariant db.rows == old(db.rows) + SpanRows(spans[..i])
      {
        db.NewEntry(SPAN, spans[i].start, spans[i].end);
        assert SpanRows(spans[..i + 1]) == SpanRows(spans[..i]) + [NewRow(SPAN, spans[i].start, spans[i].end)];
      }
      assert spans[..|spans|] == spans;
    }

    /** Fails a row and asks again for its range, or for its halves. */
    method RetryRequest(id: nat, unexecutable: bool)
      requires id < |db.rows|
      modifies db
      ensures db.rows == RetryRows(old(db.rows), id, unexecutable)
    {
      var req := db.rows[id];
      db.UpdateProofStatus(id, FAILED);
      var failed := db.Select(WithRange(req.kind, req.start, req.end, FAILED));
      ListingCount(db.rows, WithRange(req.kind, req.start, req.end, FAILED), failed);
      var several := |failed| > 1;
      if req.kind == SPAN && (unexecutable || several) && req.end - req.start > 1 {
        var mid := (req.start + req.end) / 2;
        db.NewEntry(req.kind, req.start, mid);
        db.NewEntry(req.kind, mid, req.end);
      } else {
        db.NewEntry(req.kind, req.start, req.end);
      }
    }

    /** Stage 2: each request being proved is settled by its verdict; an unanswered query stops the stage. */
    method ProcessProvingRequests(verdict: nat -> Verdict) returns (ok: bool, ghost steps: seq<Step>)
      requires Inv(cfg, db.rows)
      modifies db
      ensures Inv(cfg, db.rows) && ProvingStage(cfg, old(db.rows), steps, db.rows, verdict, ok)
    {
      hide Inv, Runs, Enabled, Apply, RetryRows;
      var ids := db.Select(WithStatus(PROVING));
      ghost var before := db.rows;
      steps := [];
      RunsNothing(cfg, before);
      for k := 0 to |ids|
        invariant Inv(cfg, db.rows) && Runs(cfg, before, steps, db.rows) && |before| <= |db.rows|
        invariant forall i :: 0 <= i < |before| && before[i].status != PROVING ==> db.rows[i] == before[i]
        invariant forall j :: k <= j < |ids| ==> db.rows[ids[j]] == before[ids[j]]
        invariant forall j :: 0 <= j < k ==>
          verdict(ids[j]) != NoAnswer && Settled(verdict(ids[j]), before[ids[j]], db.rows[ids[j]])
        invariant forall e :: e in steps ==> FollowsVerdict(e, verdict)
      {
        var id := ids[k];
        match verdict(id) {
          case NoAnswer =>
            assert WithStatus(PROVING)(before[id]);
            return false, steps;
          case Pending =>
          case Fulfilled(proof) =>
            steps := Complete(id, proof, before, steps);
          case Unfulfillable(unexecutable) =>
            steps := Fail(id, unexecutable, before, steps);
        }
      }
      return true, steps;
    }

    /** One fulfilled request, as a step. */
    method Complete(id: nat, proof: Proof, ghost before: Table, ghost done: seq<Step>) returns (ghost steps: seq<Step>)
      requires Inv(cfg, db.rows) && Runs(cfg, before, done, db.rows)
      requires id < |db.rows| && db.rows[id].status == PROVING
      modifies db
      ensures Inv(cfg, db.rows) && Runs(cfg, before, steps, db.rows)
      ensures db.rows == old(db.rows)[id := old(db.rows)[id].(status := COMPLETE, proof := Some(proof))]
      ensures steps == done + [Fulfil(id, proof)]
    {
      hide Runs, SpanInv, AggInv, FailInv, CapInv;
      ProofUnset(cfg, db.rows, id);
      StepKeeps(cfg, db.rows, Fulfil(id, proof));
      RunsMore(cfg, before, done, db.rows, Fulfil(id, proof));
      var r := db.AddFulfilledProof(id, proof);
      steps := done + [Fulfil(id, proof)];
    }

    /** One failed request, as a step. */
    method Fail(id: nat, unexecutable: bool, ghost before: Table, ghost done: seq<Step>)
      returns (ghost steps: seq<Step>)
      requires Inv(cfg, db.rows) && Runs(cfg, before, done, db.rows)
      requires id < |db.rows| && db.rows[id].status in {WITNESSGEN, PROVING}
      modifies db
      ensures Inv(cfg, db.rows) && Runs(cfg, before, steps, db.rows)
      ensures |old(db.rows)| < |db.rows|
      ensures db.rows[..|old(db.rows)|] == old(db.rows)[id := old(db.rows)[id].(status := FAILED)]
      ensures db.rows == RetryRows(old(db.rows), id, unexecutable)
      ensures steps == done + [Retry(id, unexecutable)]
    {
      hide Runs, Inv;
      StepKeeps(cfg, db.rows, Retry(id, unexecutable));
      RunsMore(cfg, before, done, db.rows, Retry(id, unexecutable));
      RetryRequest(id, unexecutable);
      steps := done + [Retry(id, unexecutable)];
    }

    /** Retries the requests in witness generation that `chosen` picks: those that timed out, or all on a restart. */
    method RetryWitnessgen(chosen: nat -> bool) returns (ghost steps: seq<Step>)
      requires Inv(cfg, db.rows)
      modifies db
      ensures Inv(cfg, db.rows) && WitnessStage(cfg, old(db.rows), steps, db.rows, chosen)
    {
      hide Inv, Runs, Enabled, Apply, RetryRows;
      var ids := db.Select(WithStatus(WITNESSGEN));
      ghost var before := db.rows;
      steps := [];
      RunsNothing(cfg, before);
      for k := 0 to |ids|
        invariant Inv(cfg, db.rows) && Runs(cfg, before, steps, db.rows) && |before| <= |db.rows|
        invariant forall i :: 0 <= i < |before| && before[i].status != WITNESSGEN ==> db.rows[i] == before[i]
        invariant forall j :: k <= j < |ids| ==> db.rows[ids[j]] == before[ids[j]]
        invariant forall j :: 0 <= j < k ==>
          db.rows[ids[j]] == if chosen(ids[j]) then before[ids[j]].(status := FAILED) else before[ids[j]]
        invariant forall e :: e in steps ==> RetriesChosen(e, chosen)
      {
        if chosen(ids[k]) {
          steps := Fail(ids[k], false, before, steps);
        }
      }
    }

    /** Stage 3: requests whose last update is older than the time-out. */
    method ProcessWitnessgenRequests(expired: nat -> bool) returns (ghost steps: seq<Step>)
      requires Inv(cfg, db.rows)
      modifies db
      ensures Inv(cfg, db.rows) && WitnessStage(cfg, old(db.rows), steps, db.rows, expired)
    {
      steps := RetryWitnessgen(expired);
    }

    /** Restart on a kept database: nothing is left in witness generation. */
    method Restart() returns (ghost steps: seq<Step>)
      requires Inv(cfg, db.rows)
      modifies db
      ensures Inv(cfg, db.rows) && WitnessStage(cfg, old(db.rows), steps, db.rows, i => true)
    {
      steps := RetryWitnessgen(i => true);
    }

    /** Stage 4. */
    method DeriveAggProofs(latest: nat, minTo: nat) returns (ghost steps: seq<Step>)
      requires Inv(cfg, db.rows) && latest < minTo
      modifies db
      ensures Inv(cfg, db.rows) && Runs(cfg, old(db.rows), steps, db.rows)
      ensures DeriveStage(old(db.rows), db.rows, latest, minTo)
      ensures forall e :: e in steps ==> e.DeriveAgg? && e.latest == latest && e.minTo == minTo
    {
      hide Inv, Runs, MaxContiguous, AggInFlight;
      ghost var before := db.rows;
      RunsNothing(cfg, before);
      var created, end := db.TryCreateAggProofFromSpanProofs(latest, minTo);
      steps := [];
      if created {
        var step := DeriveAgg(latest, minTo, end);
        StepKeeps(cfg, before, step);
        RunsOne(cfg, before, step);
        steps := [step];
      }
    }

    /** The checkpoint of a failed request of the range, if one has it. */
    method FailedCheckpoint(start: nat, end: nat) returns (found: Option<Checkpoint>)
      ensures found.Some? ==> exists j :: 0 <= j < |db.rows| && HoldsCheckpoint(db.rows[j], start, end)
                                          && db.rows[j].l1 == found
      ensures found.None? ==> forall j :: 0 <= j < |db.rows| ==> !HoldsCheckpoint(db.rows[j], start, end)
    {
      var ids := db.Select(WithRange(AGG, start, end, FAILED));
      found := None;
      for k := 0 to |ids|
        invariant found.None?
        invariant forall j :: 0 <= j < k ==> db.rows[ids[j]].l1.None?
      {
        if db.rows[ids[k]].l1.Some? {
          assert HoldsCheckpoint(db.rows[ids[k]], start, end);
          return db.rows[ids[k]].l1;
        }
      }
      forall j | 0 <= j < |db.rows| ensures !HoldsCheckpoint(db.rows[j], start, end) {
        assert WithRange(AGG, start, end, FAILED)(db.rows[j]) ==> j in ids;
      }
    }

    /**
     Stage 5: dispatches at most one request. `head` is the checkpoint the contract would record
     now, or None when that transaction fails.
     */
    method RequestQueuedProofs(head: Option<Checkpoint>) returns (r: DispatchResult, ghost steps: seq<Step>)
      requires Inv(cfg, db.rows)
      modifies db
      ensures Inv(cfg, db.rows) && Runs(cfg, old(db.rows), steps, db.rows)
      ensures DispatchStage(cfg, old(db.rows), db.rows, head, r)
      ensures forall e :: e in steps ==> r.Sent? && e.Dispatch? && e.id == r.id
    {
      hide Inv, Runs, UnderCaps;
      ghost var before := db.rows;
      RunsNothing(cfg, before);
      var next := db.GetNextUnrequestedProof();
      if next.None? {
        return Idle, [];
      }
      var id := next.value;
      var row := db.rows[id];
      if row.kind == AGG && row.l1.None? {
        var found := FailedCheckpoint(row.start, row.end);
        if found.None? && head.None? {
          return NoCheckpoint, [];
        }
        var checkpoint := if found.Some? then found.value else head.value;
        steps := RecordAndSend(id, checkpoint);
        return Sent(id), steps;
      } else {
        var free := true;
        if row.kind == SPAN {
          free := HasCapacity();
          if !free {
            return Capped, [];
          }
        }
        var unused := Checkpoint(0, L1.Opaque(0));
        StepKeeps(cfg, before, Dispatch(id, unused));
        RunsOne(cfg, before, Dispatch(id, unused));
        db.UpdateProofStatus(id, WITNESSGEN);
        AggChecked(cfg, before, id, unused);
        return Sent(id), [Dispatch(id, unused)];
      }
    }

    method HasCapacity() returns (free: bool)
      ensures free <==> UnderCaps(cfg, db.rows)
    {
      var witnessGen := db.CountWithStatus(WITNESSGEN);
      var proving := db.CountWithStatus(PROVING);
      return witnessGen < cfg.maxWitnessGen && witnessGen + proving < cfg.maxRequests;
    }

    /** Records the checkpoint on the one waiting request of the range and dispatches it. */
    method RecordAndSend(id: nat, checkpoint: Checkpoint) returns (ghost steps: seq<Step>)
      requires Inv(cfg, db.rows) && NextUnrequested(db.rows, id)
      requires db.rows[id].kind == AGG && db.rows[id].l1.None? && CheckpointChoice(db.rows, id, checkpoint)
      modifies db
      ensures Inv(cfg, db.rows) && Runs(cfg, old(db.rows), steps, db.rows)
      ensures db.rows == old(db.rows)[id := Dispatched(old(db.rows)[id], checkpoint)]
      ensures steps == [Dispatch(id, checkpoint)]
    {
      hide Inv, Runs, UnderCaps, CheckpointChoice;
      ghost var before := db.rows;
      var row := db.rows[id];
      StepKeeps(cfg, before, Dispatch(id, checkpoint));
      RunsOne(cfg, before, Dispatch(id, checkpoint));
      OneWaiting(cfg, before, id);
      var r := db.AddL1BlockInfoToAggRequest(row.start, row.end, checkpoint);
      assert r.Ok? && r.value == id;
      assert db.rows == before[id := row.(l1 := Some(checkpoint))];
      db.UpdateProofStatus(r.value, WITNESSGEN);
      assert db.rows == Apply(cfg, before, Dispatch(id, checkpoint));
      steps := [Dispatch(id, checkpoint)];
    }

    /** Builds the request body; for a row of the table this never fails. */
    method PrepareProofRequest(id: nat) returns (r: Result<RequestBody, PrepareError>)
      requires Inv(cfg, db.rows) && id < |db.rows|
      ensures r.Ok?
      ensures db.rows[id].kind == SPAN ==> r.value == SpanRequest(db.rows[id].start, db.rows[id].end)
      ensures db.rows[id].kind == AGG ==> r.value.AggRequest? && r.value.l1Head == db.rows[id].l1
      ensures db.rows[id].kind == AGG ==>
        exists ids :: SubproofIds(db.rows, id, ids) && r.value.subproofs == ProofsOf(db.rows, ids)
    {
      hide Inv, ConsecutiveProofs, DoneChain, ProofsOf, Disjoint, Backed;
      var p := db.rows[id];
      AggFacts(cfg, db.rows, id);
      if p.kind == SPAN {
        if p.start >= p.end {
          return Err(EmptyRange);
        }
        return Ok(SpanRequest(p.start, p.end));
      }
      var subproofs := db.GetConsecutiveSpanProofs(p.start, p.end);
      ghost var ids :| Ordered(db.rows, DoneWithin(p.start, p.end), ids)
                       && subproofs == ConsecutiveProofs(db.rows, ids, p.start, p.end);
      ConsecutiveScan(db.rows, ids, p.start, p.end);
      assert SubproofIds(db.rows, id, ids);
      match subproofs {
        case Err(error) => return Err(BadChain(error));
        case Ok(proofs) => return Ok(AggRequest(proofs, p.l1));
      }
    }

    /** The end of a request goroutine for a row still in witness generation. */
    method RequestProof(id: nat, reply: Reply) returns (ghost steps: seq<Step>)
      requires Inv(cfg, db.rows) && id < |db.rows| && db.rows[id].status == WITNESSGEN
      modifies db
      ensures Inv(cfg, db.rows) && Runs(cfg, old(db.rows), steps, db.rows)
      ensures
        db.rows == match reply
                   case Refused => RetryRows(old(db.rows), id, false)
                   case Accepted => old(db.rows)[id := old(db.rows)[id].(status := PROVING)]
                   case MockProof(proof) =>
                     old(db.rows)[id := old(db.rows)[id].(status := COMPLETE, proof := Some(proof))]
    {
      hide Inv, Runs;
      ghost var before := db.rows;
      RunsNothing(cfg, before);
      var body := PrepareProofRequest(id);
      if reply.Refused? {
        steps := Fail(id, false, before, []);
        return;
      }
      StepKeeps(cfg, before, StartProving(id));
      RunsMore(cfg, before, [], before, StartProving(id));
      db.UpdateProofStatus(id, PROVING);
      steps := [] + [StartProving(id)];
      if reply.MockProof? {
        steps := Complete(id, reply.proof, before, steps);
      }
    }

    /** Stage 6: the aggregate to submit from the contract's height, if one is complete. */
    method SubmitAggProofs(latest: nat) returns (choice: Option<nat>)
      ensures SubmitAnswer(db.rows, latest, choice)
    {
      var ids := db.Select(CompletedAgg(latest));
      if |ids| == 0 {
        return None;
      }
      var best := ids[0];
      for k := 1 to |ids|
        invariant best in ids
        invariant forall j :: 0 <= j < k ==> db.rows[ids[j]].end <= db.rows[best].end
      {
        if db.rows[best].end < db.rows[ids[k]].end {
          best := ids[k];
        }
      }
      return Some(best);
    }

    /** One iteration of the loop up to the submission transaction. */
    method Tick(
        latest: nat, minTo: nat, finalized: nat, verdict: nat -> Verdict, expired: nat -> bool,
        head: Option<Checkpoint>)
      returns (end: TickEnd, ghost t: Stages, ghost steps: seq<Step>)
      requires Inv(cfg, db.rows) && latest < minTo
      modifies db
      ensures Inv(cfg, db.rows) && Runs(cfg, old(db.rows), steps, db.rows) && OnAnswers(steps, latest, minTo)
      ensures Iteration(cfg, old(db.rows), t, db.rows, latest, minTo, finalized, verdict, expired, head, end)
    {
      hide Inv, Runs, ProvingStage, WitnessStage, DeriveStage, DispatchStage, SubmitAnswer;
      ghost var t0 := db.rows;
      StepKeeps(cfg, t0, AddRanges(latest, finalized));
      RunsOne(cfg, t0, AddRanges(latest, finalized));
      GetRangeProofBoundaries(latest, finalized);
      steps := [AddRanges(latest, finalized)];
      t := Stages(db.rows, [], [], [], [], [], []);
      var ok, s2 := ProcessProvingRequests(verdict);
      ProvingSteps(cfg, t.added, s2, db.rows, verdict, ok, latest, minTo);
      RunsConcat(cfg, t0, steps, t.added, s2, db.rows);
      steps := steps + s2;
      t := t.(proving := s2, proved := db.rows);
      if !ok {
        return Unanswered, t, steps;
      }
      ghost var s3 := ProcessWitnessgenRequests(expired);
      WitnessSteps(cfg, t.proved, s3, db.rows, expired, latest, minTo);
      RunsConcat(cfg, t0, steps, t.proved, s3, db.rows);
      steps := steps + s3;
      t := t.(retrying := s3, witnessed := db.rows);
      ghost var s4 := DeriveAggProofs(latest, minTo);
      RunsConcat(cfg, t0, steps, t.witnessed, s4, db.rows);
      steps := steps + s4;
      t := t.(derived := db.rows);
      var r, s5 := RequestQueuedProofs(head);
      RunsConcat(cfg, t0, steps, t.derived, s5, db.rows);
      steps := steps + s5;
      t := t.(dispatched := db.rows);
      if r.NoCheckpoint? {
        return Uncheckpointed, t, steps;
      }
      var choice := SubmitAggProofs(latest);
      end := Finished(choice);
    }
  }

  lemma ProvingSteps(
      cfg: Config, a: Table, steps: seq<Step>, b: Table, verdict: nat -> Verdict, ok: bool, latest: nat, minTo: nat)
    requires ProvingStage(cfg, a, steps, b, verdict, ok)
    ensures Runs(cfg, a, steps, b) && OnAnswers(steps, latest, minTo)
  {
    hide Runs;
    assert forall e :: e in steps ==> FollowsVerdict(e, verdict);
  }

  lemma WitnessSteps(
      cfg: Config, a: Table, steps: seq<Step>, b: Table, chosen: nat -> bool, latest: nat, minTo: nat)
    requires WitnessStage(cfg, a, steps, b, chosen)
    ensures Runs(cfg, a, steps, b) && OnAnswers(steps, latest, minTo)
  {
    hide Runs;
    assert forall e :: e in steps ==> RetriesChosen(e, chosen);
  }

  lemma RunsNothing(cfg: Config, rows: Table)
    ensures Runs(cfg, rows, [], rows)
  {
  }

  lemma RemoveDistinct(ids: seq<nat>, k: nat)
    requires Distinct(ids) && k < |ids|
    ensures Distinct(ids[..k] + ids[k + 1..])
  {
  }

  lemma RemoveMember(ids: seq<nat>, k: nat, i: nat)
    requires Distinct(ids) && k < |ids|
    ensures i in ids[..k] + ids[k + 1..] <==> i in ids && i != ids[k]
  {
    if i in ids && i != ids[k] {
      var j :| 0 <= j < |ids| && ids[j] == i;
      assert (ids[..k] + ids[k + 1..])[if j < k then j else j - 1] == i;
    }
  }

  /** Dropping the last row from a query that lists it. */
  lemma ListingDrop(rows: Table, p: Row -> bool, ids: seq<nat>, k: nat)
    requires rows != [] && Listing(rows, p, ids) && k < |ids| && ids[k] == |rows| - 1
    ensures Listing(rows[..|rows| - 1], p, ids[..k] + ids[k + 1..])
  {
    var init, rest := rows[..|rows| - 1], ids[..k] + ids[k + 1..];
    RemoveDistinct(ids, k);
    forall i: nat ensures i in rest <==> i in ids && i != ids[k] {
      RemoveMember(ids, k, i);
    }
    forall j | 0 <= j < |rest| ensures rest[j] < |init| && p(init[rest[j]]) {
      assert rest[j] in rest;
    }
    forall i | 0 <= i < |init| && p(init[i]) ensures i in rest {
      assert p(rows[i]);
    }
  }

  lemma ListingSkip(rows: Table, p: Row -> bool, ids: seq<nat>)
    requires rows != [] && Listing(rows, p, ids) && !p(rows[|rows| - 1])
    ensures Listing(rows[..|rows| - 1], p, ids)
  {
  }

  /** A query lists as many rows as match. */
  lemma {:induction false} ListingCount(rows: Table, p: Row -> bool, ids: seq<nat>)
    requires Listing(rows, p, ids)
    ensures |ids| == Count(rows, p)
    decreases |rows|
  {
    hide Count;
    assert |ids| > 0 ==> ids[0] < |rows|;
    if rows == [] {
      CountNone(rows, p);
    } else {
      var n := |rows| - 1;
      CountPush(rows[..n], rows[n], p);
      assert rows == rows[..n] + [rows[n]];
      if p(rows[n]) {
        var k :| 0 <= k < |ids| && ids[k] == n;
        ListingDrop(rows, p, ids, k);
        ListingCount(rows[..n], p, ids[..k] + ids[k + 1..]);
      } else {
        ListingSkip(rows, p, ids);
        ListingCount(rows[..n], p, ids);
      }
    }
  }

  lemma AggFacts(cfg: Config, rows: Table, id: nat)
    requires Inv(cfg, rows) && id < |rows|
    ensures NonEmpty(rows) && Disjoint(rows) && rows[id].start < rows[id].end
    ensures rows[id].kind == AGG ==> Backed(rows, rows[id].start, rows[id].end)
  {
    hide FailInv, CapInv, SpanInv, Disjoint;
    SpanFacts(cfg, rows);
  }

  /** The waiting AGG request of a range is the only one. */
  lemma OneWaiting(cfg: Config, rows: Table, id: nat)
    requires Inv(cfg, rows) && id < |rows| && rows[id].kind == AGG && rows[id].status == UNREQ
    ensures OnlyMatch(rows, AwaitsCheckpoint(rows[id].start, rows[id].end), id)
  {
    hide FailInv, CapInv, SpanInv, AggBacked, AggActive;
  }

  lemma AggChecked(cfg: Config, rows: Table, id: nat, checkpoint: Checkpoint)
    requires Inv(cfg, rows) && id < |rows| && (rows[id].kind == AGG ==> rows[id].l1.Some?)
    ensures Dispatched(rows[id], checkpoint) == rows[id].(status := WITNESSGEN)
  {
  }
}

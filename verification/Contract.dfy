/**
 The scheduler together with the output oracle contract, when the contract's height moves only
 through `SubmitAggProofs`.
 */
module Contract {
  import opened Prelude
  import opened Tallies
  import opened Requests
  import opened Spans
  import opened Scheduler
  import opened Partition
  import opened Aggregates
  import opened Invariant

  /** `submitted` and `inserted` record what has been submitted on chain and asked for so far. */
  datatype World = World(rows: Table, height: nat, submitted: seq<Span>, maxHead: nat, inserted: seq<Span>)

  datatype WorldStep = TableStep(step: Step) | Submit(id: nat, landed: bool)

  function Init(height: nat): World {
    World([], height, [], 0, [])
  }

  /** The row `SubmitAggProofs` picks: a completed aggregate from the contract's height, with the highest end. */
  ghost predicate SubmitChoice(rows: Table, height: nat, id: nat) {
    && id < |rows| && CompletedAgg(height)(rows[id])
    && forall j :: 0 <= j < |rows| && CompletedAgg(height)(rows[j]) ==> rows[j].end <= rows[id].end
  }

  /** The contract answers with its height, and asks for `interval` more blocks. */
  ghost predicate CanStep(cfg: Config, interval: nat, w: World, step: WorldStep) {
    match step
    case TableStep(s) =>
      && Enabled(cfg, w.rows, s)
      && (s.AddRanges? ==> s.latest == w.height)
      && (s.DeriveAgg? ==> s.latest == w.height && s.minTo == w.height + interval)
    case Submit(id, _) => SubmitChoice(w.rows, w.height, id)
  }

  ghost function Next(cfg: Config, interval: nat, w: World, step: WorldStep): World
    requires CanStep(cfg, interval, w, step)
  {
    match step
    case TableStep(s) =>
      var rows := Apply(cfg, w.rows, s);
      if s.AddRanges? then
        w.(rows := rows, maxHead := Max(w.maxHead, s.head),
           inserted := w.inserted + FullSpans(NextStart(w.rows, w.height), s.head, cfg.maxRange))
      else
        w.(rows := rows)
    case Submit(id, landed) =>
      if landed then
        w.(height := w.rows[id].end, submitted := w.submitted + [Span(w.height, w.rows[id].end)])
      else w
  }

  ghost predicate WorldRuns(cfg: Config, interval: nat, w: World, steps: seq<WorldStep>, w': World)
    decreases |steps|
  {
    if steps == [] then w == w'
    else
      && CanStep(cfg, interval, w, steps[0])
      && WorldRuns(cfg, interval, Next(cfg, interval, w, steps[0]), steps[1..], w')
  }

  /** Spans of at least `interval` blocks that lead from one block to another without gap or overlap. */
  ghost predicate Leads(spans: seq<Span>, from: nat, to: nat, interval: nat) {
    if spans == [] then from == to
    else
      var last := spans[|spans| - 1];
      last.end == to && last.start + interval <= last.end && Leads(spans[..|spans| - 1], from, last.start, interval)
  }

  ghost predicate AggEndsAt(rows: Table, b: nat) {
    exists i :: 0 <= i < |rows| && rows[i].kind == AGG && rows[i].end == b
  }

  ghost predicate LongAggs(rows: Table, interval: nat) {
    forall i :: 0 <= i < |rows| && rows[i].kind == AGG ==> rows[i].start + interval <= rows[i].end
  }

  /** Only aggregates from the contract's height are still to be proved. */
  ghost predicate AggsAtHeight(rows: Table, height: nat) {
    forall i :: 0 <= i < |rows| && OpenAgg()(rows[i]) ==> rows[i].start == height
  }

  function OpenAgg(): Row -> bool {
    (r: Row) => r.kind == AGG && r.status != FAILED && r.status != COMPLETE
  }

  ghost predicate WorldInv(cfg: Config, interval: nat, h0: nat, w: World) {
    && Inv(cfg, w.rows)
    && Leads(w.submitted, h0, w.height, interval)
    && (w.height == h0 || AggEndsAt(w.rows, w.height))
    && LongAggs(w.rows, interval)
    && AggsAtHeight(w.rows, w.height)
    && InsertedInv(cfg, h0, w)
  }

  /** All insertions together are one cut of [h0, highest head seen). */
  ghost predicate InsertedInv(cfg: Config, h0: nat, w: World) {
    && w.inserted == FullSpans(h0, w.maxHead, cfg.maxRange)
    && (w.rows == [] <==> w.inserted == []) && (w.rows == [] ==> w.height == h0)
    && (w.rows != [] ==> Base(w.rows) == h0 && Frontier(w.rows) == FullSpansEnd(h0, w.maxHead, cfg.maxRange))
  }

  lemma InitInv(cfg: Config, interval: nat, h0: nat)
    ensures WorldInv(cfg, interval, h0, Init(h0))
  {
    InvEmpty(cfg);
  }

  lemma FrontierKept(cfg: Config, rows: Table, step: Step)
    requires Inv(cfg, rows) && Enabled(cfg, rows, step) && !step.AddRanges?
    ensures Frontier(Apply(cfg, rows, step)) == Frontier(rows)
  {
    hide SpanInv, AggInv, FailInv, CapInv, Frontier, NextUnrequested, UnderCaps, CheckpointChoice, FullSpans,
      FullSpansEnd;
    match step
    case Fulfil(id, proof) => AdvanceKeeps(cfg, rows, id, rows[id].(status := COMPLETE, proof := Some(proof)));
    case Retry(id, unexecutable) => RetryStepKeeps(cfg, rows, id, unexecutable);
    case StartProving(id) =>
      ProofUnset(cfg, rows, id);
      AdvanceKeeps(cfg, rows, id, rows[id].(status := PROVING));
    case DeriveAgg(latest, minTo, end) => DeriveAggKeeps(cfg, rows, latest, minTo, end);
    case Dispatch(id, checkpoint) => DispatchKeeps(cfg, rows, id, checkpoint);
  }

  lemma EmptyStays(cfg: Config, step: Step)
    requires Enabled(cfg, [], step) && !step.AddRanges?
    ensures Apply(cfg, [], step) == []
  {
    hide UnderCaps, CheckpointChoice, RetryRows;
    if step.DeriveAgg? {
      EmptyContiguous(step.latest, step.end);
    }
  }

  lemma EmptyContiguous(start: nat, end: nat)
    requires MaxContiguous([], start, end)
    ensures end == start
  {
    var ids :| Ordered([], DoneFrom(start), ids) && ContiguousEnd([], ids, start) == end;
  }

  lemma AddRangesInserted(cfg: Config, h0: nat, w: World, head: nat)
    requires Inv(cfg, w.rows) && InsertedInv(cfg, h0, w)
    ensures
      var rows := Apply(cfg, w.rows, AddRanges(w.height, head));
      var more := FullSpans(NextStart(w.rows, w.height), head, cfg.maxRange);
      InsertedInv(cfg, h0, w.(rows := rows, maxHead := Max(w.maxHead, head), inserted := w.inserted + more))
  {
    hide Inv, Frontier;
    var size := cfg.maxRange;
    var f := NextStart(w.rows, w.height);
    assert f == FullSpansEnd(h0, w.maxHead, size);
    AddRangesKeeps(cfg, w.rows, w.height, head);
    if w.maxHead <= head {
      FullSpansResume(h0, w.maxHead, head, size);
    } else {
      assert FullSpans(f, head, size) == [];
    }
    var rows := w.rows + SpanRows(FullSpans(f, head, size));
    assert w.rows == [] && rows != [] ==> rows[0].start == f;
    assert w.rows != [] ==> rows[0] == w.rows[0];
  }

  lemma TableInserted(cfg: Config, h0: nat, w: World, step: Step)
    requires Inv(cfg, w.rows) && InsertedInv(cfg, h0, w) && Enabled(cfg, w.rows, step) && !step.AddRanges?
    ensures InsertedInv(cfg, h0, w.(rows := Apply(cfg, w.rows, step)))
  {
    hide Inv, Frontier, FullSpans, FullSpansEnd, Enabled, Apply;
    FrontierKept(cfg, w.rows, step);
    StepEvolves(cfg, w.rows, step);
    if w.rows == [] {
      EmptyStays(cfg, step);
    }
  }

  /** Aggregates keep their ranges, and new ones reach at least `interval` blocks. */
  lemma LongAggsKept(cfg: Config, interval: nat, rows: Table, step: Step)
    requires Inv(cfg, rows) && Enabled(cfg, rows, step) && LongAggs(rows, interval)
    requires step.DeriveAgg? ==> step.minTo == step.latest + interval
    ensures LongAggs(Apply(cfg, rows, step), interval)
  {
    hide SpanInv, AggInv, FailInv, CapInv, FullSpans, UnderCaps, CheckpointChoice, MaxContiguous,
      RetryRows, Pieces, Disjoint, FailedNested;
    StepEvolves(cfg, rows, step);
    SpanFacts(cfg, rows);
    var rows' := Apply(cfg, rows, step);
    forall i | |rows| <= i < |rows'| ensures rows'[i].kind == AGG ==> rows'[i].start + interval <= rows'[i].end {
      if step.AddRanges? {
        assert rows'[i] == SpanRows(FullSpans(NextStart(rows, step.latest), step.head, cfg.maxRange))[i - |rows|];
      } else if step.Retry? && rows'[i].kind == AGG {
        NewAgg(rows, step.id, step.unexecutable, i);
        assert rows[step.id].start + interval <= rows[step.id].end;
      }
    }
    forall i | 0 <= i < |rows| ensures rows'[i].kind == AGG ==> rows'[i].start + interval <= rows'[i].end {
      assert RowEvolves(rows[i], rows'[i]);
    }
  }

  /** Every step leaves the aggregates that are to be proved at the contract's height. */
  lemma AggsAtHeightKept(cfg: Config, rows: Table, step: Step, height: nat)
    requires Inv(cfg, rows) && Enabled(cfg, rows, step) && AggsAtHeight(rows, height)
    requires step.DeriveAgg? ==> step.latest == height
    ensures AggsAtHeight(Apply(cfg, rows, step), height)
  {
    hide Inv, Apply, Enabled, OpenAgg;
    StepEvolves(cfg, rows, step);
    var rows' := Apply(cfg, rows, step);
    forall i | 0 <= i < |rows'| && OpenAgg()(rows'[i]) ensures rows'[i].start == height {
      if i < |rows| {
        OpenBefore(rows[i], rows'[i]);
      } else {
        NewOpenAgg(cfg, rows, step, i);
      }
    }
  }

  lemma OpenBefore(r: Row, r': Row)
    requires RowEvolves(r, r') && OpenAgg()(r')
    ensures OpenAgg()(r) && r.start == r'.start
  {
  }

  /** A new aggregate is a derived one, or replaces one that was open. */
  lemma NewOpenAgg(cfg: Config, rows: Table, step: Step, i: nat)
    requires Inv(cfg, rows) && Enabled(cfg, rows, step) && |rows| <= i < |Apply(cfg, rows, step)|
    requires OpenAgg()(Apply(cfg, rows, step)[i])
    ensures step.DeriveAgg? || step.Retry?
    ensures step.DeriveAgg? ==> Apply(cfg, rows, step)[i].start == step.latest
    ensures step.Retry? ==> step.id < |rows| && OpenAgg()(rows[step.id])
    ensures step.Retry? ==> Apply(cfg, rows, step)[i].start == rows[step.id].start
  {
    hide SpanInv, AggInv, FailInv, CapInv, FullSpans, Frontier, UnderCaps, CheckpointChoice, MaxContiguous, RetryRows,
      Disjoint, FailedNested;
    SpanFacts(cfg, rows);
    if step.Retry? {
      NewAgg(rows, step.id, step.unexecutable, i);
    }
  }

  /** A submission leaves none behind: the other requests of its range have failed. */
  lemma AggsAtHeightSubmit(rows: Table, id: nat, height: nat, height': nat)
    requires AggUnique(rows) && AggsAtHeight(rows, height) && id < |rows| && CompletedAgg(height)(rows[id])
    ensures AggsAtHeight(rows, height')
  {
  }

  lemma AggsDistinct(cfg: Config, rows: Table)
    requires Inv(cfg, rows)
    ensures AggUnique(rows)
  {
  }

  lemma NewAgg(rows: Table, id: nat, unexecutable: bool, i: nat)
    requires id < |rows| && rows[id].start < rows[id].end
    requires |rows| <= i < |RetryRows(rows, id, unexecutable)| && RetryRows(rows, id, unexecutable)[i].kind == AGG
    ensures rows[id].kind == AGG
    ensures RetryRows(rows, id, unexecutable)[i] == NewRow(AGG, rows[id].start, rows[id].end)
  {
  }

  lemma AggEndKept(rows: Table, rows': Table, b: nat)
    requires AggEndsAt(rows, b) && Evolves(rows, rows')
    ensures AggEndsAt(rows', b)
  {
    var i :| 0 <= i < |rows| && rows[i].kind == AGG && rows[i].end == b;
    assert RowEvolves(rows[i], rows'[i]);
  }

  lemma WorldStepKeeps(cfg: Config, interval: nat, h0: nat, w: World, step: WorldStep)
    requires WorldInv(cfg, interval, h0, w) && CanStep(cfg, interval, w, step)
    ensures WorldInv(cfg, interval, h0, Next(cfg, interval, w, step))
  {
    hide Inv, Apply, Enabled, FullSpans, LongAggs, AggEndsAt, AggsAtHeight, AggUnique;
    match step
    case TableStep(s) =>
      StepKeeps(cfg, w.rows, s);
      StepEvolves(cfg, w.rows, s);
      LongAggsKept(cfg, interval, w.rows, s);
      AggsAtHeightKept(cfg, w.rows, s, w.height);
      if w.height != h0 {
        AggEndKept(w.rows, Apply(cfg, w.rows, s), w.height);
      }
      if s.AddRanges? {
        AddRangesInserted(cfg, h0, w, s.head);
      } else {
        TableInserted(cfg, h0, w, s);
      }
    case Submit(id, landed) =>
      if landed {
        SubmitFacts(w.rows, id, interval);
        AggsDistinct(cfg, w.rows);
        AggsAtHeightSubmit(w.rows, id, w.height, w.rows[id].end);
        var spans := w.submitted + [Span(w.height, w.rows[id].end)];
        assert spans[..|spans| - 1] == w.submitted;
      }
  }

  lemma SubmitFacts(rows: Table, id: nat, interval: nat)
    requires id < |rows| && rows[id].kind == AGG && LongAggs(rows, interval)
    ensures AggEndsAt(rows, rows[id].end) && rows[id].start + interval <= rows[id].end
  {
  }

  lemma {:induction false} WorldRunKeeps(
      cfg: Config, interval: nat, h0: nat, w: World, steps: seq<WorldStep>, w': World)
    requires WorldInv(cfg, interval, h0, w) && WorldRuns(cfg, interval, w, steps, w')
    ensures WorldInv(cfg, interval, h0, w')
    decreases |steps|
  {
    hide WorldInv, CanStep, Next;
    if steps != [] {
      WorldStepKeeps(cfg, interval, h0, w, steps[0]);
      WorldRunKeeps(cfg, interval, h0, Next(cfg, interval, w, steps[0]), steps[1..], w');
    }
  }

  /** A run of the world is a run of the scheduler, so all its guarantees apply. */
  lemma {:induction false} WorldTableRuns(cfg: Config, interval: nat, w: World, steps: seq<WorldStep>, w': World)
    returns (tableSteps: seq<Step>)
    requires WorldRuns(cfg, interval, w, steps, w')
    ensures Runs(cfg, w.rows, tableSteps, w'.rows)
    decreases |steps|
  {
    hide Apply, Enabled;
    if steps == [] {
      tableSteps := [];
    } else {
      var rest := WorldTableRuns(cfg, interval, Next(cfg, interval, w, steps[0]), steps[1..], w');
      if steps[0].TableStep? {
        tableSteps := [steps[0].step] + rest;
        assert tableSteps[1..] == rest;
      } else {
        tableSteps := rest;
      }
    }
  }

  /** The steps of one loop iteration use the contract's answers `latest` and `minTo`. */
  ghost predicate OnAnswers(steps: seq<Step>, latest: nat, minTo: nat) {
    forall e :: e in steps ==>
      (e.AddRanges? ==> e.latest == latest) && (e.DeriveAgg? ==> e.latest == latest && e.minTo == minTo)
  }

  /** Conversely, a run of the scheduler on the contract's answers is a run of the world. */
  lemma {:induction false} TableRunInWorld(cfg: Config, interval: nat, w: World, steps: seq<Step>, rows: Table)
    returns (worldSteps: seq<WorldStep>, w': World)
    requires Runs(cfg, w.rows, steps, rows) && OnAnswers(steps, w.height, w.height + interval)
    ensures WorldRuns(cfg, interval, w, worldSteps, w')
    ensures w'.rows == rows && w'.height == w.height && w'.submitted == w.submitted
    decreases |steps|
  {
    hide Apply, Enabled;
    if steps == [] {
      worldSteps, w' := [], w;
    } else {
      assert steps[0] in steps;
      var first := TableStep(steps[0]);
      worldSteps, w' := TableRunInWorld(cfg, interval, Next(cfg, interval, w, first), steps[1..], rows);
      worldSteps := [first] + worldSteps;
    }
  }

  /**
   In every run from an empty table at contract height h0, the submitted ranges tile [h0, height)
   in order, each of at least `interval` blocks.
   */
  lemma SubmissionsTile(cfg: Config, interval: nat, h0: nat, steps: seq<WorldStep>, w: World)
    requires WorldRuns(cfg, interval, Init(h0), steps, w)
    ensures Leads(w.submitted, h0, w.height, interval)
  {
    hide WorldRuns, Inv;
    InitInv(cfg, interval, h0);
    WorldRunKeeps(cfg, interval, h0, Init(h0), steps, w);
  }

  /** The contract's height is always a live-span boundary, at or below the frontier. */
  lemma HeightIsBoundary(cfg: Config, interval: nat, h0: nat, steps: seq<WorldStep>, w: World)
    requires WorldRuns(cfg, interval, Init(h0), steps, w) && w.rows != []
    ensures Base(w.rows) == h0 <= w.height <= Frontier(w.rows)
    ensures exists i ::
      0 <= i < |w.rows| && Live(w.rows[i]) && (w.rows[i].start == w.height || w.rows[i].end == w.height)
  {
    hide WorldRuns, FailInv, CapInv, Family, AggActive, AggUnique, CheckpointUnique, CheckpointSet, FullSpans,
      FullSpansEnd;
    InitInv(cfg, interval, h0);
    WorldRunKeeps(cfg, interval, h0, Init(h0), steps, w);
    if w.height == h0 {
      assert Covered(w.rows, h0);
    } else {
      var i :| 0 <= i < |w.rows| && w.rows[i].kind == AGG && w.rows[i].end == w.height;
      assert BackedAt(w.rows, w.rows[i].start, w.rows[i].end, w.height - 1);
    }
  }

  /** At most one row satisfies p when any two that do are the same. */
  lemma {:induction false} CountAtMostOne(rows: Table, p: Row -> bool)
    requires forall i, j :: 0 <= i < j < |rows| ==> !(p(rows[i]) && p(rows[j]))
    ensures Count(rows, p) <= 1
  {
    if rows != [] {
      var n := |rows| - 1;
      assert rows == rows[..n] + [rows[n]];
      CountPush(rows[..n], rows[n], p);
      if p(rows[n]) {
        CountNone(rows[..n], p);
      } else {
        CountAtMostOne(rows[..n], p);
      }
    }
  }

  /**
   In every run with the contract at most one aggregate is waiting or being proved, and it starts at
   the contract's height. So, although aggregates bypass the caps, requests of both kinds together
   exceed each cap by at most one.
   */
  lemma AllUnderCaps(cfg: Config, interval: nat, h0: nat, steps: seq<WorldStep>, w: World)
    requires WorldRuns(cfg, interval, Init(h0), steps, w)
    ensures AggsAtHeight(w.rows, w.height) && Count(w.rows, OpenAgg()) <= 1
    ensures Count(w.rows, WithStatus(WITNESSGEN)) <= cfg.maxWitnessGen + 1
    ensures Count(w.rows, WithStatus(WITNESSGEN)) + Count(w.rows, WithStatus(PROVING)) <= cfg.maxRequests + 1
  {
    hide WorldRuns, SpanInv, FailInv, AggBacked, AggActive, CheckpointUnique, CheckpointSet, InsertedInv, LongAggs,
      Leads, Count;
    InitInv(cfg, interval, h0);
    WorldRunKeeps(cfg, interval, h0, Init(h0), steps, w);
    CountAtMostOne(w.rows, OpenAgg());
    CountEither(w.rows, SpanWitness(), OpenAgg(), WithStatus(WITNESSGEN));
    BusyApart(w.rows);
    CountEither(w.rows, SpanBusy(), OpenAgg(), (r: Row) => r.status == WITNESSGEN || r.status == PROVING);
  }

  lemma {:induction false} BusyApart(rows: Table)
    ensures Count(rows, WithStatus(WITNESSGEN)) + Count(rows, WithStatus(PROVING))
         == Count(rows, (r: Row) => r.status == WITNESSGEN || r.status == PROVING)
  {
    if rows != [] {
      var n := |rows| - 1;
      BusyApart(rows[..n]);
    }
  }

  /** `SubmitAggProofs` never has more than one candidate. */
  lemma OneSubmitCandidate(cfg: Config, rows: Table, height: nat, i: nat, j: nat)
    requires Reachable(cfg, rows) && i < |rows| && j < |rows|
    requires CompletedAgg(height)(rows[i]) && CompletedAgg(height)(rows[j])
    ensures i == j
  {
    hide Reachable, SpanInv, FailInv, CapInv;
    ReachableInv(cfg, rows);
  }

  /**
   For any sequence of finalized heads, rising or not, everything ever inserted by
   `GetRangeProofBoundaries` is one cut of [h0, highest head) into full spans, and what is left
   over is shorter than one span.
   */
  lemma InsertionsAreOneCut(cfg: Config, interval: nat, h0: nat, steps: seq<WorldStep>, w: World)
    requires WorldRuns(cfg, interval, Init(h0), steps, w)
    ensures w.inserted == FullSpans(h0, w.maxHead, cfg.maxRange)
    ensures w.rows != [] ==> Frontier(w.rows) <= w.maxHead < Frontier(w.rows) + cfg.maxRange
    ensures w.rows == [] ==> w.inserted == [] && w.maxHead < h0 + cfg.maxRange
  {
    hide WorldRuns, Inv;
    InitInv(cfg, interval, h0);
    WorldRunKeeps(cfg, interval, h0, Init(h0), steps, w);
    InsertedFacts(cfg, h0, w);
  }

  lemma InsertedFacts(cfg: Config, h0: nat, w: World)
    requires InsertedInv(cfg, h0, w)
    ensures w.rows != [] ==> w.maxHead < Frontier(w.rows) + cfg.maxRange
    ensures w.rows != [] ==> Frontier(w.rows) <= w.maxHead
    ensures w.rows == [] ==> w.maxHead < h0 + cfg.maxRange
  {
  }
}

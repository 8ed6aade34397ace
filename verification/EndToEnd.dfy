/** From the request table to the aggregation program's output. */
module EndToEnd {
  import opened Prelude
  import opened L1
  import opened Requests
  import opened Scheduler
  import opened Partition
  import opened Aggregates
  import opened Invariant
  import opened Aggregation
  import opened Headers
  import opened Proposer

  /** What the range program attests for the blocks [start, end): the roots at both ends, under one config. */
  ghost predicate Attests(
      b: BootInfo, start: nat, end: nat, root: nat -> Root, config: ConfigHash, chain: seq<Header>, c: nat)
  {
    && b.preRoot == root(start) && b.postRoot == root(end) && b.blockNumber == end && b.config == config
    && OnChainUpTo(chain, b.l1Head, c)
  }

  /** Completed spans within [start, end) carry valid range proofs over their blocks, from L1 heads up to block c. */
  ghost predicate HonestProofs(
      rows: Table, start: nat, end: nat, decode: Proof -> BootInfo, root: nat -> Root,
      config: ConfigHash, chain: seq<Header>, c: nat, vkey: VKey, verified: (VKey, BootInfo) -> bool)
  {
    forall i :: 0 <= i < |rows| && DoneWithin(start, end)(rows[i]) && rows[i].proof.Some? ==>
      var b := decode(rows[i].proof.value);
      verified(vkey, b) && Attests(b, rows[i].start, rows[i].end, root, config, chain, c)
  }

  /** The boot infos read from the proofs of a request body. */
  function Decoded(proofs: seq<Option<Proof>>, decode: Proof -> BootInfo): (boots: seq<BootInfo>)
    requires forall k :: 0 <= k < |proofs| ==> proofs[k].Some?
    ensures |boots| == |proofs|
    ensures forall k :: 0 <= k < |proofs| ==> boots[k] == decode(proofs[k].value)
  {
    seq(|proofs|, k requires 0 <= k < |proofs| => decode(proofs[k].value))
  }

  /** In a chain, each span begins where the one before it ends. */
  lemma {:induction false} ChainLinks(rows: Table, ids: seq<nat>, start: nat, end: nat)
    requires DoneChain(rows, ids, start, end) && Ids(rows, ids)
    ensures forall k :: 0 <= k < |ids| ==> Done(rows[ids[k]])
    ensures forall k :: 0 <= k < |ids| - 1 ==> rows[ids[k]].end == rows[ids[k + 1]].start
    ensures ids != [] ==> rows[ids[0]].start == start && rows[ids[|ids| - 1]].end == end
  {
    if ids != [] {
      var rest := ids[1..];
      ChainLinks(rows, rest, rows[ids[0]].end, end);
      forall k | 0 <= k < |ids| ensures Done(rows[ids[k]]) {
        assert k > 0 ==> ids[k] == rest[k - 1];
      }
      forall k | 0 <= k < |ids| - 1 ensures rows[ids[k]].end == rows[ids[k + 1]].start {
        assert ids[k + 1] == rest[k];
        assert k > 0 ==> ids[k] == rest[k - 1] && rows[rest[k - 1]].end == rows[rest[k - 1 + 1]].start;
      }
    }
  }

  /** The boot infos that the table selects for an AGG request are sequential from its start root to its end root. */
  lemma SelectedBoots(
      rows: Table, ids: seq<nat>, start: nat, end: nat, decode: Proof -> BootInfo, root: nat -> Root,
      config: ConfigHash, chain: seq<Header>, c: nat, vkey: VKey, verified: (VKey, BootInfo) -> bool)
    requires DoneChain(rows, ids, start, end) && Ids(rows, ids) && ids != []
    requires forall k :: 0 <= k < |ids| ==> DoneWithin(start, end)(rows[ids[k]])
    requires HonestProofs(rows, start, end, decode, root, config, chain, c, vkey, verified)
    requires forall k :: 0 <= k < |ids| ==> rows[ids[k]].proof.Some?
    ensures
      var boots := Decoded(ProofsOf(rows, ids), decode);
      && Sequential(boots)
      && boots[0].preRoot == root(start) && boots[|boots| - 1].postRoot == root(end)
      && boots[|boots| - 1].blockNumber == end && boots[0].config == config
      && HeadsUpTo(chain, boots, c)
      && forall k :: 0 <= k < |boots| ==> verified(vkey, boots[k])
  {
    hide DoneChain, OnChainUpTo, HonestProofs, OnChain;
    ChainLinks(rows, ids, start, end);
    var boots := Decoded(ProofsOf(rows, ids), decode);
    forall k | 0 <= k < |boots|
      ensures verified(vkey, boots[k])
      ensures Attests(boots[k], rows[ids[k]].start, rows[ids[k]].end, root, config, chain, c)
    {
      RowAttests(rows, start, end, ids[k], decode, root, config, chain, c, vkey, verified);
    }
  }

  lemma RowAttests(
      rows: Table, start: nat, end: nat, i: nat, decode: Proof -> BootInfo, root: nat -> Root,
      config: ConfigHash, chain: seq<Header>, c: nat, vkey: VKey, verified: (VKey, BootInfo) -> bool)
    requires HonestProofs(rows, start, end, decode, root, config, chain, c, vkey, verified)
    requires i < |rows| && DoneWithin(start, end)(rows[i]) && rows[i].proof.Some?
    ensures verified(vkey, decode(rows[i].proof.value))
    ensures Attests(decode(rows[i].proof.value), rows[i].start, rows[i].end, root, config, chain, c)
  {
  }

  lemma ChainProofs(cfg: Config, rows: Table, ids: seq<nat>)
    requires SpanInv(cfg, rows) && Ids(rows, ids) && forall k :: 0 <= k < |ids| ==> Done(rows[ids[k]])
    ensures forall k :: 0 <= k < |ids| ==> rows[ids[k]].proof.Some?
  {
    forall k | 0 <= k < |ids| ensures rows[ids[k]].proof.Some? {
      ProofUnset(cfg, rows, ids[k]);
    }
  }

  /**
   For an AGG row of the table whose checkpoint is on the L1 chain at or after the L1 heads of the
   completed spans within its own range, the sub-proofs the database selects and the headers the host fetches pass every
   assertion of the aggregation program, and its output is the transition over the row's range.
   */
  method Aggregate(
      submitter: OutputSubmitter, id: nat, decode: Proof -> BootInfo, chain: seq<Header>, vkey: VKey,
      verified: (VKey, BootInfo) -> bool, ghost root: nat -> Root, ghost config: ConfigHash, ghost c: nat)
    returns (out: Result<Outputs, GuestPanic>)
    requires Inv(submitter.cfg, submitter.db.rows)
    requires id < |submitter.db.rows| && submitter.db.rows[id].kind == AGG && submitter.db.rows[id].l1.Some?
    requires Canonical(chain) && OnChain(chain, submitter.db.rows[id].l1.value.hash, c)
    requires
      var row := submitter.db.rows[id];
      HonestProofs(submitter.db.rows, row.start, row.end, decode, root, config, chain, c, vkey, verified)
    ensures
      var row := submitter.db.rows[id];
      out == Ok(Outputs(row.l1.value.hash, root(row.start), root(row.end), row.end, config, vkey))
  {
    hide Inv, DoneChain, HonestProofs, Canonical, OnChain, Linked, Sequential, HeadsUpTo, HeadIn, Ordered, Accepts,
      ProofsOf;
    var rows := submitter.db.rows;
    var row := rows[id];
    var body := submitter.PrepareProofRequest(id);
    var proofs, checkpoint := body.value.subproofs, body.value.l1Head.value.hash;
    ghost var ids :| SubproofIds(rows, id, ids) && proofs == ProofsOf(rows, ids);
    RowFacts(submitter.cfg, rows, id, ids);
    SelectedBoots(rows, ids, row.start, row.end, decode, root, config, chain, c, vkey, verified);
    var boots := Decoded(proofs, decode);
    var headers := GetHeaderPreimages(chain, boots, checkpoint);
    AllChecksPass(Inputs(boots, checkpoint, vkey), headers.value, verified);
    out := RunGuest(Inputs(boots, checkpoint, vkey), headers.value, verified);
  }

  lemma AllChecksPass(inputs: Inputs, headers: seq<Header>, verified: (VKey, BootInfo) -> bool)
    requires inputs.boots != [] && Sequential(inputs.boots) && Linked(headers, inputs.checkpointHead)
    requires forall k :: 0 <= k < |inputs.boots| ==> verified(inputs.vkey, inputs.boots[k])
    requires forall k :: 0 <= k < |inputs.boots| ==> HeadIn(headers, inputs.boots[k].l1Head)
    ensures Accepts(inputs, headers, verified)
  {
  }

  lemma RowFacts(cfg: Config, rows: Table, id: nat, ids: seq<nat>)
    requires Inv(cfg, rows) && id < |rows| && SubproofIds(rows, id, ids)
    ensures ids != [] && Ids(rows, ids)
    ensures forall k :: 0 <= k < |ids| ==>
      DoneWithin(rows[id].start, rows[id].end)(rows[ids[k]]) && rows[ids[k]].proof.Some?
  {
    hide AggInv, FailInv, CapInv, SpanInv;
    AggFacts(cfg, rows, id);
    ChainLinks(rows, ids, rows[id].start, rows[id].end);
    ChainProofs(cfg, rows, ids);
  }
}

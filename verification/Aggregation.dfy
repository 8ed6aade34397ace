/** The aggregation program: what it checks, what it outputs, and what finishing means. */
module Aggregation {
  import opened Prelude
  import opened L1

  type ConfigHash = nat

  type VKey = seq<nat>

  datatype BootInfo = BootInfo(l1Head: Hash, preRoot: Root, postRoot: Root, blockNumber: nat, config: ConfigHash)

  datatype Inputs = Inputs(boots: seq<BootInfo>, checkpointHead: Hash, vkey: VKey)

  datatype Outputs = Outputs(
    l1Head: Hash, preRoot: Root, postRoot: Root, blockNumber: nat, config: ConfigHash, vkey: VKey)

  /** The assertion that stops the program. */
  datatype GuestPanic =
    | NoBootInfos
    | RootMismatch(at: nat)
    | ConfigMismatch(at: nat)
    | ProofRejected(at: nat)
    | HeaderMismatch(at: nat)
    | HeadNotFound(head: Hash)

  ghost predicate Sequential(boots: seq<BootInfo>) {
    forall k :: 0 <= k < |boots| - 1 ==>
      boots[k].postRoot == boots[k + 1].preRoot && boots[k].config == boots[k + 1].config
  }

  /** The headers are linked by parent hashes and the last one hashes to `tip`. */
  ghost predicate Linked(headers: seq<Header>, tip: Hash) {
    && (headers != [] ==> HashOf(headers[|headers| - 1]) == tip)
    && (forall i :: 0 <= i < |headers| - 1 ==> HashOf(headers[i]) == headers[i + 1].parent)
  }

  ghost predicate HeadIn(headers: seq<Header>, head: Hash) {
    exists i :: 0 <= i < |headers| && HashOf(headers[i]) == head
  }

  /** All assertions of the program. `verified` says which public values have a valid range proof. */
  ghost predicate Accepts(inputs: Inputs, headers: seq<Header>, verified: (VKey, BootInfo) -> bool) {
    && inputs.boots != []
    && Sequential(inputs.boots)
    && (forall k :: 0 <= k < |inputs.boots| ==> verified(inputs.vkey, inputs.boots[k]))
    && Linked(headers, inputs.checkpointHead)
    && (forall k :: 0 <= k < |inputs.boots| ==> HeadIn(headers, inputs.boots[k].l1Head))
  }

  /** The assertion that a panic names does not hold. */
  ghost predicate Broken(e: GuestPanic, inputs: Inputs, headers: seq<Header>, verified: (VKey, BootInfo) -> bool) {
    var boots := inputs.boots;
    match e
    case NoBootInfos => boots == []
    case RootMismatch(k) => k < |boots| - 1 && boots[k].postRoot != boots[k + 1].preRoot
    case ConfigMismatch(k) => k < |boots| - 1 && boots[k].config != boots[k + 1].config
    case ProofRejected(k) => k < |boots| && !verified(inputs.vkey, boots[k])
    case HeaderMismatch(i) =>
      i < |headers| && HashOf(headers[i]) != if i == |headers| - 1 then inputs.checkpointHead else headers[i + 1].parent
    case HeadNotFound(h) => (exists k :: 0 <= k < |boots| && boots[k].l1Head == h) && !HeadIn(headers, h)
  }

  /** The program finishes exactly when every assertion holds, and otherwise stops at one that does not. */
  method RunGuest(inputs: Inputs, headers: seq<Header>, verified: (VKey, BootInfo) -> bool)
    returns (r: Result<Outputs, GuestPanic>)
    ensures r.Ok? <==> Accepts(inputs, headers, verified)
    ensures r.Err? ==> Broken(r.error, inputs, headers, verified)
    ensures r.Ok? ==>
      var boots := inputs.boots;
      r.value == Outputs(inputs.checkpointHead, boots[0].preRoot, boots[|boots| - 1].postRoot,
                         boots[|boots| - 1].blockNumber, boots[0].config, inputs.vkey)
  {
    var boots := inputs.boots;
    if boots == [] {
      return Err(NoBootInfos);
    }
    for k := 0 to |boots| - 1
      invariant forall j :: 0 <= j < k ==>
        boots[j].postRoot == boots[j + 1].preRoot && boots[j].config == boots[j + 1].config
    {
      if boots[k].postRoot != boots[k + 1].preRoot {
        return Err(RootMismatch(k));
      }
      if boots[k].config != boots[k + 1].config {
        return Err(ConfigMismatch(k));
      }
    }
    for k := 0 to |boots|
      invariant forall j :: 0 <= j < k ==> verified(inputs.vkey, boots[j])
    {
      if !verified(inputs.vkey, boots[k]) {
        return Err(ProofRejected(k));
      }
    }
    var walk := WalkHeaders(inputs, headers);
    if walk.Err? {
      return Err(walk.error);
    }
    OneConfig(boots, |boots| - 1);
    var last := boots[|boots| - 1];
    return Ok(
      Outputs(inputs.checkpointHead, boots[0].preRoot, last.postRoot, last.blockNumber, last.config, inputs.vkey));
  }

  /** The walk from the checkpoint back through the headers, marking the L1 heads it passes. */
  method WalkHeaders(inputs: Inputs, headers: seq<Header>) returns (r: Result<Hash, GuestPanic>)
    ensures r.Ok? <==> Linked(headers, inputs.checkpointHead)
                       && forall k :: 0 <= k < |inputs.boots| ==> HeadIn(headers, inputs.boots[k].l1Head)
    ensures r.Err? ==> (r.error.HeaderMismatch? || r.error.HeadNotFound?)
    ensures r.Err? ==> Broken(r.error, inputs, headers, (v, b) => true)
  {
    var heads := set k | 0 <= k < |inputs.boots| :: inputs.boots[k].l1Head;
    var found: map<Hash, bool> := map h | h in heads :: false;
    var current := inputs.checkpointHead;
    var i := |headers|;
    while i > 0
      invariant 0 <= i <= |headers|
      invariant current == if i == |headers| then inputs.checkpointHead else headers[i].parent
      invariant Linked(headers[i..], inputs.checkpointHead)
      invariant found.Keys == heads
      invariant forall h :: h in heads ==> (found[h] <==> HeadIn(headers[i..], h))
    {
      i := i - 1;
      LinkedFront(headers, i, inputs.checkpointHead);
      if current != HashOf(headers[i]) {
        LinkedSuffix(headers, i, inputs.checkpointHead);
        return Err(HeaderMismatch(i));
      }
      if current in found {
        found := found[current := true];
      }
      forall h ensures HeadIn(headers[i..], h) <==> h == current || HeadIn(headers[i + 1..], h) {
        HeadInFront(headers, i, h);
      }
      current := headers[i].parent;
    }
    assert headers[0..] == headers;
    if missing :| missing in heads && !found[missing] {
      return Err(HeadNotFound(missing));
    }
    forall k | 0 <= k < |inputs.boots| ensures HeadIn(headers, inputs.boots[k].l1Head) {
      assert inputs.boots[k].l1Head in heads;
    }
    return Ok(current);
  }

  lemma LinkedFront(headers: seq<Header>, i: nat, tip: Hash)
    requires i < |headers|
    ensures Linked(headers[i..], tip) <==>
      Linked(headers[i + 1..], tip) && HashOf(headers[i]) == if i == |headers| - 1 then tip else headers[i + 1].parent
  {
    var here, rest := headers[i..], headers[i + 1..];
    assert forall k :: 0 <= k < |rest| ==> rest[k] == here[k + 1];
    if Linked(here, tip) {
      forall k | 0 <= k < |rest| - 1 ensures HashOf(rest[k]) == rest[k + 1].parent {
        assert HashOf(here[k + 1]) == here[k + 1 + 1].parent;
      }
    }
    if Linked(rest, tip) && HashOf(headers[i]) == (if i == |headers| - 1 then tip else headers[i + 1].parent) {
      forall k | 0 <= k < |here| - 1 ensures HashOf(here[k]) == here[k + 1].parent {
        if k > 0 {
          assert HashOf(rest[k - 1]) == rest[k - 1 + 1].parent;
        }
      }
    }
  }

  lemma LinkedSuffix(headers: seq<Header>, i: nat, tip: Hash)
    requires i < |headers|
    ensures Linked(headers, tip) ==> Linked(headers[i..], tip)
  {
    if Linked(headers, tip) {
      forall k | 0 <= k < |headers[i..]| - 1 ensures HashOf(headers[i..][k]) == headers[i..][k + 1].parent {
        assert HashOf(headers[i + k]) == headers[i + k + 1].parent;
      }
    }
  }

  lemma HeadInFront(headers: seq<Header>, i: nat, h: Hash)
    requires i < |headers|
    ensures HeadIn(headers[i..], h) <==> h == HashOf(headers[i]) || HeadIn(headers[i + 1..], h)
  {
    var here, rest := headers[i..], headers[i + 1..];
    assert here[0] == headers[i];
    assert forall k :: 0 <= k < |rest| ==> here[k + 1] == rest[k];
    if HeadIn(here, h) {
      var k :| 0 <= k < |here| && HashOf(here[k]) == h;
      if k > 0 {
        assert HashOf(rest[k - 1]) == h;
      }
    }
    if HeadIn(rest, h) {
      var k :| 0 <= k < |rest| && HashOf(rest[k]) == h;
      assert HashOf(here[k + 1]) == h;
    }
  }

  // What an accepted input means.

  /** Every boot info has the config of the first one. */
  lemma {:induction false} OneConfig(boots: seq<BootInfo>, k: nat)
    requires Sequential(boots) && k < |boots|
    ensures boots[k].config == boots[0].config
  {
    if k > 0 {
      OneConfig(boots, k - 1);
      assert boots[k - 1].config == boots[k - 1 + 1].config;
    }
  }

  /** Following parent hashes back from b leads to a. */
  ghost predicate AncestorOrSelf(a: Hash, b: Hash)
    decreases b
  {
    a == b || (b.Digest? && AncestorOrSelf(a, b.preimage.parent))
  }

  lemma {:induction false} LinkedAncestor(headers: seq<Header>, tip: Hash, i: nat)
    requires Linked(headers, tip) && i < |headers|
    ensures AncestorOrSelf(HashOf(headers[i]), tip)
    decreases |headers|
  {
    var last := |headers| - 1;
    if i < last {
      var init := headers[..last];
      assert forall k :: 0 <= k < |init| ==> init[k] == headers[k];
      assert Linked(init, headers[last].parent);
      LinkedAncestor(init, headers[last].parent, i);
    }
  }

  /** A transitive relation that contains every certified transition under one config. */
  ghost predicate Admits(
      verified: (VKey, BootInfo) -> bool, vkey: VKey, config: ConfigHash, reaches: (Root, Root) -> bool)
  {
    && (forall b: BootInfo :: verified(vkey, b) && b.config == config ==> reaches(b.preRoot, b.postRoot))
    && (forall x, y, z :: reaches(x, y) && reaches(y, z) ==> reaches(x, z))
  }

  lemma {:induction false} Composes(
      inputs: Inputs, headers: seq<Header>, verified: (VKey, BootInfo) -> bool, reaches: (Root, Root) -> bool, k: nat)
    requires Accepts(inputs, headers, verified) && k < |inputs.boots|
    requires Admits(verified, inputs.vkey, inputs.boots[0].config, reaches)
    ensures reaches(inputs.boots[0].preRoot, inputs.boots[k].postRoot)
  {
    OneConfig(inputs.boots, k);
    assert reaches(inputs.boots[k].preRoot, inputs.boots[k].postRoot);
    if k > 0 {
      Composes(inputs, headers, verified, reaches, k - 1);
      assert inputs.boots[k - 1].postRoot == inputs.boots[k - 1 + 1].preRoot;
    }
  }

  /**
   When the program finishes, its output transition is the composition of certified transitions
   under the output's config, and the L1 head of every boot info is an ancestor of the output's
   L1 head, or that head itself.
   */
  lemma GuestSound(
      inputs: Inputs, headers: seq<Header>, verified: (VKey, BootInfo) -> bool, reaches: (Root, Root) -> bool)
    requires Accepts(inputs, headers, verified)
    requires Admits(verified, inputs.vkey, inputs.boots[0].config, reaches)
    ensures
      var boots := inputs.boots;
      && reaches(boots[0].preRoot, boots[|boots| - 1].postRoot)
      && forall k :: 0 <= k < |boots| ==>
           boots[k].config == boots[0].config && AncestorOrSelf(boots[k].l1Head, inputs.checkpointHead)
  {
    var boots := inputs.boots;
    Composes(inputs, headers, verified, reaches, |boots| - 1);
    forall k | 0 <= k < |boots|
      ensures boots[k].config == boots[0].config && AncestorOrSelf(boots[k].l1Head, inputs.checkpointHead)
    {
      OneConfig(boots, k);
      var i :| 0 <= i < |headers| && HashOf(headers[i]) == boots[k].l1Head;
      LinkedAncestor(headers, inputs.checkpointHead, i);
    }
  }
}

/** The host side: fetching the headers between the earliest L1 head and the checkpoint. */
module Headers {
  import opened Prelude
  import opened L1
  import opened Aggregation

  const U64_MAX: nat := 0xFFFF_FFFF_FFFF_FFFF

  datatype FetchError = UnknownHash(hash: Hash) | UnknownNumber(number: nat) | NoEarliest

  /** A canonical L1 chain: numbered from zero and linked by parent hashes. */
  ghost predicate Canonical(chain: seq<Header>) {
    && |chain| <= U64_MAX
    && (forall i :: 0 <= i < |chain| ==> chain[i].number == i)
    && (forall i :: 0 <= i < |chain| - 1 ==> chain[i + 1].parent == HashOf(chain[i]))
  }

  /** The L1 node, asked by hash. */
  function HeaderByHash(chain: seq<Header>, hash: Hash): (r: Result<Header, FetchError>)
    ensures r.Ok? ==> r.value in chain && HashOf(r.value) == hash
    ensures r.Err? ==> forall h :: h in chain ==> HashOf(h) != hash
  {
    if hash.Digest? && hash.preimage in chain then Ok(hash.preimage) else Err(UnknownHash(hash))
  }

  ghost predicate OnChain(chain: seq<Header>, hash: Hash, i: nat) {
    i < |chain| && HashOf(chain[i]) == hash
  }

  ghost predicate OnChainUpTo(chain: seq<Header>, hash: Hash, c: nat) {
    exists i: nat :: i <= c && OnChain(chain, hash, i)
  }

  /** The header with the lowest number among the boot infos' L1 heads. */
  method GetEarliestL1Head(chain: seq<Header>, boots: seq<BootInfo>) returns (r: Result<Header, FetchError>)
    requires Canonical(chain)
    ensures r.Ok? <==> boots != [] && forall k :: 0 <= k < |boots| ==> HeaderByHash(chain, boots[k].l1Head).Ok?
    ensures r.Ok? ==> r.value in chain
    ensures r.Ok? ==> exists k :: 0 <= k < |boots| && HashOf(r.value) == boots[k].l1Head
    ensures r.Ok? ==>
      forall k :: 0 <= k < |boots| ==> r.value.number <= HeaderByHash(chain, boots[k].l1Head).value.number
  {
    var lowest := U64_MAX;
    var earliest: Option<Header> := None;
    for k := 0 to |boots|
      invariant forall j :: 0 <= j < k ==> HeaderByHash(chain, boots[j].l1Head).Ok?
      invariant k == 0 ==> earliest.None? && lowest == U64_MAX
      invariant k > 0 ==> earliest.Some? && earliest.value in chain && earliest.value.number == lowest
      invariant k > 0 ==> exists j :: 0 <= j < k && HashOf(earliest.value) == boots[j].l1Head
      invariant forall j :: 0 <= j < k ==> lowest <= HeaderByHash(chain, boots[j].l1Head).value.number
    {
      var header := HeaderByHash(chain, boots[k].l1Head);
      if header.Err? {
        return Err(header.error);
      }
      if header.value.number < lowest {
        lowest := header.value.number;
        earliest := Some(header.value);
      }
    }
    match earliest {
      case None => return Err(NoEarliest);
      case Some(header) => return Ok(header);
    }
  }

  /** The headers numbered start to end, both included. */
  method FetchHeadersInRange(chain: seq<Header>, start: nat, end: nat) returns (r: Result<seq<Header>, FetchError>)
    ensures r.Ok? <==> end < start || end < |chain|
    ensures r.Ok? ==> r.value == if start <= end then chain[start..end + 1] else []
  {
    var headers: seq<Header> := [];
    var n := start;
    while n <= end
      invariant start <= n
      invariant start <= end ==> n <= end + 1
      invariant n <= |chain| || headers == []
      invariant end < start ==> headers == []
      invariant start <= n <= |chain| ==> headers == chain[start..n]
      invariant start < n ==> n <= |chain|
      decreases end + 1 - n
    {
      if n >= |chain| {
        return Err(UnknownNumber(n));
      }
      headers := headers + [chain[n]];
      n := n + 1;
    }
    return Ok(headers);
  }

  /**
   Fetching succeeds exactly when there are boot infos and all hashes are on the chain, and gives the
   headers from the earliest head to the checkpoint. They are linked, end at the checkpoint and contain
   every head exactly when moreover no head is after the checkpoint.
   */
  method GetHeaderPreimages(chain: seq<Header>, boots: seq<BootInfo>, checkpoint: Hash)
    returns (r: Result<seq<Header>, FetchError>)
    requires Canonical(chain)
    ensures r.Ok? <==>
      boots != [] && Known(chain, checkpoint) && forall k :: 0 <= k < |boots| ==> Known(chain, boots[k].l1Head)
    ensures r.Ok? ==> exists lo: nat, hi: nat ::
      Earliest(chain, boots, lo) && OnChain(chain, checkpoint, hi)
      && r.value == if lo <= hi then chain[lo..hi + 1] else []
    ensures boots != [] && InOrder(chain, boots, checkpoint) <==> r.Ok? && Passes(r.value, boots, checkpoint)
  {
    hide Canonical, Known, Earliest, InOrder, Passes, OnChain;
    var first := GetEarliestL1Head(chain, boots);
    KnownByHash(chain, checkpoint);
    forall k | 0 <= k < |boots| ensures Known(chain, boots[k].l1Head) <==> HeaderByHash(chain, boots[k].l1Head).Ok? {
      KnownByHash(chain, boots[k].l1Head);
    }
    if InOrder(chain, boots, checkpoint) {
      InOrderKnown(chain, boots, checkpoint);
    }
    if first.Err? {
      return Err(first.error);
    }
    var latest := HeaderByHash(chain, checkpoint);
    if latest.Err? {
      return Err(latest.error);
    }
    EarliestIs(chain, boots, first.value);
    CheckpointIs(chain, checkpoint);
    r := FetchHeadersInRange(chain, first.value.number, latest.value.number);
    SliceExact(chain, boots, checkpoint, first.value, r.value);
  }

  /** The boot infos' heads and the checkpoint are on the chain, with no head after the checkpoint. */
  ghost predicate InOrder(chain: seq<Header>, boots: seq<BootInfo>, checkpoint: Hash) {
    exists c: nat :: OnChain(chain, checkpoint, c) && HeadsUpTo(chain, boots, c)
  }

  /** The headers pass the program's walk. */
  ghost predicate Passes(headers: seq<Header>, boots: seq<BootInfo>, checkpoint: Hash) {
    Linked(headers, checkpoint) && forall k :: 0 <= k < |boots| ==> HeadIn(headers, boots[k].l1Head)
  }

  lemma InOrderKnown(chain: seq<Header>, boots: seq<BootInfo>, checkpoint: Hash)
    requires InOrder(chain, boots, checkpoint)
    ensures Known(chain, checkpoint) && forall k :: 0 <= k < |boots| ==> Known(chain, boots[k].l1Head)
  {
    hide OnChain;
    var c: nat :| OnChain(chain, checkpoint, c) && HeadsUpTo(chain, boots, c);
    forall k | 0 <= k < |boots| ensures Known(chain, boots[k].l1Head) {
      assert OnChainUpTo(chain, boots[k].l1Head, c);
    }
  }

  lemma CheckpointIs(chain: seq<Header>, checkpoint: Hash)
    requires Canonical(chain) && HeaderByHash(chain, checkpoint).Ok?
    ensures OnChain(chain, checkpoint, HeaderByHash(chain, checkpoint).value.number)
  {
  }

  /** The slice from the earliest head to the checkpoint passes exactly when no head is after the checkpoint. */
  lemma SliceExact(chain: seq<Header>, boots: seq<BootInfo>, checkpoint: Hash, first: Header, headers: seq<Header>)
    requires Canonical(chain) && HeaderByHash(chain, checkpoint).Ok?
    requires first in chain && exists k :: 0 <= k < |boots| && HashOf(first) == boots[k].l1Head
    requires forall k :: 0 <= k < |boots| ==> HeaderByHash(chain, boots[k].l1Head).Ok?
    requires forall k :: 0 <= k < |boots| ==> first.number <= HeaderByHash(chain, boots[k].l1Head).value.number
    requires
      var lo, hi := first.number, HeaderByHash(chain, checkpoint).value.number;
      headers == if lo <= hi < |chain| then chain[lo..hi + 1] else []
    ensures InOrder(chain, boots, checkpoint) <==> Passes(headers, boots, checkpoint)
  {
    hide Canonical, HeadsUpTo, Linked, HeadIn;
    CheckpointIs(chain, checkpoint);
    if InOrder(chain, boots, checkpoint) {
      var c: nat :| OnChain(chain, checkpoint, c) && HeadsUpTo(chain, boots, c);
      SliceHolds(chain, boots, checkpoint, first, c);
    }
    if Passes(headers, boots, checkpoint) {
      SliceWithin(chain, boots, headers, first.number, HeaderByHash(chain, checkpoint).value.number);
    }
  }

  ghost predicate Known(chain: seq<Header>, hash: Hash) {
    exists i: nat :: OnChain(chain, hash, i)
  }

  lemma KnownByHash(chain: seq<Header>, hash: Hash)
    ensures Known(chain, hash) <==> HeaderByHash(chain, hash).Ok?
  {
    if Known(chain, hash) {
      var i: nat :| OnChain(chain, hash, i);
      assert chain[i] in chain;
    }
    if HeaderByHash(chain, hash).Ok? {
      var i :| 0 <= i < |chain| && chain[i] == HeaderByHash(chain, hash).value;
      assert OnChain(chain, hash, i);
    }
  }

  /** Chain block `lo` is the L1 head of a boot info, and no boot info's head is before it. */
  ghost predicate Earliest(chain: seq<Header>, boots: seq<BootInfo>, lo: nat) {
    && (exists k :: 0 <= k < |boots| && OnChain(chain, boots[k].l1Head, lo))
    && (forall k, i: nat :: 0 <= k < |boots| && OnChain(chain, boots[k].l1Head, i) ==> lo <= i)
  }

  lemma EarliestIs(chain: seq<Header>, boots: seq<BootInfo>, first: Header)
    requires Canonical(chain) && first in chain && exists k :: 0 <= k < |boots| && HashOf(first) == boots[k].l1Head
    requires forall k :: 0 <= k < |boots| ==>
      HeaderByHash(chain, boots[k].l1Head).Ok? && first.number <= HeaderByHash(chain, boots[k].l1Head).value.number
    ensures Earliest(chain, boots, first.number)
  {
    var k :| 0 <= k < |boots| && HashOf(first) == boots[k].l1Head;
    assert OnChain(chain, boots[k].l1Head, first.number);
    forall k, i: nat | 0 <= k < |boots| && OnChain(chain, boots[k].l1Head, i) ensures first.number <= i {
      assert HeaderByHash(chain, boots[k].l1Head).value == chain[i];
    }
  }

  /** Heads found in a slice of the chain are on the chain up to the slice's end. */
  lemma SliceWithin(chain: seq<Header>, boots: seq<BootInfo>, slice: seq<Header>, lo: nat, hi: nat)
    requires slice == if lo <= hi < |chain| then chain[lo..hi + 1] else []
    requires forall k :: 0 <= k < |boots| ==> HeadIn(slice, boots[k].l1Head)
    ensures HeadsUpTo(chain, boots, hi)
  {
    forall k | 0 <= k < |boots| ensures OnChainUpTo(chain, boots[k].l1Head, hi) {
      var i :| 0 <= i < |slice| && HashOf(slice[i]) == boots[k].l1Head;
      assert OnChain(chain, boots[k].l1Head, lo + i);
    }
  }

  /** The slice of the chain from the earliest head to the checkpoint passes the program's walk. */
  lemma SliceHolds(chain: seq<Header>, boots: seq<BootInfo>, checkpoint: Hash, first: Header, c: nat)
    requires Canonical(chain) && OnChain(chain, checkpoint, c) && HeadsUpTo(chain, boots, c)
    requires first in chain && exists k :: 0 <= k < |boots| && HashOf(first) == boots[k].l1Head
    requires forall k :: 0 <= k < |boots| ==> HeaderByHash(chain, boots[k].l1Head).Ok?
    requires forall k :: 0 <= k < |boots| ==> first.number <= HeaderByHash(chain, boots[k].l1Head).value.number
    ensures first.number <= c < |chain| && HeaderByHash(chain, checkpoint) == Ok(chain[c]) && chain[c].number == c
    ensures Linked(chain[first.number..c + 1], checkpoint)
    ensures forall k :: 0 <= k < |boots| ==> HeadIn(chain[first.number..c + 1], boots[k].l1Head)
  {
    var k0 :| 0 <= k0 < |boots| && HashOf(first) == boots[k0].l1Head;
    var i0: nat :| i0 <= c && OnChain(chain, boots[k0].l1Head, i0);
    assert chain[i0] == first && first.number == i0;
    assert chain[c] in chain;
    var slice := chain[i0..c + 1];
    assert forall j :: 0 <= j < |slice| ==> slice[j] == chain[i0 + j];
    forall j | 0 <= j < |slice| - 1 ensures HashOf(slice[j]) == slice[j + 1].parent {
      assert chain[i0 + j + 1].parent == HashOf(chain[i0 + j]);
    }
    forall k | 0 <= k < |boots| ensures HeadIn(slice, boots[k].l1Head) {
      var i: nat :| i <= c && OnChain(chain, boots[k].l1Head, i);
      assert HeaderByHash(chain, boots[k].l1Head).value == chain[i];
      assert HashOf(slice[i - i0]) == boots[k].l1Head;
    }
  }

  /** Every boot info's L1 head is the hash of a chain block numbered at most c. */
  ghost predicate HeadsUpTo(chain: seq<Header>, boots: seq<BootInfo>, c: nat) {
    forall k :: 0 <= k < |boots| ==> OnChainUpTo(chain, boots[k].l1Head, c)
  }
}

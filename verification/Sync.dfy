/** The catch-up dialogue between a node and a peer: it ends, never goes back, and reaches the peer. */
module Sync {
  import opened Common
  import opened ConsensusTypes
  import opened NodeTypes
  import opened NodeSpec
  import opened Bookkeeping
  import opened Agreement
  import opened Verdicts
  import Election
  import Slashing
  import ValidatorSet

  datatype Request =
    | GetBlocks(fromHeight: nat, count: nat)
    | GetStatus
    | GetStateSnapshot
    | PushCheckin(entry: Witness)

  datatype Response =
    | Blocks(blocks: seq<Block>)
    | Status(height: nat)
    | StateSnapshot(height: nat, data: Bytes, latestBlock: Block, genesisHash: Hash)
    | CheckinAccepted

  const SNAPSHOT_GAP: nat := 1000
  const BATCH: nat := 20
  const MAX_SERVED: nat := 100

  // ---------------------------------------------------------------- the two sides

  function BlockAt(peer: NodeState, h: nat): Option<Block> {
    if h == peer.latest.height then Some(peer.latest)
    else if h in peer.store then Some(peer.store[h])
    else None
  }

  /** Consecutive blocks from `h` on, up to the first one missing. */
  function Served(peer: NodeState, h: nat, end: nat): seq<Block>
    decreases end - h
  {
    if h >= end || BlockAt(peer, h) == None then [] else [BlockAt(peer, h).value] + Served(peer, h + 1, end)
  }

  function Answer(peer: NodeState, request: Request): Response {
    match request
    case GetBlocks(from, count) => Blocks(Served(peer, from, from + if count <= MAX_SERVED then count else MAX_SERVED))
    case GetStatus => Status(peer.latest.height)
    case PushCheckin(_) => CheckinAccepted
    case GetStateSnapshot =>
      match peer.snapshot
      case None => Status(peer.latest.height)
      case Some(data) => StateSnapshot(peer.latest.height, data, peer.latest, peer.genesisHash)
  }

  datatype BatchResult = BatchResult(node: NodeState, applied: nat, error: Option<Rejection>)

  /** Applies synced blocks in order until one is refused. */
  ghost function ApplyBatch(k: Kernel, s: NodeState, blocks: seq<Block>, clock: nat): BatchResult
    decreases |blocks|
  {
    if blocks == [] then BatchResult(s, 0, None)
    else
      var (t, verdict) := Applied(k, s, blocks[0], true, clock);
      match verdict
      case Refused(why) => BatchResult(t, 0, Some(why))
      case Accepted =>
        var rest := ApplyBatch(k, t, blocks[1..], clock);
        rest.(applied := rest.applied + 1)
  }

  ghost predicate SnapshotTrusted(k: Kernel, s: NodeState, b: Block) {
    var signers := ValidSigners(k, s.active, b);
    && b.hash == k.blockHash(b.HashedPart())
    && IsActive(s.active, b.validator)
    && b.validator in signers && |signers| >= RequiredSigners(|s.active|)
  }

  /** The node rebuilt from a snapshot's world state and block. */
  ghost function Restored(s: NodeState, height: nat, world: World, data: Bytes, b: Block): NodeState {
    var slashing := Slashing.State(world.jailed, [], world.missedSlots, world.assignedSlots, world.processed);
    var restored := s.(
      world := world, snapshot := Some(data), latest := b, store := s.store[b.height := b],
      active := ValidatorSet.Inputs(world.stakes, [], None, 0, COLD_START).Active(), epoch := 1,
      slashing := slashing,
      offline := if s.savedOffline.Some? then s.savedOffline.value else slashing.Offline(),
      lastSnapshotHeight := height);
    if IsEpochBoundary(height) then
      var reset := slashing.CountersReset();
      restored.(slashing := reset, world := WithSlashing(world.(uptime := map[]), reset))
    else restored
  }

  /** How a node reacts to a response: its next state, and what it asks next. */
  ghost function React(k: Kernel, s: NodeState, response: Response, clock: nat): (NodeState, Option<Request>) {
    match response
    case CheckinAccepted => (s, None)
    case Status(height) =>
      if height <= s.latest.height then (s, None)
      else
        var gap := height - s.latest.height;
        if gap > SNAPSHOT_GAP then (s, Some(GetStateSnapshot))
        else (s, Some(GetBlocks(s.latest.height + 1, if gap <= BATCH then gap else BATCH)))
    case Blocks(blocks) =>
      if blocks == [] then (s, Some(GetStateSnapshot))
      else
        var r := ApplyBatch(k, s, blocks, clock);
        if r.applied == |blocks| then (r.node, Some(GetBlocks(r.node.latest.height + 1, BATCH)))
        else if r.applied == 0 && (r.error == Some(PrevHashMismatch) || r.error == Some(StateRootMismatch))
        then (r.node, Some(GetStateSnapshot))
        else (r.node, None)
    case StateSnapshot(height, data, b, genesis) =>
      if height <= s.latest.height then (s, None)
      else if height == s.lastSnapshotHeight then (s, Some(GetStatus))
      else if genesis != s.genesisHash || !SnapshotTrusted(k, s, b) then (s, None)
      else match k.decode(data)
        case None => (s, Some(GetStatus))
        case Some(world) =>
          if k.stateRoot(world) != b.stateRoot then (s, None)
          else (Restored(s, height, world, data, b), Some(GetBlocks(height + 1, BATCH)))
  }

  // ---------------------------------------------------------------- what is served, applied and trusted

  /** A peer serves the blocks it has from the requested height on, as many as asked and at most 100, up to the first gap. */
  lemma {:induction false} ServedMeaning(peer: NodeState, h: nat, end: nat)
    requires h <= end
    ensures var blocks := Served(peer, h, end);
      && |blocks| <= end - h && (|blocks| < end - h ==> BlockAt(peer, h + |blocks|) == None)
      && forall i :: 0 <= i < |blocks| ==> BlockAt(peer, h + i) == Some(blocks[i])
    decreases end - h
  {
    if h < end && BlockAt(peer, h).Some? {
      ServedMeaning(peer, h + 1, end);
      var blocks, rest := Served(peer, h, end), Served(peer, h + 1, end);
      forall i | 0 <= i < |blocks|
        ensures BlockAt(peer, h + i) == Some(blocks[i])
      {
        if i > 0 { assert BlockAt(peer, h + 1 + (i - 1)) == Some(rest[i - 1]); }
      }
    }
  }

  /** What a peer answers: blocks, or its snapshot with the block and the chain it belongs to, or its height. */
  lemma AnswerMeaning(peer: NodeState, h: nat, count: nat)
    ensures Answer(peer, GetStatus) == Status(peer.latest.height)
    ensures Answer(peer, GetStateSnapshot)
         == if peer.snapshot == None then Status(peer.latest.height)
            else StateSnapshot(peer.latest.height, peer.snapshot.value, peer.latest, peer.genesisHash)
    ensures var blocks := Answer(peer, GetBlocks(h, count)).blocks;
      && |blocks| <= count && |blocks| <= 100
      && (|blocks| < count && |blocks| < 100 ==> BlockAt(peer, h + |blocks|) == None)
      && forall i :: 0 <= i < |blocks| ==> BlockAt(peer, h + i) == Some(blocks[i])
  {
    ServedMeaning(peer, h, h + if count <= 100 then count else 100);
  }

  /** A batch is applied block by block: one block is applied as any synced block, and a second part follows a first if all of
    * that was accepted. */
  lemma BatchOfOne(k: Kernel, s: NodeState, b: Block, clock: nat)
    ensures var (t, verdict) := Applied(k, s, b, true, clock);
      ApplyBatch(k, s, [b], clock) == if verdict == Accepted then BatchResult(t, 1, None) else BatchResult(t, 0, Some(verdict.why))
  {
    hide Applied;
    var (t, verdict) := Applied(k, s, b, true, clock);
    assert [b][1..] == [];
    assert ApplyBatch(k, t, [], clock) == BatchResult(t, 0, None);
  }

  lemma {:induction false} BatchInParts(k: Kernel, s: NodeState, xs: seq<Block>, ys: seq<Block>, clock: nat)
    ensures var first := ApplyBatch(k, s, xs, clock);
      ApplyBatch(k, s, xs + ys, clock)
      == if first.error.Some? then first
         else var second := ApplyBatch(k, first.node, ys, clock); second.(applied := first.applied + second.applied)
    decreases |xs|
  {
    hide Applied;
    if xs == [] {
      assert xs + ys == ys;
    } else {
      assert (xs + ys)[1..] == xs[1..] + ys;
      BatchInParts(k, Applied(k, s, xs[0], true, clock).0, xs[1..], ys, clock);
    }
  }

  /** What a node makes of a peer's height: nothing to do, blocks to ask for, at most 20, or a snapshot beyond a gap of 1000. */
  lemma StatusMeaning(k: Kernel, s: NodeState, height: nat, clock: nat)
    ensures var (t, next) := React(k, s, Status(height), clock);
      && t == s
      && (next == None <==> height <= s.latest.height)
      && (next == Some(GetStateSnapshot) <==> height > s.latest.height + 1000)
      && (s.latest.height < height <= s.latest.height + 1000 ==>
            next == Some(GetBlocks(s.latest.height + 1, if height <= s.latest.height + 20 then height - s.latest.height else 20)))
  {
  }

  /** What it makes of blocks: it applies them, asks on when all were accepted, and asks for a snapshot when there were none or the
    * first was refused for its parent or its root. */
  lemma BlocksMeaning(k: Kernel, s: NodeState, blocks: seq<Block>, clock: nat)
    ensures var (t, next) := React(k, s, Blocks(blocks), clock);
      var r := ApplyBatch(k, s, blocks, clock);
      && t == r.node
      && (next.Some? && next.value.GetBlocks? <==> blocks != [] && r.error == None)
      && (next.Some? && next.value.GetBlocks? ==> next.value == GetBlocks(t.latest.height + 1, 20))
      && (next == Some(GetStateSnapshot) <==>
          blocks == [] || (r.applied == 0 && (r.error == Some(PrevHashMismatch) || r.error == Some(StateRootMismatch))))
      && (next.Some? ==> next.value.GetBlocks? || next.value.GetStateSnapshot?)
  {
    BatchClimbs(k, s, blocks, clock);
    hide Applied;
  }

  lemma TrustedIff(k: Kernel, s: NodeState, b: Block)
    ensures SnapshotTrusted(k, s, b) <==>
      b.hash == k.blockHash(b.HashedPart()) && exists ss :: Attests(k, s.active, b, false, ss) && b.validator in ss
  {
    var signers := ValidSigners(k, s.active, b);
    SignersSign(k, s.active, b);
    EnoughIff(k, s.active, b, false);
    assert IsActive(s.active, b.validator) <==> b.validator in Addresses(s.active);
    hide ValidSigners;
    if ss :| Attests(k, s.active, b, false, ss) && b.validator in ss {
      assert Signs(k, s.active, b, b.validator);
      assert EnoughSigners(k, s.active, b, false);
    }
    if SnapshotTrusted(k, s, b) {
      assert Attests(k, s.active, b, false, signers);
    }
  }

  /** Exactly which snapshots a node takes: newer ones, of its own chain, whose block is signed by a quorum of the validators it
    * knows, the block's own among them, and whose data decode to a world with the block's root. Another changes nothing. */
  lemma SnapshotTakenIff(k: Kernel, s: NodeState, height: nat, data: Bytes, b: Block, genesis: Hash, clock: nat)
    ensures var (t, next) := React(k, s, StateSnapshot(height, data, b, genesis), clock);
      if && height > s.latest.height && height != s.lastSnapshotHeight && genesis == s.genesisHash
         && b.hash == k.blockHash(b.HashedPart())
         && (exists ss :: Attests(k, s.active, b, false, ss) && b.validator in ss)
         && k.decode(data).Some? && k.stateRoot(k.decode(data).value) == b.stateRoot
      then t == Restored(s, height, k.decode(data).value, data, b) && next == Some(GetBlocks(height + 1, 20))
      else t == s && next.Some? == (height > s.latest.height && (height == s.lastSnapshotHeight
                                    || (genesis == s.genesisHash && SnapshotTrusted(k, s, b) && k.decode(data) == None)))
  {
    TrustedIff(k, s, b);
    hide SnapshotTrusted, Restored, Attests;
  }

  /** The world and the counters of a node that has taken a snapshot: as decoded, but for the counters and uptimes that an epoch's
    * last block resets. */
  lemma RestoredBooks(s: NodeState, height: nat, world: World, data: Bytes, b: Block)
    ensures var t := Restored(s, height, world, data, b);
      && t.slashing.jailed == world.jailed && t.slashing.processed == world.processed && t.slashing.evidence == []
      && (t.slashing.missedSlots, t.slashing.assignedSlots)
         == (if height > 0 && height % 100 == 0 then (map[], map[]) else (world.missedSlots, world.assignedSlots))
      && t.world == world.(missedSlots := t.slashing.missedSlots, assignedSlots := t.slashing.assignedSlots,
                           uptime := if height > 0 && height % 100 == 0 then map[] else world.uptime)
  {
    hide ValidatorSet.Inputs.Active, Slashing.State.Offline;
  }

  /** What else it holds: the snapshot and its block, the first epoch, and the offline set it had saved. */
  lemma RestoredMeaning(s: NodeState, height: nat, world: World, data: Bytes, b: Block)
    ensures var t := Restored(s, height, world, data, b);
      && t.active == ValidatorSet.Inputs(world.stakes, [], None, 0, COLD_START).Active()
      && (s.savedOffline.Some? ==> t.offline == s.savedOffline.value)
      && t == s.(world := t.world, snapshot := Some(data), latest := b, store := s.store[b.height := b], active := t.active,
                 epoch := 1, slashing := t.slashing, offline := t.offline, lastSnapshotHeight := height)
  {
    hide ValidatorSet.Inputs.Active, Slashing.State.Offline, Slashing.State.CountersReset, WithSlashing;
  }

  // ---------------------------------------------------------------- termination

  /** Stored blocks are filed by height up to the tip; some may have been pruned. */
  ghost predicate Filed(peer: NodeState) {
    forall h :: h in peer.store ==> h <= peer.latest.height && peer.store[h].height == h
  }

  /** A peer with its blocks in order and a snapshot that decodes. */
  ghost predicate Honest(k: Kernel, peer: NodeState) {
    Filed(peer) && peer.snapshot.Some? && k.decode(peer.snapshot.value).Some?
  }

  /** The node stands at or above the last snapshot it took. */
  predicate Anchored(s: NodeState) {
    s.lastSnapshotHeight <= s.latest.height
  }

  function Gap(peer: NodeState, s: NodeState): nat {
    if s.latest.height < peer.latest.height then peer.latest.height - s.latest.height else 0
  }

  function Rank(request: Request): nat {
    match request
    case GetStatus => 2
    case GetBlocks(_, _) => 1
    case GetStateSnapshot => 0
    case PushCheckin(_) => 0
  }

  lemma ConcludedHeight(k: Kernel, s: NodeState, b: Block, w: World, fees: nat)
    ensures var (t, verdict) := Concluded(k, s, b, w, fees);
      && t.lastSnapshotHeight == s.lastSnapshotHeight
      && t.latest == if verdict == Accepted then b else s.latest
  {
    hide VerifyCheckins, AllInserted, ValidatorSet.Inputs.Active;
  }

  lemma AppliedHeight(k: Kernel, s: NodeState, b: Block, isSync: bool, clock: nat)
    ensures var (t, verdict) := Applied(k, s, b, isSync, clock);
      && t.lastSnapshotHeight == s.lastSnapshotHeight
      && (verdict == Accepted ==> b.height == s.latest.height + 1 && t.latest == b)
      && (verdict != Accepted ==> t.latest == s.latest)
  {
    hide VerifierSlashing, ReplayWorld, ProposerAllowed, EnoughSigners, Concluded;
    if HeaderFault(k, s, b, isSync, clock) == None && ProposerAllowed(k, s, b) {
      match ReplayWorld(k, s, b)
      case None =>
      case Some((w, fees)) => ConcludedHeight(k, s.(slashing := VerifierSlashing(k, s, b)), b, w, fees);
    }
  }

  lemma {:induction false} BatchClimbs(k: Kernel, s: NodeState, blocks: seq<Block>, clock: nat)
    ensures var r := ApplyBatch(k, s, blocks, clock);
      && r.applied <= |blocks| && (r.error == None <==> r.applied == |blocks|)
      && r.node.latest.height == s.latest.height + r.applied
      && r.node.lastSnapshotHeight == s.lastSnapshotHeight
      && (forall i :: 0 <= i < r.applied ==> blocks[i].height == s.latest.height + 1 + i)
    decreases |blocks|
  {
    if blocks != [] {
      AppliedHeight(k, s, blocks[0], true, clock);
      var (t, verdict) := Applied(k, s, blocks[0], true, clock);
      if verdict == Accepted {
        BatchClimbs(k, t, blocks[1..], clock);
        var r := ApplyBatch(k, s, blocks, clock);
        forall i | 0 <= i < r.applied
          ensures blocks[i].height == s.latest.height + 1 + i
        {
          if i > 0 { assert blocks[i] == blocks[1..][i - 1]; }
        }
      }
    }
  }

  lemma {:induction false} ServedBelowTip(peer: NodeState, h: nat, end: nat)
    requires Filed(peer)
    ensures |Served(peer, h, end)| <= if h <= end then end - h else 0
    ensures forall i :: 0 <= i < |Served(peer, h, end)| ==> Served(peer, h, end)[i].height <= peer.latest.height
    decreases end - h
  {
    if h < end && BlockAt(peer, h).Some? {
      ServedBelowTip(peer, h + 1, end);
    }
  }

  /** One exchange never lowers the node, and every follow-up brings it closer in the measure (gap, rank). */
  lemma ExchangeProgresses(k: Kernel, peer: NodeState, s: NodeState, request: Request, clock: nat)
    requires Honest(k, peer) && Anchored(s)
    ensures var (t, next) := React(k, s, Answer(peer, request), clock);
      && Anchored(t) && t.latest.height >= s.latest.height
      && (next.Some? ==> Gap(peer, t) < Gap(peer, s) || (Gap(peer, t) == Gap(peer, s) && Rank(next.value) < Rank(request)))
  {
    match request
    case GetBlocks(from, count) =>
      var blocks := Answer(peer, request).blocks;
      ServedBelowTip(peer, from, from + if count <= MAX_SERVED then count else MAX_SERVED);
      BatchClimbs(k, s, blocks, clock);
      var r := ApplyBatch(k, s, blocks, clock);
      if r.applied > 0 {
        assert blocks[r.applied - 1].height == s.latest.height + r.applied;
      }
    case _ =>
  }

  /** The whole dialogue. That it is a function at all is its termination. */
  ghost function Dialogue(k: Kernel, peer: NodeState, s: NodeState, request: Request, clocks: nat -> nat, turn: nat): NodeState
    requires Honest(k, peer) && Anchored(s)
    decreases Gap(peer, s), Rank(request)
  {
    ExchangeProgresses(k, peer, s, request, clocks(turn));
    var (t, next) := React(k, s, Answer(peer, request), clocks(turn));
    if next == None then t else Dialogue(k, peer, t, next.value, clocks, turn + 1)
  }

  /** The follower's height never drops. */
  lemma {:induction false} DialogueNeverGoesBack(k: Kernel, peer: NodeState, s: NodeState, request: Request, clocks: nat -> nat, turn: nat)
    requires Honest(k, peer) && Anchored(s)
    ensures Dialogue(k, peer, s, request, clocks, turn).latest.height >= s.latest.height
    decreases Gap(peer, s), Rank(request)
  {
    ExchangeProgresses(k, peer, s, request, clocks(turn));
    var (t, next) := React(k, s, Answer(peer, request), clocks(turn));
    if next.Some? {
      DialogueNeverGoesBack(k, peer, t, next.value, clocks, turn + 1);
    }
  }

  // ---------------------------------------------------------------- catching up

  /** All offered blocks apply; an offered newer snapshot is taken. */
  ghost predicate OfferTaken(k: Kernel, s: NodeState, response: Response, clock: nat) {
    match response
    case Blocks(blocks) => ApplyBatch(k, s, blocks, clock).applied == |blocks|
    case StateSnapshot(height, _, b, _) => height <= s.latest.height || React(k, s, response, clock).0.latest.height == height
    case _ => true
  }

  /** Every offer of the dialogue is taken. */
  ghost predicate AllTaken(k: Kernel, peer: NodeState, s: NodeState, request: Request, clocks: nat -> nat, turn: nat)
    requires Honest(k, peer) && Anchored(s)
    decreases Gap(peer, s), Rank(request)
  {
    ExchangeProgresses(k, peer, s, request, clocks(turn));
    var (t, next) := React(k, s, Answer(peer, request), clocks(turn));
    && OfferTaken(k, s, Answer(peer, request), clocks(turn))
    && (next.Some? ==> AllTaken(k, peer, t, next.value, clocks, turn + 1))
  }

  /** If every offer is taken, the dialogue ends at the peer's height. */
  lemma {:induction false} DialogueCatchesUp(k: Kernel, peer: NodeState, s: NodeState, request: Request, clocks: nat -> nat, turn: nat)
    requires Honest(k, peer) && Anchored(s) && s.latest.height <= peer.latest.height && !request.PushCheckin?
    requires AllTaken(k, peer, s, request, clocks, turn)
    ensures Dialogue(k, peer, s, request, clocks, turn).latest.height == peer.latest.height
    decreases Gap(peer, s), Rank(request)
  {
    hide Applied, ApplyBatch, Restored, SnapshotTrusted, Served;
    ExchangeProgresses(k, peer, s, request, clocks(turn));
    var response := Answer(peer, request);
    var (t, next) := React(k, s, response, clocks(turn));
    if request.GetBlocks? {
      ServedBelowTip(peer, request.fromHeight, request.fromHeight + if request.count <= MAX_SERVED then request.count else MAX_SERVED);
      BatchClimbs(k, s, response.blocks, clocks(turn));
      if response.blocks != [] {
        var n := |response.blocks|;
        assert response.blocks[n - 1].height == s.latest.height + n;
      }
    }
    if next.Some? {
      DialogueCatchesUp(k, peer, t, next.value, clocks, turn + 1);
    }
  }

  // ---------------------------------------------------------------- catching up with an honest chain

  /** States of a node that was at the head of the chain all along, and the blocks that lead from each to the next. */
  datatype History = History(states: seq<NodeState>, blocks: seq<Block>, times: seq<nat>, elapsed: seq<nat>)

  ghost predicate IsHistory(k: Kernel, h: History) {
    && |h.states| == |h.blocks| + 1 && |h.times| == |h.elapsed| == |h.blocks|
    && forall i :: 0 <= i < |h.blocks| ==>
        && Sound(k, h.states[i]) && MayProduce(k, h.states[i], h.elapsed[i])
        && h.states[i].latest.timestamp <= h.times[i] && LeavesNoTrace(k, h.states[i], h.times[i])
        && CarriesBlock(k, h.states[i], h.times[i], h.blocks[i])
        && Agree(AfterProducing(k, h.states[i], h.times[i]), h.states[i + 1])
  }

  /** A node that agrees with the chain's state i accepts the next n blocks and then agrees with state i + n. */
  lemma {:induction false} BatchFollowsHistory(k: Kernel, h: History, v: NodeState, i: nat, n: nat, clock: nat)
    requires k.Lawful() && IsHistory(k, h) && i + n <= |h.blocks|
    requires Agree(h.states[i], v)
    requires forall j :: i <= j < i + n ==> h.times[j] <= clock + 30
    ensures var r := ApplyBatch(k, v, h.blocks[i..i + n], clock);
      r.applied == n && r.error == None && Agree(h.states[i + n], r.node)
    decreases n
  {
    hide Applied, AfterProducing, CarriesBlock, MayProduce, Sound, Agree, Kernel.Lawful, LeavesNoTrace;
    if n > 0 {
      var p, b := h.states[i], h.blocks[i];
      SmallOrSyncingNetworkAccepts(k, p, v, h.times[i], h.elapsed[i], b, true, clock);
      ProducedBlockIsAccepted(k, p, v, h.times[i], h.elapsed[i], b, true, clock);
      var t := Applied(k, v, b, true, clock).0;
      FollowAgreement(AfterProducing(k, p, h.times[i]), h.states[i + 1], t);
      BatchFollowsHistory(k, h, t, i + 1, n - 1, clock);
      assert h.blocks[i..i + n][1..] == h.blocks[i + 1..i + 1 + (n - 1)];
    }
  }

  lemma FollowAgreement(p: NodeState, q: NodeState, v: NodeState)
    requires Agree(p, q) && Agree(p, v)
    ensures Agree(q, v)
  {
  }

  /** The peer holds the whole stretch of history. */
  ghost predicate Keeps(peer: NodeState, h: History) {
    && |h.states| == |h.blocks| + 1
    && peer.latest.height == h.states[0].latest.height + |h.blocks|
    && forall i :: 0 <= i < |h.blocks| ==> BlockAt(peer, h.states[0].latest.height + 1 + i) == Some(h.blocks[i])
  }

  lemma ProductionClimbs(k: Kernel, s: NodeState, now: nat)
    ensures AfterProducing(k, s, now).latest.height == s.latest.height + 1
  {
    hide ProduceWorld, ValidatorSet.Inputs.Active;
  }

  lemma {:induction false} HistoryHeights(k: Kernel, h: History, i: nat)
    requires IsHistory(k, h) && i < |h.states|
    ensures h.states[i].latest.height == h.states[0].latest.height + i
  {
    hide AfterProducing, Sound, MayProduce, CarriesBlock, LeavesNoTrace;
    if i > 0 {
      HistoryHeights(k, h, i - 1);
      ProductionClimbs(k, h.states[i - 1], h.times[i - 1]);
      assert Agree(AfterProducing(k, h.states[i - 1], h.times[i - 1]), h.states[i]);
    }
  }

  /** What the peer serves is the next stretch of history. */
  lemma {:induction false} ServedIsHistory(peer: NodeState, h: History, i: nat, end: nat)
    requires Filed(peer) && Keeps(peer, h) && i <= |h.blocks| && end >= h.states[0].latest.height + 1 + i
    ensures var from, stop := h.states[0].latest.height + 1 + i, end - (h.states[0].latest.height + 1);
      Served(peer, from, end) == h.blocks[i..if stop <= |h.blocks| then stop else |h.blocks|]
    decreases end - i
  {
    var base := h.states[0].latest.height + 1;
    if i < |h.blocks| && base + i < end {
      ServedIsHistory(peer, h, i + 1, end);
      var stop := if end - base <= |h.blocks| then end - base else |h.blocks|;
      assert BlockAt(peer, base + i) == Some(h.blocks[i]);
      assert h.blocks[i..stop] == [h.blocks[i]] + h.blocks[i + 1..stop];
    } else if i == |h.blocks| && base + i < end {
      assert BlockAt(peer, base + i) == None;
    }
  }

  /** Closing the dialogue at the peer's height: an empty batch, a stale snapshot, the end. */
  lemma DialogueAtTip(k: Kernel, peer: NodeState, v: NodeState, count: nat, clocks: nat -> nat, turn: nat)
    requires Honest(k, peer) && Anchored(v) && v.latest.height == peer.latest.height
    ensures Dialogue(k, peer, v, GetBlocks(v.latest.height + 1, count), clocks, turn) == v
  {
    assert BlockAt(peer, v.latest.height + 1) == None;
    assert Answer(peer, GetBlocks(v.latest.height + 1, count)) == Blocks([]);
    assert Dialogue(k, peer, v, GetStateSnapshot, clocks, turn + 1) == v;
  }

  /** One batch of history: the node agrees with a later state and asks for more. */
  lemma BatchExchange(k: Kernel, peer: NodeState, h: History, v: NodeState, i: nat, count: nat, clock: nat) returns (t: NodeState, n: nat)
    requires k.Lawful() && IsHistory(k, h) && Filed(peer) && Keeps(peer, h)
    requires Anchored(v) && i < |h.blocks| && Agree(h.states[i], v) && 1 <= count <= MAX_SERVED
    requires forall j :: 0 <= j < |h.blocks| ==> h.times[j] <= clock + 30
    ensures React(k, v, Answer(peer, GetBlocks(v.latest.height + 1, count)), clock) == (t, Some(GetBlocks(t.latest.height + 1, BATCH)))
    ensures i < n <= |h.blocks| && Anchored(t) && Agree(h.states[n], t)
  {
    hide Applied, ApplyBatch, Restored, SnapshotTrusted, Served, CarriesBlock, AfterProducing, MayProduce, Sound, Kernel.Lawful, LeavesNoTrace;
    HistoryHeights(k, h, i);
    n := if i + count <= |h.blocks| then i + count else |h.blocks|;
    ServedIsHistory(peer, h, i, v.latest.height + 1 + count);
    assert Answer(peer, GetBlocks(v.latest.height + 1, count)) == Blocks(h.blocks[i..n]);
    BatchFollowsHistory(k, h, v, i, n - i, clock);
    BatchClimbs(k, v, h.blocks[i..n], clock);
    t := ApplyBatch(k, v, h.blocks[i..n], clock).node;
  }

  /** A node that agrees with the chain's past ends the dialogue agreeing with its present. */
  lemma {:induction false} SyncReachesAgreement(k: Kernel, peer: NodeState, h: History, v: NodeState, i: nat, count: nat,
                                                clocks: nat -> nat, turn: nat)
    requires k.Lawful() && IsHistory(k, h) && Honest(k, peer) && Keeps(peer, h)
    requires Anchored(v) && i <= |h.blocks| && Agree(h.states[i], v) && 1 <= count <= MAX_SERVED
    requires forall j, n :: 0 <= j < |h.blocks| ==> h.times[j] <= clocks(n) + 30
    ensures Agree(h.states[|h.blocks|], Dialogue(k, peer, v, GetBlocks(v.latest.height + 1, count), clocks, turn))
    decreases |h.blocks| - i
  {
    hide React, IsHistory, Filed, Keeps, Kernel.Lawful, Agree;
    if i == |h.blocks| {
      AgreedTip(k, peer, h, v);
      DialogueAtTip(k, peer, v, count, clocks, turn);
    } else {
      var t, n := BatchExchange(k, peer, h, v, i, count, clocks(turn));
      SyncReachesAgreement(k, peer, h, t, n, BATCH, clocks, turn + 1);
    }
  }

  lemma AgreedTip(k: Kernel, peer: NodeState, h: History, v: NodeState)
    requires IsHistory(k, h) && Keeps(peer, h) && Agree(h.states[|h.blocks|], v)
    ensures v.latest.height == peer.latest.height
  {
    HistoryHeights(k, h, |h.blocks|);
  }

  /** The same from a status request, as long as the node is not so far behind that it asks for a snapshot. */
  lemma StatusReachesAgreement(k: Kernel, peer: NodeState, h: History, v: NodeState, i: nat, clocks: nat -> nat)
    requires k.Lawful() && IsHistory(k, h) && Honest(k, peer) && Keeps(peer, h)
    requires Anchored(v) && i <= |h.blocks| <= i + SNAPSHOT_GAP && Agree(h.states[i], v)
    requires forall j, n :: 0 <= j < |h.blocks| ==> h.times[j] <= clocks(n) + 30
    ensures Agree(h.states[|h.blocks|], Dialogue(k, peer, v, GetStatus, clocks, 0))
  {
    hide IsHistory, Kernel.Lawful, Applied, ApplyBatch, Restored, SnapshotTrusted, Served;
    HistoryHeights(k, h, i);
    if i < |h.blocks| {
      var gap := |h.blocks| - i;
      SyncReachesAgreement(k, peer, h, v, i, if gap <= BATCH then gap else BATCH, clocks, 1);
    }
  }

  // ---------------------------------------------------------------- snapshots

  /** The dialogue ends within n exchanges. */
  ghost predicate EndsWithin(k: Kernel, peer: NodeState, s: NodeState, request: Request, clocks: nat -> nat, turn: nat, n: nat)
    decreases n
  {
    && n > 0
    && var (t, next) := React(k, s, Answer(peer, request), clocks(turn));
    next == None || EndsWithin(k, peer, t, next.value, clocks, turn + 1, n - 1)
  }

  ghost predicate Ends(k: Kernel, peer: NodeState, s: NodeState, request: Request, clocks: nat -> nat, turn: nat) {
    exists n: nat :: EndsWithin(k, peer, s, request, clocks, turn, n)
  }

  /** One exchange first. */
  lemma EndsNext(k: Kernel, peer: NodeState, s: NodeState, request: Request, clocks: nat -> nat, turn: nat)
    ensures var (t, next) := React(k, s, Answer(peer, request), clocks(turn));
      Ends(k, peer, s, request, clocks, turn) <==> next == None || Ends(k, peer, t, next.value, clocks, turn + 1)
  {
    hide React, Answer;
    var (t, next) := React(k, s, Answer(peer, request), clocks(turn));
    if next == None {
      assert EndsWithin(k, peer, s, request, clocks, turn, 1);
    } else {
      if n: nat :| EndsWithin(k, peer, s, request, clocks, turn, n) {
        assert EndsWithin(k, peer, t, next.value, clocks, turn + 1, n - 1);
      }
      var later := turn + 1;
      if n: nat :| EndsWithin(k, peer, t, next.value, clocks, later, n) {
        assert EndsWithin(k, peer, s, request, clocks, turn, n + 1);
      }
    }
  }

  /** There is a snapshot, and if the node gets as far as decoding it, it decodes. */
  ghost predicate SnapshotSettles(k: Kernel, peer: NodeState, s: NodeState) {
    && peer.snapshot.Some?
    && (peer.genesisHash == s.genesisHash && SnapshotTrusted(k, s, peer.latest) ==> k.decode(peer.snapshot.value).Some?)
  }

  /** The slot counters after the block has been tried j times: each try records a miss if a fallback produced it. */
  function Retried(k: Kernel, s: NodeState, b: Block, j: nat): Slashing.State {
    if j == 0 then s.slashing else VerifierSlashing(k, s.(slashing := Retried(k, s, b, j - 1)), b)
  }

  /** The block links up, but however often it is tried its state root is not the one this node computes. */
  ghost predicate RefusedForever(k: Kernel, s: NodeState, b: Block) {
    forall j :: Applied(k, s.(slashing := Retried(k, s, b, j)), b, true, b.timestamp).1 == Refused(StateRootMismatch)
  }

  /** Behind, and blocks do not help: too far behind to ask for them, or the next one is missing, of another chain, or
    * refused for its state root at every try. */
  ghost predicate Stalled(k: Kernel, peer: NodeState, s: NodeState, clocks: nat -> nat) {
    && s.latest.height < peer.latest.height
    && (s.latest.height + SNAPSHOT_GAP < peer.latest.height
        || match BlockAt(peer, s.latest.height + 1)
           case None => true
           case Some(b) =>
             b.prevHash != s.latest.hash || (RefusedForever(k, s, b) && forall n :: b.timestamp <= clocks(n) + 30))
  }

  /** The request that a status above its own height makes a node send. */
  function AfterStatus(s: NodeState, height: nat): Request
    requires s.latest.height < height
  {
    var gap := height - s.latest.height;
    if gap > SNAPSHOT_GAP then GetStateSnapshot else GetBlocks(s.latest.height + 1, if gap <= BATCH then gap else BATCH)
  }

  lemma {:induction false} RetriedShifts(k: Kernel, s: NodeState, t: NodeState, b: Block, j: nat)
    requires t == s.(slashing := VerifierSlashing(k, s, b), cache := t.cache)
    ensures Retried(k, t, b, j) == Retried(k, s, b, j + 1)
  {
    hide VerifierSlashing;
    if j == 0 {
      assert Retried(k, s, b, 0) == s.slashing && s.(slashing := s.slashing) == s;
    } else {
      RetriedShifts(k, s, t, b, j - 1);
      var x := Retried(k, s, b, j);
      SlotsIgnoreCache(k, t.(slashing := x), s.(slashing := x), b);
    }
  }

  lemma SlotsIgnoreCache(k: Kernel, s: NodeState, t: NodeState, b: Block)
    requires t == s.(cache := t.cache)
    ensures VerifierSlashing(k, t, b) == VerifierSlashing(k, s, b)
  {
  }

  /** The verdict depends on the cache not at all, and on the clock only if the block is from the future. */
  lemma VerdictIgnoresCache(k: Kernel, s: NodeState, t: NodeState, b: Block, clock: nat)
    requires t == s.(cache := t.cache) && b.timestamp <= clock + 30
    ensures Applied(k, t, b, true, clock).1 == Applied(k, s, b, true, b.timestamp).1
  {
    hide Rotated, Adopted, AllInserted, VerifyCheckins, Supply, FeeBurn, EnoughSigners, Rewarded, Replay, Election.Proposer,
      Election.Fallback;
  }

  lemma RootRefusal(k: Kernel, s: NodeState, b: Block, clock: nat)
    requires Applied(k, s, b, true, clock).1 == Refused(StateRootMismatch)
    ensures var t := Applied(k, s, b, true, clock).0; t == s.(slashing := VerifierSlashing(k, s, b), cache := t.cache)
  {
    hide HeaderFault, ProposerAllowed, VerifierSlashing, ReplayWorld, Concluded;
    assert HeaderFault(k, s, b, true, clock) != Some(StateRootMismatch) by { HeaderChecksNoRoot(k, s, b, clock); }
    var (w, fees) := ReplayWorld(k, s, b).value;
    ConclusionRefusal(k, s.(slashing := VerifierSlashing(k, s, b)), b, w, fees);
  }

  lemma HeaderChecksNoRoot(k: Kernel, s: NodeState, b: Block, clock: nat)
    ensures HeaderFault(k, s, b, true, clock) != Some(StateRootMismatch)
  {
    hide EnoughSigners;
  }

  lemma ConclusionRefusal(k: Kernel, s: NodeState, b: Block, w: World, fees: nat)
    requires Concluded(k, s, b, w, fees).1 == Refused(StateRootMismatch)
    ensures var t := Concluded(k, s, b, w, fees).0; t == s.(cache := t.cache)
  {
    hide VerifyCheckins, Supply, FeeBurn, AllInserted, Rotated, Adopted;
  }

  /** A block refused at every try is refused at this one, and at every try thereafter. */
  lemma RefusalRepeats(k: Kernel, s: NodeState, b: Block, clock: nat)
    requires RefusedForever(k, s, b) && b.timestamp <= clock + 30
    ensures var (t, verdict) := Applied(k, s, b, true, clock);
      && verdict == Refused(StateRootMismatch) && t == s.(slashing := t.slashing, cache := t.cache)
      && RefusedForever(k, t, b)
  {
    hide Applied, VerifierSlashing;
    assert Retried(k, s, b, 0) == s.slashing && s.(slashing := s.slashing) == s;
    VerdictIgnoresCache(k, s, s, b, clock);
    RootRefusal(k, s, b, clock);
    var t := Applied(k, s, b, true, clock).0;
    forall j: nat
      ensures Applied(k, t.(slashing := Retried(k, t, b, j)), b, true, b.timestamp).1 == Refused(StateRootMismatch)
    {
      RetriedShifts(k, s, t, b, j);
      var x := Retried(k, s, b, j + 1);
      assert Applied(k, s.(slashing := x), b, true, b.timestamp).1 == Refused(StateRootMismatch);
      VerdictIgnoresCache(k, s.(slashing := x), t.(slashing := x), b, b.timestamp);
    }
  }

  /** Equal but for slot counters and cache, which the rest of the dialogue does not read. */
  predicate SameStanding(s: NodeState, t: NodeState) {
    t == s.(slashing := t.slashing, cache := t.cache)
  }

  /** Stalled, a status or a batch leaves the node where it is, still stalled, and leads to asking for a snapshot. */
  lemma StalledAsks(k: Kernel, peer: NodeState, s: NodeState, clocks: nat -> nat, turn: nat)
    requires Filed(peer) && Stalled(k, peer, s, clocks)
    ensures var ask := AfterStatus(s, peer.latest.height);
      && React(k, s, Answer(peer, GetStatus), clocks(turn)) == (s, Some(ask))
      && (ask != GetStateSnapshot ==>
            var (t, next) := React(k, s, Answer(peer, ask), clocks(turn));
            next == Some(GetStateSnapshot) && SameStanding(s, t) && Stalled(k, peer, t, clocks))
  {
    hide Restored, SnapshotTrusted, Applied, RefusedForever;
    var h := s.latest.height + 1;
    if s.latest.height + SNAPSHOT_GAP >= peer.latest.height {
      match BlockAt(peer, h)
      case None =>
      case Some(b) =>
        if b.prevHash != s.latest.hash {
          ForeignBlockIsRefused(k, s, b, clocks(turn));
        } else {
          RefusalRepeats(k, s, b, clocks(turn));
        }
    }
  }

  lemma ForeignBlockIsRefused(k: Kernel, s: NodeState, b: Block, clock: nat)
    requires b.height == s.latest.height + 1 && b.prevHash != s.latest.hash
    ensures Applied(k, s, b, true, clock) == (s, Refused(PrevHashMismatch))
  {
    hide ProposerAllowed, VerifierSlashing, ReplayWorld, Concluded, EnoughSigners;
  }

  lemma SettlesAlike(k: Kernel, peer: NodeState, s: NodeState, t: NodeState)
    requires SameStanding(s, t)
    ensures SnapshotSettles(k, peer, t) <==> SnapshotSettles(k, peer, s)
    ensures Anchored(t) <==> Anchored(s)
  {
  }

  lemma {:induction false} UnsettledNeverEnds(k: Kernel, peer: NodeState, s: NodeState, clocks: nat -> nat, turn: nat, n: nat)
    requires Filed(peer) && Stalled(k, peer, s, clocks) && Anchored(s) && !SnapshotSettles(k, peer, s)
    ensures !EndsWithin(k, peer, s, GetStatus, clocks, turn, n) && !EndsWithin(k, peer, s, GetStateSnapshot, clocks, turn, n)
    ensures !EndsWithin(k, peer, s, AfterStatus(s, peer.latest.height), clocks, turn, n)
    decreases n
  {
    hide Restored, SnapshotTrusted, ApplyBatch, Served, RefusedForever;
    if n > 0 {
      StalledAsks(k, peer, s, clocks, turn);
      UnsettledNeverEnds(k, peer, s, clocks, turn + 1, n - 1);
      var t := React(k, s, Answer(peer, AfterStatus(s, peer.latest.height)), clocks(turn)).0;
      if s.latest.height + SNAPSHOT_GAP >= peer.latest.height {
        SettlesAlike(k, peer, s, t);
        UnsettledNeverEnds(k, peer, t, clocks, turn + 1, n - 1);
      }
    }
  }

  /** At the peer's height an empty batch and whatever then answers the request for a snapshot end the dialogue. */
  lemma TipEnds(k: Kernel, peer: NodeState, s: NodeState, count: nat, clocks: nat -> nat, turn: nat)
    requires Filed(peer) && s.latest.height == peer.latest.height
    ensures Ends(k, peer, s, GetBlocks(s.latest.height + 1, count), clocks, turn)
  {
    hide SnapshotTrusted, ApplyBatch, Restored;
    assert BlockAt(peer, s.latest.height + 1) == None;
    assert Answer(peer, GetBlocks(s.latest.height + 1, count)) == Blocks([]);
    EndsNext(k, peer, s, GetBlocks(s.latest.height + 1, count), clocks, turn);
    EndsNext(k, peer, s, GetStateSnapshot, clocks, turn + 1);
  }

  /** A snapshot that settles ends the dialogue or takes the node to the peer's tip. */
  lemma JumpLands(k: Kernel, peer: NodeState, s: NodeState, clock: nat)
    requires s.latest.height < peer.latest.height && Anchored(s) && SnapshotSettles(k, peer, s)
    ensures var (t, next) := React(k, s, Answer(peer, GetStateSnapshot), clock);
      next.Some? ==> t.latest == peer.latest && next == Some(GetBlocks(peer.latest.height + 1, BATCH))
  {
    hide SnapshotTrusted, ApplyBatch, ValidatorSet.Inputs.Active, Slashing.State.Offline, Slashing.State.CountersReset, Served;
  }

  /** After the jump two more exchanges close the dialogue: an empty batch and a stale snapshot. */
  lemma JumpEnds(k: Kernel, peer: NodeState, s: NodeState, clocks: nat -> nat, turn: nat)
    requires s.latest.height < peer.latest.height && Anchored(s) && SnapshotSettles(k, peer, s) && Filed(peer)
    ensures Ends(k, peer, s, GetStateSnapshot, clocks, turn)
  {
    hide React, Answer, SnapshotSettles, Ends;
    EndsNext(k, peer, s, GetStateSnapshot, clocks, turn);
    JumpLands(k, peer, s, clocks(turn));
    var (t, next) := React(k, s, Answer(peer, GetStateSnapshot), clocks(turn));
    if next.Some? {
      TipEnds(k, peer, t, BATCH, clocks, turn + 1);
    }
  }

  /** When blocks do not help, the dialogue ends exactly when the peer has a snapshot that settles it. */
  lemma StalledEndsIff(k: Kernel, peer: NodeState, s: NodeState, clocks: nat -> nat)
    requires Filed(peer) && Stalled(k, peer, s, clocks) && Anchored(s)
    ensures Ends(k, peer, s, GetStatus, clocks, 0) <==> SnapshotSettles(k, peer, s)
  {
    hide React, Answer, SnapshotSettles, BlockAt, EndsWithin, RefusedForever;
    if SnapshotSettles(k, peer, s) {
      StalledAsks(k, peer, s, clocks, 0);
      StalledAsks(k, peer, s, clocks, 1);
      var ask := AfterStatus(s, peer.latest.height);
      EndsNext(k, peer, s, GetStatus, clocks, 0);
      if ask == GetStateSnapshot {
        JumpEnds(k, peer, s, clocks, 1);
      } else {
        var t := React(k, s, Answer(peer, ask), clocks(1)).0;
        SettlesAlike(k, peer, s, t);
        EndsNext(k, peer, s, ask, clocks, 1);
        JumpEnds(k, peer, t, clocks, 2);
      }
    } else {
      forall n: nat
        ensures !EndsWithin(k, peer, s, GetStatus, clocks, 0, n)
      {
        UnsettledNeverEnds(k, peer, s, clocks, 0, n);
      }
    }
  }

  /** The peer holds the history from index m on; earlier blocks are pruned. */
  ghost predicate KeepsFrom(peer: NodeState, h: History, m: nat) {
    && |h.states| == |h.blocks| + 1 && m <= |h.blocks|
    && peer.latest.height == h.states[0].latest.height + |h.blocks|
    && forall i :: 0 <= i < |h.blocks| ==>
        BlockAt(peer, h.states[0].latest.height + 1 + i) == if i < m then None else Some(h.blocks[i])
  }

  function Suffix(h: History, m: nat): History
    requires m <= |h.states| && m <= |h.blocks| && m <= |h.times| && m <= |h.elapsed|
  {
    History(h.states[m..], h.blocks[m..], h.times[m..], h.elapsed[m..])
  }

  lemma SuffixParts(k: Kernel, h: History, m: nat, i: nat)
    requires IsHistory(k, h) && m <= i <= |h.blocks|
    ensures |h.times| == |h.elapsed| == |h.blocks| && |h.states| == |h.blocks| + 1
    ensures Suffix(h, m).states[i - m] == h.states[i]
    ensures |Suffix(h, m).blocks| == |h.blocks| - m && |Suffix(h, m).states| == |h.states| - m
  {
  }

  lemma SuffixIsHistory(k: Kernel, h: History, m: nat)
    requires IsHistory(k, h) && m <= |h.blocks|
    ensures IsHistory(k, Suffix(h, m))
  {
    hide Sound, MayProduce, LeavesNoTrace, CarriesBlock, Agree, AfterProducing;
  }

  lemma KeptTip(peer: NodeState, h: History, m: nat)
    requires KeepsFrom(peer, h, m)
    ensures m <= |h.blocks| && |h.states| == |h.blocks| + 1
    ensures peer.latest.height == h.states[0].latest.height + |h.blocks|
  {
  }

  lemma KeptBlock(peer: NodeState, h: History, m: nat, j: nat)
    requires KeepsFrom(peer, h, m) && m <= j < |h.blocks|
    ensures BlockAt(peer, h.states[0].latest.height + 1 + j) == Some(h.blocks[j])
  {
    hide BlockAt;
  }

  lemma SuffixIsKept(k: Kernel, peer: NodeState, h: History, m: nat)
    requires IsHistory(k, h) && KeepsFrom(peer, h, m)
    ensures Keeps(peer, Suffix(h, m))
  {
    hide BlockAt, IsHistory, KeepsFrom, Suffix;
    KeptTip(peer, h, m);
    HistoryHeights(k, h, m);
    SuffixParts(k, h, m, m);
    var r := Suffix(h, m);
    forall i | 0 <= i < |r.blocks|
      ensures BlockAt(peer, r.states[0].latest.height + 1 + i) == Some(r.blocks[i])
    {
      KeptBlock(peer, h, m, m + i);
      SuffixBlock(h, m, i);
    }
  }

  lemma SuffixBlock(h: History, m: nat, i: nat)
    requires m <= |h.states| && m <= |h.times| && m <= |h.elapsed| && m + i < |h.blocks|
    ensures Suffix(h, m).blocks[i] == h.blocks[m + i]
  {
  }

  /** Where no block is missing, asking for blocks leads to the tip and to the end, with or without a snapshot. */
  lemma {:induction false} CatchUpEnds(k: Kernel, peer: NodeState, h: History, v: NodeState, i: nat, count: nat,
                                       clocks: nat -> nat, turn: nat)
    requires k.Lawful() && IsHistory(k, h) && Filed(peer) && Keeps(peer, h)
    requires Anchored(v) && i <= |h.blocks| && Agree(h.states[i], v) && 1 <= count <= MAX_SERVED
    requires forall j, n :: 0 <= j < |h.blocks| ==> h.times[j] <= clocks(n) + 30
    ensures Ends(k, peer, v, GetBlocks(v.latest.height + 1, count), clocks, turn)
    decreases |h.blocks| - i
  {
    hide React, Answer, IsHistory, Filed, Keeps, Kernel.Lawful, Agree, Ends;
    if i == |h.blocks| {
      AgreedTip(k, peer, h, v);
      TipEnds(k, peer, v, count, clocks, turn);
    } else {
      var t, n := BatchExchange(k, peer, h, v, i, count, clocks(turn));
      EndsNext(k, peer, v, GetBlocks(v.latest.height + 1, count), clocks, turn);
      CatchUpEnds(k, peer, h, t, n, BATCH, clocks, turn + 1);
    }
  }

  /** When exactly the dialogue of a node that agrees with the chain's past ends: it is at most 1000 blocks behind a peer that
    * still holds the next block, or that peer's snapshot settles it. */
  lemma StatusEndsIff(k: Kernel, peer: NodeState, h: History, m: nat, v: NodeState, i: nat, clocks: nat -> nat)
    requires k.Lawful() && IsHistory(k, h) && Filed(peer) && KeepsFrom(peer, h, m)
    requires Anchored(v) && i <= |h.blocks| && Agree(h.states[i], v)
    requires forall j, n :: 0 <= j < |h.blocks| ==> h.times[j] <= clocks(n) + 30
    ensures Ends(k, peer, v, GetStatus, clocks, 0)
       <==> (m <= i && |h.blocks| - i <= SNAPSHOT_GAP) || SnapshotSettles(k, peer, v)
  {
    hide IsHistory, Kernel.Lawful, Applied, ApplyBatch, Restored, SnapshotTrusted, SnapshotSettles, Served, Ends;
    HistoryHeights(k, h, i);
    var gap := |h.blocks| - i;
    if gap == 0 {
      EndsNext(k, peer, v, GetStatus, clocks, 0);
    } else if m <= i && gap <= SNAPSHOT_GAP {
      SuffixParts(k, h, m, i);
      SuffixIsHistory(k, h, m);
      SuffixIsKept(k, peer, h, m);
      CatchUpEnds(k, peer, Suffix(h, m), v, i - m, if gap <= BATCH then gap else BATCH, clocks, 1);
      EndsNext(k, peer, v, GetStatus, clocks, 0);
    } else {
      var next := h.blocks[i];
      assert BlockAt(peer, v.latest.height + 1) == if i < m then None else Some(next);
      StalledEndsIff(k, peer, v, clocks);
    }
  }

  /** A node restored from what a peer stored with its tip has the peer's world but for what serialization skips, unless a
    * jail term ended at that very epoch boundary. */
  lemma RestoredWorldIff(k: Kernel, p: NodeState, b: Block, w: World, d: World, s: NodeState)
    requires w == WithSlashing(w, p.slashing)
    requires k.decode(k.encode(w)) == Some(d) && d == w.(runtime := d.runtime)
    ensures var peer, restored := Rotated(Adopted(k, p, b, w), b.height), Restored(s, b.height, d, k.encode(w), b);
      && peer.snapshot == Some(k.encode(w))
      && (restored.world == peer.world.(runtime := d.runtime) && restored.slashing == peer.slashing.(evidence := [])
          <==> !IsEpochBoundary(b.height) || p.slashing.Expired(b.height) == {})
  {
    hide ValidatorSet.Inputs.Active, Slashing.State.Offline;
    var peer, restored := Rotated(Adopted(k, p, b, w), b.height), Restored(s, b.height, d, k.encode(w), b);
    if IsEpochBoundary(b.height) {
      assert peer.world.jailed == w.jailed - p.slashing.Expired(b.height) && restored.world.jailed == w.jailed;
      if a :| a in p.slashing.Expired(b.height) {
        assert a in restored.world.jailed && a !in peer.world.jailed;
      } else {
        assert w.jailed - p.slashing.Expired(b.height) == w.jailed;
      }
    }
  }

  lemma RestoredParts(s: NodeState, height: nat, world: World, data: Bytes, b: Block)
    ensures var t := Restored(s, height, world, data, b);
      && t.cache == s.cache && t.latest == b && t.store == s.store[b.height := b]
      && t.world.ledger == world.ledger && t.world.miners == world.miners && t.world.stakes == world.stakes
  {
    hide ValidatorSet.Inputs.Active, Slashing.State.Offline, Slashing.State.CountersReset, WithSlashing, IsEpochBoundary;
    var slashing := Slashing.State(world.jailed, [], world.missedSlots, world.assignedSlots, world.processed);
    SlashingParts(world.(uptime := map[]), slashing.CountersReset());
  }

  lemma SlashingParts(w: World, sl: Slashing.State)
    ensures var v := WithSlashing(w, sl); v.ledger == w.ledger && v.miners == w.miners && v.stakes == w.stakes
  {
  }

  /** Restoring keeps a node sound: its cache refers to blocks below the new tip, and the books are those of a peer in order. */
  lemma RestoredStaysSound(k: Kernel, peer: NodeState, s: NodeState, d: World, data: Bytes)
    requires Sound(k, s) && s.latest.height < peer.latest.height && Booked(peer.world, peer.latest.height + 1)
    requires d.ledger == peer.world.ledger && d.miners == peer.world.miners && d.stakes == peer.world.stakes
    ensures Sound(k, Restored(s, peer.latest.height, d, data, peer.latest))
  {
    hide Booked, Restored, Supply;
    var t := Restored(s, peer.latest.height, d, data, peer.latest);
    RestoredParts(s, peer.latest.height, d, data, peer.latest);
    OtherFieldsDoNotMatter(t.world, peer.world);
    forall e, m | e in t.cache && m in t.cache[e]
      ensures Grounded(k, t, t.cache[e][m])
    {
      assert Grounded(k, s, s.cache[e][m]);
    }
  }
}

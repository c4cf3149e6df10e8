/** The handlers of the sync protocol, over the node they guard. */
module Chain {
  import opened Common
  import opened ConsensusTypes
  import opened NodeTypes
  import opened NodeSpec
  import opened Sync
  import Node
  import Slashing
  import ValidatorSet

  class Chain {
    const inner: Node.ChainInner

    constructor (inner: Node.ChainInner)
      ensures this.inner == inner
    {
      this.inner := inner;
    }

    /** Consecutive blocks from memory or the store; stops at the first one missing. */
    method CollectBlocks(from: nat, end: nat) returns (blocks: seq<Block>)
      ensures blocks == Served(inner.Value(), from, end)
    {
      blocks := [];
      var h := from;
      while h < end
        invariant Served(inner.Value(), from, end) == blocks + Served(inner.Value(), h, end)
      {
        if h == inner.latest.height {
          blocks := blocks + [inner.latest];
        } else if h in inner.store {
          blocks := blocks + [inner.store[h]];
        } else {
          return blocks;
        }
        h := h + 1;
      }
    }

    method HandleSyncRequest(request: Request) returns (r: Response)
      ensures r == Answer(inner.Value(), request)
    {
      match request
      case GetBlocks(from, count) =>
        var capped := if count <= MAX_SERVED then count else MAX_SERVED;
        var blocks := CollectBlocks(from, from + capped);
        return Blocks(blocks);
      case GetStatus => return Status(inner.latest.height);
      case PushCheckin(_) => return CheckinAccepted;
      case GetStateSnapshot =>
        if inner.snapshot == None { return Status(inner.latest.height); }
        return StateSnapshot(inner.latest.height, inner.snapshot.value, inner.latest, inner.genesisHash);
    }

    /** Applies synced blocks in order until one is refused. */
    method ApplySyncedBlocks(blocks: seq<Block>, clock: nat) returns (applied: nat, error: Option<Rejection>)
      requires inner.Valid()
      modifies inner, inner.slashing, inner.validators, inner.checkins
      ensures inner.Valid()
      ensures BatchResult(inner.Value(), applied, error) == ApplyBatch(inner.k, old(inner.Value()), blocks, clock)
    {
      hide Applied;
      applied, error := 0, None;
      while applied < |blocks|
        invariant inner.Valid() && applied <= |blocks|
        invariant var rest := ApplyBatch(inner.k, inner.Value(), blocks[applied..], clock);
          ApplyBatch(inner.k, old(inner.Value()), blocks, clock) == rest.(applied := rest.applied + applied)
      {
        assert blocks[applied..][1..] == blocks[applied + 1..];
        var verdict := inner.ApplyRemoteBlock(blocks[applied], true, clock);
        if verdict.Refused? {
          return applied, Some(verdict.why);
        }
        applied := applied + 1;
      }
    }

    /** The checks of a snapshot's block against the current validators. */
    method CheckSnapshotBlock(b: Block) returns (trusted: bool)
      ensures trusted == SnapshotTrusted(inner.k, inner.Value(), b)
    {
      if b.hash != inner.k.blockHash(b.HashedPart()) { return false; }
      if !IsActive(inner.validators.active, b.validator) { return false; }
      var signers := inner.CollectSigners(b);
      if b.validator !in signers { return false; }
      var n := |inner.validators.active|;
      var required := if n < 7 then 1 else Quorum(n);
      return |signers| >= required;
    }

    /** Validators from the snapshot's stakes alone, slashing state as the snapshot persisted it. */
    method RestoreConsensus(world: World)
      requires inner.Valid()
      modifies inner.slashing, inner.validators
      ensures inner.Valid() && inner.validators.epoch == 1
      ensures inner.validators.active == ValidatorSet.Inputs(world.stakes, [], None, 0, COLD_START).Active()
      ensures inner.slashing.Value() == Slashing.State(world.jailed, [], world.missedSlots, world.assignedSlots, world.processed)
    {
      hide ValidatorSet.Inputs.Active;
      inner.validators.epoch := 0;
      inner.validators.RecalculateActive(world.stakes, [], None, 0);
      inner.slashing.jailed, inner.slashing.evidence := world.jailed, [];
      inner.slashing.missedSlots, inner.slashing.assignedSlots := world.missedSlots, world.assignedSlots;
      inner.slashing.processed := world.processed;
    }

    /** The persisted set; recomputed from the slot counters if there is none. */
    method RestoreOffline()
      modifies inner`offline
      ensures inner.offline == if inner.savedOffline.Some? then inner.savedOffline.value else inner.slashing.Value().Offline()
    {
      if inner.savedOffline.Some? {
        inner.offline := inner.savedOffline.value;
      } else {
        inner.offline := inner.slashing.ProcessDowntimePenalties();
      }
    }

    /** Epoch rotation is replayed at a boundary: the snapshot was stored before it. */
    method ReplayRotation(height: nat)
      modifies inner`world, inner.slashing
      ensures var reset := old(inner.slashing.Value()).CountersReset();
        if IsEpochBoundary(height) then
          inner.slashing.Value() == reset && inner.world == WithSlashing(old(inner.world).(uptime := map[]), reset)
        else inner.slashing.Value() == old(inner.slashing.Value()) && inner.world == old(inner.world)
    {
      if IsEpochBoundary(height) {
        inner.slashing.ResetEpochCounters();
        inner.world := inner.world.(uptime := map[]);
        inner.SyncSlashingToWorld();
      }
    }

    /** Replaces state, validators, slashing and tip by what the snapshot holds. */
    method Restore(height: nat, world: World, data: Bytes, b: Block)
      requires inner.Valid()
      modifies inner, inner.slashing, inner.validators
      ensures inner.Valid() && inner.Value() == Restored(old(inner.Value()), height, world, data, b)
    {
      hide ValidatorSet.Inputs.Active, Slashing.State.Offline;
      inner.snapshot := Some(data);
      RestoreConsensus(world);
      RestoreOffline();
      inner.world, inner.latest := world, b;
      inner.store := inner.store[b.height := b];
      inner.lastSnapshotHeight := height;
      ReplayRotation(height);
    }

    method TakeSnapshot(height: nat, data: Bytes, b: Block, genesis: Hash) returns (next: Option<Request>)
      requires inner.Valid()
      modifies inner, inner.slashing, inner.validators
      ensures inner.Valid()
      ensures forall clock ::
        (inner.Value(), next) == React(inner.k, old(inner.Value()), StateSnapshot(height, data, b, genesis), clock)
    {
      hide Restored, SnapshotTrusted;
      if height <= inner.latest.height { return None; }
      if height == inner.lastSnapshotHeight { return Some(GetStatus); }
      if genesis != inner.genesisHash { return None; }
      var trusted := CheckSnapshotBlock(b);
      if !trusted { return None; }
      var decoded := inner.k.decode(data);
      if decoded == None { return Some(GetStatus); }
      if inner.k.stateRoot(decoded.value) != b.stateRoot { return None; }
      Restore(height, decoded.value, data, b);
      return Some(GetBlocks(height + 1, BATCH));
    }

    /** Handles a response; returns what to ask next. */
    method HandleSyncResponse(response: Response, clock: nat) returns (next: Option<Request>)
      requires inner.Valid()
      modifies inner, inner.slashing, inner.validators, inner.checkins
      ensures inner.Valid() && (inner.Value(), next) == React(inner.k, old(inner.Value()), response, clock)
    {
      hide Restored, SnapshotTrusted, ApplyBatch;
      match response
      case Blocks(blocks) =>
        if blocks == [] { return Some(GetStateSnapshot); }
        var applied, error := ApplySyncedBlocks(blocks, clock);
        if applied == 0 && (error == Some(PrevHashMismatch) || error == Some(StateRootMismatch)) {
          BatchClimbs(inner.k, old(inner.Value()), blocks, clock);
          return Some(GetStateSnapshot);
        }
        return if applied == |blocks| then Some(GetBlocks(inner.latest.height + 1, BATCH)) else None;
      case Status(height) =>
        if height <= inner.latest.height { return None; }
        var gap := height - inner.latest.height;
        if gap > SNAPSHOT_GAP { return Some(GetStateSnapshot); }
        return Some(GetBlocks(inner.latest.height + 1, if gap <= BATCH then gap else BATCH));
      case StateSnapshot(height, data, b, genesis) =>
        next := TakeSnapshot(height, data, b, genesis);
      case CheckinAccepted => return None;
    }
  }
}

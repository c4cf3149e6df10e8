/** The cache of miner check-in witnesses. */
module Checkins {
  import opened ConsensusTypes
  import opened NodeTypes

  type Cache = map<nat, map<Address, Witness>>

  function At(c: Cache, epoch: nat): map<Address, Witness> {
    if epoch in c then c[epoch] else map[]
  }

  function Inserted(c: Cache, w: Witness): Cache {
    c[w.epoch := At(c, w.epoch)[w.miner := w]]
  }

  function Swept(c: Cache, currentEpoch: nat): Cache {
    map e | e in c && e >= Previous(currentEpoch) :: c[e]
  }

  /** Unregistered miners count as credited. */
  predicate Credited(miners: map<Address, nat>, m: Address, epoch: nat) {
    m !in miners || miners[m] >= epoch
  }

  /** Witnesses of one epoch whose miners have not checked in for that epoch yet. */
  function Fresh(c: Cache, epoch: nat, miners: map<Address, nat>): map<Address, Witness> {
    map m | m in At(c, epoch) && !Credited(miners, m, epoch) :: At(c, epoch)[m]
  }

  /** Per miner the witness of the current epoch, or after V3.1 else that of the previous one. */
  function Pending(c: Cache, epoch: nat, miners: map<Address, nat>, v31: bool): map<Address, Witness> {
    if v31 then Fresh(c, Previous(epoch), miners) + Fresh(c, epoch, miners) else Fresh(c, epoch, miners)
  }

  /** Every witness is filed under its own epoch and miner. */
  ghost predicate WellFiled(c: Cache) {
    forall e, m :: e in c && m in c[e] ==> c[e][m].epoch == e && c[e][m].miner == m
  }

  class CheckinCache {
    var entries: Cache

    constructor ()
      ensures entries == map[]
    {
      entries := map[];
    }

    method Insert(w: Witness)
      modifies this
      ensures entries == Inserted(old(entries), w)
    {
      var bucket := At(entries, w.epoch);
      entries := entries[w.epoch := bucket[w.miner := w]];
    }

    /** The two epochs are visited current first; within an epoch the order does not matter. */
    method GetPending(epoch: nat, miners: map<Address, nat>, v31: bool) returns (byMiner: map<Address, Witness>)
      requires WellFiled(entries)
      ensures byMiner == Pending(entries, epoch, miners, v31)
    {
      var epochs := if v31 then [epoch, Previous(epoch)] else [epoch];
      byMiner := map[];
      for i := 0 to |epochs|
        invariant i >= 1 ==> byMiner == if i == 1 then Fresh(entries, epoch, miners) else Pending(entries, epoch, miners, v31)
        invariant i == 0 ==> byMiner == map[]
      {
        byMiner := AddFresh(epochs[i], miners, byMiner);
      }
    }

    /** Adds the fresh witnesses of one epoch for miners not listed yet. */
    method AddFresh(e: nat, miners: map<Address, nat>, start: map<Address, Witness>) returns (byMiner: map<Address, Witness>)
      requires WellFiled(entries)
      ensures byMiner == Fresh(entries, e, miners) + start
    {
      byMiner := start;
      var bucket := At(entries, e);
      var pending := bucket.Keys;
      while pending != {}
        invariant pending <= bucket.Keys
        invariant forall m :: m in byMiner <==> m in start || (m in bucket && m !in pending && !Credited(miners, m, e))
        invariant forall m :: m in byMiner ==> byMiner[m] == if m in start then start[m] else bucket[m]
        decreases |pending|
      {
        var m :| m in pending;
        var w := bucket[m];
        pending := pending - {m};
        var alreadyCredited := if w.miner in miners then miners[w.miner] >= e else true;
        if !alreadyCredited && w.miner !in byMiner {
          byMiner := byMiner[w.miner := w];
        }
      }
      assert byMiner.Keys == (Fresh(entries, e, miners) + start).Keys;
    }

    method Gc(currentEpoch: nat)
      modifies this
      ensures entries == Swept(old(entries), currentEpoch)
    {
      entries := map e | e in entries && e >= Previous(currentEpoch) :: entries[e];
    }
  }

  /** What can be said of any witness `get_pending` offers. */
  lemma PendingIsFresh(c: Cache, epoch: nat, miners: map<Address, nat>, v31: bool, m: Address)
    requires WellFiled(c) && m in Pending(c, epoch, miners, v31)
    ensures var w := Pending(c, epoch, miners, v31)[m];
      && w.miner == m && m in miners && miners[m] < w.epoch
      && (w.epoch == epoch || (v31 && w.epoch == Previous(epoch)))
      && w.epoch in c && m in c[w.epoch] && c[w.epoch][m] == w
  {
  }

  // ---------------------------------------------------------------- garbage collection

  datatype CacheOp = Insert(entry: Witness) | Gc(epoch: nat)

  function Run(c: Cache, ops: seq<CacheOp>): Cache {
    if ops == [] then c
    else
      var before := Run(c, ops[..|ops| - 1]);
      match ops[|ops| - 1]
      case Insert(w) => Inserted(before, w)
      case Gc(e) => Swept(before, e)
  }

  function WithoutGc(ops: seq<CacheOp>): seq<CacheOp> {
    if ops == [] then []
    else WithoutGc(ops[..|ops| - 1]) + if ops[|ops| - 1].Gc? then [] else [ops[|ops| - 1]]
  }

  ghost predicate GcUpTo(ops: seq<CacheOp>, epoch: nat) {
    forall i :: 0 <= i < |ops| && ops[i].Gc? ==> ops[i].epoch <= epoch
  }

  lemma {:induction false} GcKeepsRecent(c: Cache, ops: seq<CacheOp>, epoch: nat, e: nat)
    requires GcUpTo(ops, epoch) && e >= Previous(epoch)
    ensures At(Run(c, ops), e) == At(Run(c, WithoutGc(ops)), e)
  {
    if ops != [] {
      var front, op := ops[..|ops| - 1], ops[|ops| - 1];
      assert GcUpTo(front, epoch) by {
        forall i | 0 <= i < |front| && front[i].Gc? ensures front[i].epoch <= epoch { assert ops[i] == front[i]; }
      }
      GcKeepsRecent(c, front, epoch, e);
      if op.Gc? {
        assert WithoutGc(ops) == WithoutGc(front);
      } else {
        assert WithoutGc(ops)[..|WithoutGc(ops)| - 1] == WithoutGc(front);
      }
    }
  }

  /** Collecting garbage is unobservable: a query for the current or any later epoch answers as if it never ran. */
  lemma GcIsUnobservable(c: Cache, ops: seq<CacheOp>, epoch: nat, miners: map<Address, nat>, v31: bool)
    requires GcUpTo(ops, epoch)
    ensures Pending(Run(c, ops), epoch, miners, v31) == Pending(Run(c, WithoutGc(ops)), epoch, miners, v31)
  {
    GcKeepsRecent(c, ops, epoch, epoch);
    GcKeepsRecent(c, ops, epoch, Previous(epoch));
  }
}

/** Vote collection for one height, and why two quorums overlap in honest validators. */
module Voting {
  import opened Common
  import opened ConsensusTypes

  datatype Vote = Vote(blockHash: Hash, height: nat, voter: Address, signature: Signature)

  datatype VoteResult =
    | Pending(votes: nat, needed: nat)
    | Finalized(votes: nat)
    | Conflict(voter: Address)

  /** Does `voter`'s key accept this signature over (hash, height)? */
  type Verifier = (Address, Hash, nat, Signature) -> bool

  datatype Tally = Tally(height: nat, expectedHash: Hash, active: seq<ActiveValidator>, votes: map<Address, Vote>) {

    function Current(): VoteResult {
      if |votes| >= Quorum(|active|) then Finalized(|votes|) else Pending(|votes|, Quorum(|active|))
    }

    /** The votes held are correctly signed, for this height and hash, by active validators. */
    ghost predicate Sound(verify: Verifier) {
      forall a :: a in votes ==>
        && a in Addresses(active)
        && votes[a].voter == a && votes[a].height == height && votes[a].blockHash == expectedHash
        && verify(a, expectedHash, height, votes[a].signature)
    }
  }

  class VoteCollector {
    const height: nat
    const expectedHash: Hash
    const active: seq<ActiveValidator>
    const verify: Verifier
    var votes: map<Address, Vote>

    function Value(): Tally
      reads this
    {
      Tally(height, expectedHash, active, votes)
    }

    constructor (height: nat, expectedHash: Hash, active: seq<ActiveValidator>, verify: Verifier)
      ensures Value() == Tally(height, expectedHash, active, map[]) && this.verify == verify
      ensures Value().Sound(verify)
    {
      this.height, this.expectedHash, this.active, this.verify := height, expectedHash, active, verify;
      votes := map[];
    }

    /** A vote enters the tally exactly when it is the voter's first and passes every check. */
    method AddVote(vote: Vote) returns (r: Result<VoteResult, string>)
      requires Value().Sound(verify)
      modifies this
      ensures Value().Sound(verify)
      ensures var accepted := vote.voter in Addresses(active) && vote.height == height && vote.voter !in old(votes)
            && verify(vote.voter, vote.blockHash, vote.height, vote.signature) && vote.blockHash == expectedHash;
        votes == if accepted then old(votes)[vote.voter := vote] else old(votes)
      ensures r.Ok? <==> (vote.voter in votes && vote.height == height)
      ensures r.Ok? ==> r.value == if vote.blockHash == expectedHash then Value().Current() else Conflict(vote.voter)
    {
      if !IsActive(active, vote.voter) {
        return Err("voter is not an active validator");
      }
      if vote.height != height {
        return Err("vote height mismatch");
      }
      if vote.voter in votes {
        if votes[vote.voter].blockHash != vote.blockHash {
          return Ok(Conflict(vote.voter));
        }
        return Ok(Value().Current());
      }
      if !verify(vote.voter, vote.blockHash, vote.height, vote.signature) {
        return Err("invalid vote signature");
      }
      if vote.blockHash != expectedHash {
        return Err("vote for unexpected block hash");
      }
      votes := votes[vote.voter := vote];
      return Ok(Value().Current());
    }
  }

  // ---------------------------------------------------------------- quorum intersection

  /** Two quorums among the same n validators share more than a third of them. */
  lemma QuorumsOverlap(active: seq<ActiveValidator>, a: set<Address>, b: set<Address>)
    requires active != [] && a <= Addresses(active) && b <= Addresses(active)
    requires |a| >= Quorum(|active|) && |b| >= Quorum(|active|)
    ensures 3 * |a * b| > |active|
  {
    AddressesAreFew(active);
    Subset(a + b, Addresses(active));
    assert |a + b| == |a| + |b| - |a * b|;
  }

  lemma {:induction false} Subset(a: set<Address>, b: set<Address>)
    requires a <= b
    ensures |a| <= |b|
    decreases |a|
  {
    if x :| x in a {
      Subset(a - {x}, b - {x});
    }
  }

  /** `a` signed this hash at this height. */
  ghost predicate Signed(verify: Verifier, a: Address, h: Hash, height: nat) {
    exists s :: verify(a, h, height, s)
  }

  ghost function DoubleSigners(verify: Verifier, active: seq<ActiveValidator>, height: nat, h1: Hash, h2: Hash): set<Address> {
    set a | a in Addresses(active) && Signed(verify, a, h1, height) && Signed(verify, a, h2, height)
  }

  /** Finalizing two hashes at one height takes more than a third of the validators signing both. */
  lemma ConflictingFinality(verify: Verifier, s: Tally, t: Tally)
    requires s.Sound(verify) && t.Sound(verify)
    requires s.active == t.active && s.height == t.height && s.active != []
    requires s.Current().Finalized? && t.Current().Finalized?
    ensures 3 * |DoubleSigners(verify, s.active, s.height, s.expectedHash, t.expectedHash)| > |s.active|
  {
    QuorumsOverlap(s.active, s.votes.Keys, t.votes.Keys);
    var both := DoubleSigners(verify, s.active, s.height, s.expectedHash, t.expectedHash);
    forall a | a in s.votes.Keys * t.votes.Keys
      ensures a in both
    {
      assert verify(a, s.expectedHash, s.height, s.votes[a].signature);
      assert verify(a, t.expectedHash, t.height, t.votes[a].signature);
    }
    Subset(s.votes.Keys * t.votes.Keys, both);
  }

  /** With at most floor((n-1)/3) validators who sign two hashes at a height, finalized hashes agree. */
  lemma FinalityIsUnique(verify: Verifier, s: Tally, t: Tally, faulty: set<Address>)
    requires s.Sound(verify) && t.Sound(verify)
    requires s.active == t.active && s.height == t.height && s.active != []
    requires s.Current().Finalized? && t.Current().Finalized?
    requires |faulty| <= (|s.active| - 1) / 3
    requires forall a, h1, h2 ::
      (a in Addresses(s.active) && Signed(verify, a, h1, s.height) && Signed(verify, a, h2, s.height) && h1 != h2)
      ==> a in faulty
    ensures s.expectedHash == t.expectedHash
  {
    if s.expectedHash != t.expectedHash {
      var both := DoubleSigners(verify, s.active, s.height, s.expectedHash, t.expectedHash);
      ConflictingFinality(verify, s, t);
      Subset(both, faulty);
    }
  }

  /** The bound needs a validator: over an empty set every hash is final before any vote. */
  lemma EmptySetFinalizesAnything(height: nat, h: Hash)
    ensures Tally(height, h, [], map[]).Current() == Finalized(0)
  {
  }

  /** More votes never undo finality. */
  lemma FinalityIsStable(s: Tally, t: Tally)
    requires s.active == t.active && s.votes.Keys <= t.votes.Keys && s.Current().Finalized?
    ensures t.Current().Finalized?
  {
    Subset(s.votes.Keys, t.votes.Keys);
  }
}

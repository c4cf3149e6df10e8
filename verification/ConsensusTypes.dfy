/** Constants and records shared by the consensus components. */
module ConsensusTypes {

  /** 32-byte keys and hashes, ordered and compared as the numbers they spell. */
  type Address = nat
  type Hash = nat
  type Signature = nat

  const MIN_STAKE: nat := 10_000_000_000_000
  const MAX_VALIDATORS: nat := 21
  const EPOCH_LENGTH: nat := 100
  const MINER_EPOCH_LENGTH: nat := 100
  const CHECKIN_V3_HEIGHT: nat := 280_500

  /** More than two thirds of n validators. */
  function Quorum(n: nat): nat {
    if n == 0 then 0 else 2 * n / 3 + 1
  }

  datatype WeightConfig = WeightConfig(stakeBps: nat, scoreBps: nat)

  const COLD_START := WeightConfig(7000, 3000)

  datatype ActiveValidator = ActiveValidator(address: Address, stake: nat, agentScore: nat, weight: nat)

  function Addresses(validators: seq<ActiveValidator>): set<Address> {
    set i | 0 <= i < |validators| :: validators[i].address
  }

  predicate IsActive(validators: seq<ActiveValidator>, a: Address) {
    exists i :: 0 <= i < |validators| && validators[i].address == a
  }

  /** A list has no more addresses than entries. */
  lemma {:induction false} AddressesAreFew(validators: seq<ActiveValidator>)
    ensures |Addresses(validators)| <= |validators|
  {
    if validators != [] {
      var last := |validators| - 1;
      AddressesAreFew(validators[..last]);
      assert Addresses(validators) == Addresses(validators[..last]) + {validators[last].address};
    }
  }
}

/** Equivocation penalties, jail terms and slot counters. */
module Slashing {
  import opened Common
  import opened ConsensusTypes

  const EQUIVOCATION_SLASH_BPS: nat := 1000
  const DOWNTIME_THRESHOLD_PERCENT: nat := 50
  const JAIL_DURATION: nat := EPOCH_LENGTH

  datatype Evidence = Evidence(
    validator: Address, height: nat,
    hashA: Hash, signatureA: seq<nat>,
    hashB: Hash, signatureB: seq<nat>)

  /** Foreign cryptography: the evidence fingerprint, key decoding, signature decoding and checking. */
  datatype Crypto = Crypto(
    fingerprint: (Address, nat, Hash, Hash) -> Hash,
    keyDecodes: Address -> bool,
    verifies: (Address, Hash, seq<nat>) -> bool)

  datatype State = State(
    jailed: map<Address, nat>,
    evidence: seq<Evidence>,
    missedSlots: map<Address, nat>,
    assignedSlots: map<Address, nat>,
    processed: set<Hash>)
  {
    predicate IsJailed(a: Address, height: nat) {
      a in jailed && height < jailed[a]
    }

    function RecordAssigned(a: Address): State {
      this.(assignedSlots := assignedSlots[a := Get(assignedSlots, a) + 1])
    }

    function RecordMissed(a: Address): State {
      this.(missedSlots := missedSlots[a := Get(missedSlots, a) + 1])
    }

    predicate IsOffline(a: Address) {
      a in assignedSlots && assignedSlots[a] > 0 && Get(missedSlots, a) * 100 / assignedSlots[a] > DOWNTIME_THRESHOLD_PERCENT
    }

    /** Validators that missed more than 50 whole percent of their slots. */
    function Offline(): set<Address> {
      set a | a in assignedSlots && IsOffline(a)
    }

    function Expired(height: nat): set<Address> {
      set a | a in jailed && height >= jailed[a]
    }

    function Unjailed(height: nat): State {
      this.(jailed := jailed - Expired(height))
    }

    function CountersReset(): State {
      this.(missedSlots := map[], assignedSlots := map[], evidence := [])
    }
  }

  /** What slashing leaves of one stake; nothing when the rest falls below the minimum. */
  function Remaining(stake: nat): (r: Option<nat>)
    ensures r.Some? ==> r.value <= stake
    ensures r.Some? && stake >= MIN_STAKE ==> r.value >= MIN_STAKE
  {
    var cut := stake * EQUIVOCATION_SLASH_BPS / 10_000;
    if cut == 0 then Some(stake)
    else if stake - cut < MIN_STAKE then None
    else Some(stake - cut)
  }

  function StakesAfterSlash(stakes: map<Address, nat>, a: Address): map<Address, nat>
    requires a in stakes
  {
    match Remaining(stakes[a])
    case None => stakes - {a}
    case Some(rest) => stakes[a := rest]
  }

  /** What leaves circulation: the cut, or the whole stake when its entry is removed. */
  function Burned(stake: nat): nat {
    match Remaining(stake)
    case None => stake
    case Some(rest) => stake - rest
  }

  /** Why a report is refused, in the order the checks are made. */
  function Objection(c: Crypto, s: State, stakes: map<Address, nat>, e: Evidence): Option<string> {
    if c.fingerprint(e.validator, e.height, e.hashA, e.hashB) in s.processed then Some("equivocation evidence already processed")
    else if e.hashA == e.hashB then Some("equivocation evidence has identical block hashes")
    else if e.signatureA == e.signatureB then Some("equivocation evidence has identical signatures")
    else if e.validator !in stakes then Some("validator has no active stake")
    else if !c.keyDecodes(e.validator) then Some("invalid validator public key")
    else if !c.verifies(e.validator, e.hashA, e.signatureA) then Some("signature_a verification failed")
    else if !c.verifies(e.validator, e.hashB, e.signatureB) then Some("signature_b verification failed")
    else None
  }

  function Punished(c: Crypto, s: State, e: Evidence, height: nat): State {
    s.(jailed := s.jailed[e.validator := height + JAIL_DURATION],
       processed := s.processed + {c.fingerprint(e.validator, e.height, e.hashA, e.hashB)},
       evidence := s.evidence + [e])
  }

  /** The stakes table of the world state, which the penalties update in place. */
  class StakeTable {
    var stakes: map<Address, nat>

    constructor (stakes: map<Address, nat>)
      ensures this.stakes == stakes
    {
      this.stakes := stakes;
    }

    method Slash(a: Address) returns (burned: nat)
      modifies this
      ensures a in old(stakes) ==>
        stakes == StakesAfterSlash(old(stakes), a) && burned == Burned(old(stakes)[a])
      ensures a !in old(stakes) ==> stakes == old(stakes) && burned == 0
    {
      if a !in stakes {
        return 0;
      }
      var stake := stakes[a];
      var cut := stake * EQUIVOCATION_SLASH_BPS / 10_000;
      if cut == 0 {
        assert stakes[a := stake] == stakes;
        return 0;
      }
      if stake - cut < MIN_STAKE {
        stakes := stakes - {a};
        return stake;
      }
      stakes := stakes[a := stake - cut];
      return cut;
    }
  }

  class SlashingState {
    const crypto: Crypto
    var jailed: map<Address, nat>
    var evidence: seq<Evidence>
    var missedSlots: map<Address, nat>
    var assignedSlots: map<Address, nat>
    var processed: set<Hash>

    function Value(): State
      reads this
    {
      State(jailed, evidence, missedSlots, assignedSlots, processed)
    }

    constructor (crypto: Crypto)
      ensures Value() == State(map[], [], map[], map[], {}) && this.crypto == crypto
    {
      this.crypto := crypto;
      jailed, evidence, missedSlots, assignedSlots, processed := map[], [], map[], map[], {};
    }

    method ReportEquivocation(e: Evidence, table: StakeTable, height: nat) returns (r: Result<nat, string>)
      modifies this, table
      ensures match Objection(crypto, old(Value()), old(table.stakes), e)
        case Some(why) => r == Err(why) && Value() == old(Value()) && table.stakes == old(table.stakes)
        case None =>
          && Value() == Punished(crypto, old(Value()), e, height)
          && table.stakes == StakesAfterSlash(old(table.stakes), e.validator)
          && r == Ok(Burned(old(table.stakes)[e.validator]))
    {
      var fingerprint := crypto.fingerprint(e.validator, e.height, e.hashA, e.hashB);
      if fingerprint in processed { return Err("equivocation evidence already processed"); }
      if e.hashA == e.hashB { return Err("equivocation evidence has identical block hashes"); }
      if e.signatureA == e.signatureB { return Err("equivocation evidence has identical signatures"); }
      if e.validator !in table.stakes { return Err("validator has no active stake"); }
      if !crypto.keyDecodes(e.validator) { return Err("invalid validator public key"); }
      if !crypto.verifies(e.validator, e.hashA, e.signatureA) { return Err("signature_a verification failed"); }
      if !crypto.verifies(e.validator, e.hashB, e.signatureB) { return Err("signature_b verification failed"); }
      var burned := table.Slash(e.validator);
      jailed := jailed[e.validator := height + JAIL_DURATION];
      processed := processed + {fingerprint};
      evidence := evidence + [e];
      return Ok(burned);
    }

    method RecordAssignedSlot(a: Address)
      modifies this
      ensures Value() == old(Value()).RecordAssigned(a)
    {
      assignedSlots := assignedSlots[a := Get(assignedSlots, a) + 1];
    }

    method RecordMissedSlot(a: Address)
      modifies this
      ensures Value() == old(Value()).RecordMissed(a)
    {
      missedSlots := missedSlots[a := Get(missedSlots, a) + 1];
    }

    method ProcessDowntimePenalties() returns (offline: set<Address>)
      ensures offline == Value().Offline()
    {
      offline := {};
      var pending := assignedSlots.Keys;
      while pending != {}
        invariant pending <= assignedSlots.Keys
        invariant offline == set a | a in assignedSlots.Keys - pending && Value().IsOffline(a)
        decreases |pending|
      {
        var a :| a in pending;
        pending := pending - {a};
        if assignedSlots[a] > 0 && Get(missedSlots, a) * 100 / assignedSlots[a] > DOWNTIME_THRESHOLD_PERCENT {
          offline := offline + {a};
        }
      }
    }

    method ResetEpochCounters()
      modifies this
      ensures Value() == old(Value()).CountersReset()
    {
      missedSlots, assignedSlots, evidence := map[], map[], [];
    }

    method UnjailExpired(height: nat) returns (expired: set<Address>)
      modifies this
      ensures expired == old(Value()).Expired(height) && Value() == old(Value()).Unjailed(height)
    {
      expired := set a | a in jailed && height >= jailed[a];
      ghost var start := jailed;
      var pending := expired;
      while pending != {}
        invariant pending <= expired
        invariant Value() == old(Value()).(jailed := start - (expired - pending))
        decreases |pending|
      {
        var a :| a in pending;
        pending := pending - {a};
        jailed := jailed - {a};
      }
    }
  }

  // ---------------------------------------------------------------- runs

  datatype Event =
    | Report(evidence: Evidence, height: nat)
    | Unjail(height: nat)
    | EpochReset
    | Slot(validator: Address, wasMissed: bool)

  /** Penalties, stakes, burned amounts and the fingerprints acted on, after some events. */
  datatype Ledger = Ledger(state: State, stakes: map<Address, nat>, burned: nat, acted: seq<Hash>)

  ghost function Next(c: Crypto, l: Ledger, e: Event): Ledger {
    match e
    case Unjail(height) => l.(state := l.state.Unjailed(height))
    case EpochReset => l.(state := l.state.CountersReset())
    case Slot(a, wasMissed) => l.(state := if wasMissed then l.state.RecordMissed(a) else l.state.RecordAssigned(a))
    case Report(e, height) =>
      if Objection(c, l.state, l.stakes, e).Some? then l
      else
        Ledger(Punished(c, l.state, e, height),
               StakesAfterSlash(l.stakes, e.validator),
               l.burned + Burned(l.stakes[e.validator]),
               l.acted + [c.fingerprint(e.validator, e.height, e.hashA, e.hashB)])
  }

  ghost function Run(c: Crypto, l: Ledger, events: seq<Event>): Ledger {
    if events == [] then l else Next(c, Run(c, l, events[..|events| - 1]), events[|events| - 1])
  }

  lemma SlashConserves(stakes: map<Address, nat>, a: Address)
    requires a in stakes
    ensures Total(StakesAfterSlash(stakes, a)) + Burned(stakes[a]) == Total(stakes)
  {
    TotalTakeOut(stakes, a);
    if Remaining(stakes[a]).Some? {
      TotalUpdate(stakes, a, Remaining(stakes[a]).value);
    }
  }

  /** Stakes and burned amounts together never change. */
  lemma {:induction false} StakeIsConserved(c: Crypto, l: Ledger, events: seq<Event>)
    ensures Total(Run(c, l, events).stakes) + Run(c, l, events).burned == Total(l.stakes) + l.burned
  {
    if events != [] {
      StakeIsConserved(c, l, events[..|events| - 1]);
      var before, e := Run(c, l, events[..|events| - 1]), events[|events| - 1];
      if e.Report? && Objection(c, before.state, before.stakes, e.evidence) == None {
        SlashConserves(before.stakes, e.evidence.validator);
      }
    }
  }

  ghost predicate NeverTwice(l: Ledger) {
    && (forall i, j :: 0 <= i < j < |l.acted| ==> l.acted[i] != l.acted[j])
    && (forall i :: 0 <= i < |l.acted| ==> l.acted[i] in l.state.processed)
  }

  /** No evidence fingerprint is acted on twice, epoch resets and unjailings included. */
  lemma {:induction false} EvidenceActsOnce(c: Crypto, l: Ledger, events: seq<Event>)
    requires NeverTwice(l)
    ensures NeverTwice(Run(c, l, events))
  {
    if events != [] {
      EvidenceActsOnce(c, l, events[..|events| - 1]);
    }
  }

  /** A stake at or above the minimum stays there or is removed. */
  lemma {:induction false} StakesStayAboveMinimum(c: Crypto, l: Ledger, events: seq<Event>, a: Address)
    requires a in l.stakes && l.stakes[a] >= MIN_STAKE
    ensures a in Run(c, l, events).stakes ==> MIN_STAKE <= Run(c, l, events).stakes[a] <= l.stakes[a]
  {
    if events != [] {
      StakesStayAboveMinimum(c, l, events[..|events| - 1], a);
    }
  }

  // ---------------------------------------------------------------- unjailing is only housekeeping

  /** Heights along a run never go back; `height` is where it stands at the end. */
  ghost predicate Chronological(events: seq<Event>, height: nat) {
    events != [] ==>
      var e := events[|events| - 1];
      var at := if e.Report? || e.Unjail? then e.height else height;
      at <= height && Chronological(events[..|events| - 1], at)
  }

  function WithoutUnjails(events: seq<Event>): seq<Event> {
    if events == [] then []
    else
      var e := events[|events| - 1];
      WithoutUnjails(events[..|events| - 1]) + if e.Unjail? then [] else [e]
  }

  ghost predicate SameVerdicts(s: State, t: State, height: nat) {
    forall a, h :: h >= height ==> (s.IsJailed(a, h) <==> t.IsJailed(a, h))
  }

  /** Two ledgers that pass the same verdicts. */
  ghost predicate Alike(l: Ledger, m: Ledger, height: nat) {
    l.stakes == m.stakes && l.state.processed == m.state.processed && SameVerdicts(l.state, m.state, height)
  }

  /** They still do after the same event. */
  lemma AlikeNext(c: Crypto, l: Ledger, m: Ledger, e: Event, at: nat, height: nat)
    requires Alike(l, m, at) && at <= height && (e.Report? || e.Unjail? ==> at == e.height)
    ensures Alike(Next(c, l, e), Next(c, m, e), height)
  {
    hide StakesAfterSlash;
    var x, y := Next(c, l, e).state, Next(c, m, e).state;
    forall a, h | h >= height
      ensures x.IsJailed(a, h) <==> y.IsJailed(a, h)
    {
      assert l.state.IsJailed(a, h) <==> m.state.IsJailed(a, h);
    }
  }

  /** They do after the first of them releases whose term has ended. */
  lemma AlikeUnjailed(c: Crypto, l: Ledger, m: Ledger, at: nat, height: nat)
    requires Alike(l, m, at) && at <= height
    ensures Alike(Next(c, l, Unjail(at)), m, height)
  {
    var x := Next(c, l, Unjail(at)).state;
    forall a, h | h >= height
      ensures x.IsJailed(a, h) <==> m.state.IsJailed(a, h)
    {
      assert l.state.IsJailed(a, h) <==> m.state.IsJailed(a, h);
    }
  }

  /** Dropping every unjailing from a run changes no verdict at its height or any later one. */
  lemma {:induction false} UnjailingIsUnobservable(c: Crypto, l: Ledger, events: seq<Event>, height: nat)
    requires Chronological(events, height)
    ensures var with, without := Run(c, l, events), Run(c, l, WithoutUnjails(events));
      && with.stakes == without.stakes && with.state.processed == without.state.processed
      && SameVerdicts(with.state, without.state, height)
  {
    hide Next, SameVerdicts;
    if events != [] {
      var front, e := events[..|events| - 1], events[|events| - 1];
      var at := if e.Report? || e.Unjail? then e.height else height;
      UnjailingIsUnobservable(c, l, front, at);
      var with, without := Run(c, l, front), Run(c, l, WithoutUnjails(front));
      if e.Unjail? {
        assert WithoutUnjails(events) == WithoutUnjails(front);
        AlikeUnjailed(c, with, without, at, height);
      } else {
        assert WithoutUnjails(events)[..|WithoutUnjails(events)| - 1] == WithoutUnjails(front);
        AlikeNext(c, with, without, e, at, height);
      }
    } else {
      SameAsItself(l.state, height);
    }
  }

  lemma SameAsItself(s: State, height: nat)
    ensures SameVerdicts(s, s, height)
  {
  }

  // ---------------------------------------------------------------- penalties

  /** The percentage is floored: a validator is offline from 51 missed slots in 100 on, not from one over half. */
  lemma OfflineIff(s: State, a: Address)
    ensures a in s.Offline() <==> 100 * Get(s.missedSlots, a) >= 51 * Get(s.assignedSlots, a) > 0
  {
    if a in s.assignedSlots && s.assignedSlots[a] > 0 {
      FlooredPercent(Get(s.missedSlots, a) * 100, s.assignedSlots[a]);
    }
  }

  lemma FlooredPercent(x: nat, n: nat)
    requires n > 0
    ensures x / n > 50 <==> x >= 51 * n
  {
    assert x == x / n * n + x % n;
    assert x / n >= 51 ==> x / n * n >= 51 * n;
    assert x / n <= 50 ==> x / n * n <= 50 * n;
  }

  lemma TenPercent(stake: nat)
    ensures stake * 1000 / 10_000 == stake / 10
  {
    assert stake * 1000 == stake / 10 * 10_000 + stake % 10 * 1000;
  }

  /** Two different blocks of one validator with stake, both validly signed, and not acted on before. */
  predicate Convicts(c: Crypto, l: Ledger, e: Evidence) {
    && c.fingerprint(e.validator, e.height, e.hashA, e.hashB) !in l.state.processed
    && e.hashA != e.hashB && e.signatureA != e.signatureB && e.validator in l.stakes && c.keyDecodes(e.validator)
    && c.verifies(e.validator, e.hashA, e.signatureA) && c.verifies(e.validator, e.hashB, e.signatureB)
  }

  /** Exactly when a report is acted on, and what that does to anybody: the validator is jailed for 100 blocks and loses a tenth
    * of its stake, or all of it if the rest would be below the minimum; nobody else loses anything. */
  lemma ReportMeaning(c: Crypto, l: Ledger, e: Evidence, height: nat, a: Address, h: nat)
    ensures var m, mine := Next(c, l, Report(e, height)), e.validator == a;
      if Convicts(c, l, e) then
        && (m.state.IsJailed(a, h) <==> if mine then h < height + 100 else l.state.IsJailed(a, h))
        && var stake := l.stakes[e.validator];
           var burned := if 0 < stake / 10 && stake - stake / 10 < 10_000_000_000_000 then stake else stake / 10;
        && m.burned == l.burned + burned
        && Get(m.stakes, a) + (if mine then burned else 0) == Get(l.stakes, a)
        && (a in m.stakes <==> a in l.stakes && !(mine && burned == stake > 0))
        && m.state.processed == l.state.processed + {c.fingerprint(e.validator, e.height, e.hashA, e.hashB)}
        && m.state.evidence == l.state.evidence + [e]
        && m.state.missedSlots == l.state.missedSlots && m.state.assignedSlots == l.state.assignedSlots
      else m == l
  {
    if Convicts(c, l, e) { TenPercent(l.stakes[e.validator]); }
  }

  /** Evidence is told apart by its fingerprint alone, and that depends on the order of the two blocks: turned round, the same
    * evidence convicts again exactly when the other order has not been filed and stake is left. */
  lemma TurnedRoundConvictsIff(c: Crypto, l: Ledger, e: Evidence, height: nat)
    requires Convicts(c, l, e)
    ensures var turned := Evidence(e.validator, e.height, e.hashB, e.signatureB, e.hashA, e.signatureA);
      Convicts(c, Next(c, l, Report(e, height)), turned) <==>
        && c.fingerprint(e.validator, e.height, e.hashB, e.hashA) !in
           l.state.processed + {c.fingerprint(e.validator, e.height, e.hashA, e.hashB)}
        && (l.stakes[e.validator] < 10 || l.stakes[e.validator] - l.stakes[e.validator] / 10 >= 10_000_000_000_000)
  {
    ReportMeaning(c, l, e, height, e.validator, 0);
  }

  /** How many slots of `a` were recorded. */
  function Slots(events: seq<Event>, a: Address, wasMissed: bool): nat {
    if events == [] then 0
    else Slots(events[..|events| - 1], a, wasMissed) + if events[|events| - 1] == Slot(a, wasMissed) then 1 else 0
  }

  /** Within an epoch the counters count the recorded slots. */
  lemma {:induction false} CountersMeaning(c: Crypto, l: Ledger, events: seq<Event>, a: Address)
    requires forall i :: 0 <= i < |events| ==> !events[i].EpochReset?
    ensures var t := Run(c, l, events).state;
      && Get(t.missedSlots, a) == Get(l.state.missedSlots, a) + Slots(events, a, true)
      && Get(t.assignedSlots, a) == Get(l.state.assignedSlots, a) + Slots(events, a, false)
  {
    if events != [] {
      var front, e := events[..|events| - 1], events[|events| - 1];
      CountersMeaning(c, l, front, a);
      hide Run, Slots, StakesAfterSlash, Burned, Objection;
    }
  }

  /** Who is offline at the end of an epoch: those that missed at least 51 of 100 slots recorded in it. */
  lemma OfflineFromSlots(c: Crypto, l: Ledger, events: seq<Event>, a: Address)
    requires forall i :: 0 <= i < |events| ==> !events[i].EpochReset?
    ensures a in Run(c, Next(c, l, EpochReset), events).state.Offline()
       <==> 100 * Slots(events, a, true) >= 51 * Slots(events, a, false) > 0
  {
    CountersMeaning(c, Next(c, l, EpochReset), events, a);
    OfflineIff(Run(c, Next(c, l, EpochReset), events).state, a);
  }
}

/** The vault's tables encoded in a byte store: one key a cell, no two cells under one key. */
module VaultStore {
  import opened Common
  import opened Bytes
  import opened VaultSpec

  /** Storage keys are ASCII, so their characters stand for their bytes. */
  type Store = map<string, seq<byte>>

  const KEY_VERSION := "version"
  const KEY_PAUSED := "paused"
  const KEY_OWNER := "owner"
  const KEY_DAILY_CAP := "daily_cap"
  const KEY_MIN_GAMES := "min_games"

  function PlatformKey(a: Account): string {
    "platform:" + Hex(a)
  }

  function ClaimedKey(a: Account, day: u64): string {
    "claimed:" + Hex(a) + ":" + Decimal(day)
  }

  function NonceKey(a: Account): string {
    "nonce:" + Hex(a)
  }

  datatype Cell =
    | VersionCell
    | OwnerCell
    | DailyCapCell
    | MinGamesCell
    | PausedCell
    | PlatformCell(account: Account)
    | ClaimedCell(account: Account, day: u64)
    | NonceCell(account: Account)

  function Key(c: Cell): string {
    match c
    case VersionCell => KEY_VERSION
    case OwnerCell => KEY_OWNER
    case DailyCapCell => KEY_DAILY_CAP
    case MinGamesCell => KEY_MIN_GAMES
    case PausedCell => KEY_PAUSED
    case PlatformCell(a) => PlatformKey(a)
    case ClaimedCell(a, day) => ClaimedKey(a, day)
    case NonceCell(a) => NonceKey(a)
  }

  lemma ClaimedKeyParts(a: Account, day: u64)
    ensures ClaimedKey(a, day)[8..72] == Hex(a) && ClaimedKey(a, day)[73..] == Decimal(day)
  {
  }

  lemma PlainKeyParts(a: Account)
    ensures PlatformKey(a)[9..] == Hex(a) && NonceKey(a)[6..] == Hex(a)
  {
  }

  /** The key builders are injective, and their ranges and the constant keys are pairwise disjoint. */
  lemma KeysAreDistinct(c: Cell, d: Cell)
    requires Key(c) == Key(d)
    ensures c == d
  {
    assert Key(c)[0] == Key(d)[0] && Key(c)[1] == Key(d)[1];
    match c
    case ClaimedCell(a, day) =>
      ClaimedKeyParts(a, day);
      ClaimedKeyParts(d.account, d.day);
      HexIsInjective(a, d.account);
      DecimalRoundTrip(day);
      DecimalRoundTrip(d.day);
    case PlatformCell(a) =>
      PlainKeyParts(a);
      PlainKeyParts(d.account);
      HexIsInjective(a, d.account);
    case NonceCell(a) =>
      PlainKeyParts(a);
      PlainKeyParts(d.account);
      HexIsInjective(a, d.account);
    case _ =>
  }

  /** What a cell holds: little-endian numbers, one byte for a flag, the owner as it is. */
  function Content(v: Vault, c: Cell): Option<seq<byte>> {
    match c
    case VersionCell => if v.config.Some? then Some(Le(1, 4)) else None
    case OwnerCell => if v.config.Some? then Some(v.config.value.owner) else None
    case DailyCapCell => if v.config.Some? then Some(Le(v.config.value.dailyCap, 16)) else None
    case MinGamesCell => if v.config.Some? then Some(Le(v.config.value.minGames, 8)) else None
    case PausedCell => if v.config.Some? then Some([if v.config.value.paused then 1 else 0]) else None
    case PlatformCell(a) => if a in v.platforms then Some([1]) else None
    case ClaimedCell(a, day) => if (a, day) in v.claimed then Some(Le(v.claimed[(a, day)], 16)) else None
    case NonceCell(a) => if a in v.nonces then Some(Le(v.nonces[a], 8)) else None
  }

  function Lookup(store: Store, key: string): Option<seq<byte>> {
    if key in store then Some(store[key]) else None
  }

  /** The store holds exactly these tables. */
  ghost predicate Holds(store: Store, v: Vault) {
    && (forall c :: Lookup(store, Key(c)) == Content(v, c))
    && (forall key :: key in store ==> exists c :: key == Key(c))
  }

  /** Two vaults held by one store are the same vault, and a vault is held by one store. */
  lemma HoldsIsOneToOne(s: Store, v: Vault, t: Store, w: Vault)
    requires Holds(s, v) && Holds(t, w)
    ensures s == t <==> v == w
  {
    if s == t {
      SameCells(s, v, w);
    }
    if v == w {
      forall key
        ensures Lookup(s, key) == Lookup(t, key)
      {
        if c :| key == Key(c) {
          assert Lookup(s, Key(c)) == Content(v, c) == Lookup(t, Key(c));
        }
      }
      assert forall key :: key in s <==> Lookup(s, key).Some?;
      forall key | key in s
        ensures key in t && s[key] == t[key]
      {
        assert Lookup(s, key) == Lookup(t, key);
      }
      forall key | key in t
        ensures key in s
      {
        assert Lookup(s, key) == Lookup(t, key);
      }
    }
  }

  lemma SameCells(s: Store, v: Vault, w: Vault)
    requires Holds(s, v) && Holds(s, w)
    ensures v == w
  {
    forall c: Cell
      ensures Content(v, c) == Content(w, c)
    {
      assert Lookup(s, Key(c)) == Content(v, c);
    }
    SameConfig(v, w);
    forall a: Account
      ensures a in v.platforms <==> a in w.platforms
    {
      assert Content(v, PlatformCell(a)) == Content(w, PlatformCell(a));
    }
    assert v.platforms == w.platforms;
    forall a: Account
      ensures a in v.nonces <==> a in w.nonces
      ensures a in v.nonces ==> v.nonces[a] == w.nonces[a]
    {
      assert Content(v, NonceCell(a)) == Content(w, NonceCell(a));
      if a in v.nonces && a in w.nonces { LittleEndian64(v.nonces[a]); LittleEndian64(w.nonces[a]); }
    }
    assert v.nonces == w.nonces;
    forall k: (Account, u64)
      ensures k in v.claimed <==> k in w.claimed
      ensures k in v.claimed ==> v.claimed[k] == w.claimed[k]
    {
      assert k == (k.0, k.1) && Content(v, ClaimedCell(k.0, k.1)) == Content(w, ClaimedCell(k.0, k.1));
      if k in v.claimed && k in w.claimed { LittleEndian128(v.claimed[k]); LittleEndian128(w.claimed[k]); }
    }
    assert v.claimed == w.claimed;
  }

  lemma SameConfig(v: Vault, w: Vault)
    requires forall c: Cell :: Content(v, c) == Content(w, c)
    ensures v.config == w.config
  {
    assert Content(v, OwnerCell) == Content(w, OwnerCell);
    if v.config.Some? && w.config.Some? {
      assert Content(v, DailyCapCell) == Content(w, DailyCapCell);
      assert Content(v, MinGamesCell) == Content(w, MinGamesCell);
      assert Content(v, PausedCell) == Content(w, PausedCell);
      LittleEndian128(v.config.value.dailyCap);
      LittleEndian128(w.config.value.dailyCap);
      LittleEndian64(v.config.value.minGames);
      LittleEndian64(w.config.value.minGames);
      assert [if v.config.value.paused then 1 else 0][0] == [if w.config.value.paused then 1 else 0][0];
    }
  }

  lemma LittleEndian64(n: u64)
    ensures FromLe(Le(n, 8)) == n
  {
    Widths();
    LeRoundTrip(n, 8);
  }

  lemma LittleEndian128(n: u128)
    ensures FromLe(Le(n, 16)) == n
  {
    Widths();
    LeRoundTrip(n, 16);
  }

  // ---------------------------------------------------------------- updates

  /** `w` is `v` with one cell changed. */
  ghost predicate Differs(v: Vault, w: Vault, c: Cell, content: Option<seq<byte>>) {
    Content(w, c) == content && forall d :: d != c ==> Content(w, d) == Content(v, d)
  }

  lemma SetHolds(store: Store, v: Vault, c: Cell, bytes: seq<byte>, w: Vault)
    requires Holds(store, v) && Differs(v, w, c, Some(bytes))
    ensures Holds(store[Key(c) := bytes], w)
  {
    hide Key, Content;
    forall d: Cell
      ensures Lookup(store[Key(c) := bytes], Key(d)) == Content(w, d)
    {
      if d != c {
        if Key(d) == Key(c) { KeysAreDistinct(c, d); }
        assert Lookup(store, Key(d)) == Content(v, d);
      }
    }
  }

  lemma RemoveHolds(store: Store, v: Vault, c: Cell, w: Vault)
    requires Holds(store, v) && Differs(v, w, c, None)
    ensures Holds(store - {Key(c)}, w)
  {
    hide Key, Content;
    forall d: Cell
      ensures Lookup(store - {Key(c)}, Key(d)) == Content(w, d)
    {
      if d != c {
        if Key(d) == Key(c) { KeysAreDistinct(c, d); }
        assert Lookup(store, Key(d)) == Content(v, d);
      }
    }
  }

  lemma EmptyHolds()
    ensures Holds(map[], EMPTY)
  {
  }
}

/**
 The genesis objects of the paid devnet: an asset definition, a treasury cap that records
 the total supply, a fee coin and a spend coin for every configured owner, and the genesis
 bond. Object identifiers are hashes of derived labels; a hash stands for its label.
 */
module GenesisSupply {
  import opened Prelude
  import F = CanonicalFrame

  const FEE_COIN_BALANCE: nat := 10_000_000
  const SPEND_COIN_BALANCE: nat := 10_000_000
  const GENESIS_BOND_AMOUNT: nat := 1_000_000

  // ---- labels ----------------------------------------------------------------------------

  /** What an object is derived for. Owners are addresses of 32 bytes. */
  datatype Key =
    | DefinitionKey
    | TreasuryKey
    | FeeKey(index: nat, owner: Bytes)
    | SpendKey(index: nat, owner: Bytes)
    | BondKey
  {
    ghost predicate Valid() {
      (FeeKey? || SpendKey?) ==> index < Power(8) && |owner| == 32
    }
  }

  /** The bytes of an ASCII label. */
  function Ascii(s: string): (r: Bytes)
    ensures |r| == |s|
    ensures forall i | 0 <= i < |s| :: r[i] == s[i] as int % 256
  {
    if s == "" then [] else [s[0] as int % 256] + Ascii(s[1..])
  }

  const PREFIX: string := "sunrise.devnet.public-standard-asset."

  function Suffix(k: Key): string {
    match k
    case DefinitionKey => "definition.v1"
    case TreasuryKey => "treasury-cap.v1"
    case FeeKey(_, _) => "fee-coin.v1/"
    case SpendKey(_, _) => "spend-coin.v1/"
    case BondKey => "genesis-bond.v1"
  }

  function Arguments(k: Key): Bytes {
    match k
    case FeeKey(index, owner) => F.ToLE(index, 8) + owner
    case SpendKey(index, owner) => F.ToLE(index, 8) + owner
    case _ => []
  }

  function Tail(k: Key): Bytes {
    Ascii(Suffix(k)) + Arguments(k)
  }

  function Label(k: Key): Bytes {
    Ascii(PREFIX) + Tail(k)
  }

  datatype ObjectId = Hash(preimage: Bytes)

  function IdOf(k: Key): ObjectId {
    Hash(Label(k))
  }

  lemma CancelPrefix(p: Bytes, a: Bytes, b: Bytes)
    requires p + a == p + b
    ensures a == b
  {
    assert (p + a)[|p|..] == a && (p + b)[|p|..] == b;
  }

  /** The letter after the common prefix. */
  function KindLetter(k: Key): char {
    match k
    case DefinitionKey => 'd'
    case TreasuryKey => 't'
    case FeeKey(_, _) => 'f'
    case SpendKey(_, _) => 's'
    case BondKey => 'g'
  }

  lemma FirstLetter(k: Key)
    ensures |Suffix(k)| > 0 && Suffix(k)[0] == KindLetter(k)
  {
  }

  lemma HeadOfJoin(s: string, rest: Bytes)
    requires |s| > 0
    ensures (Ascii(s) + rest)[0] == s[0] as int % 256
  {
  }

  lemma TailLetter(k: Key)
    ensures |Tail(k)| > 0 && Tail(k)[0] == KindLetter(k) as int % 256
  {
    FirstLetter(k);
    HeadOfJoin(Suffix(k), Arguments(k));
  }

  lemma LettersDiffer(a: Key, b: Key)
    ensures KindLetter(a) as int % 256 == KindLetter(b) as int % 256 ==> KindLetter(a) == KindLetter(b)
  {
  }

  lemma SameKind(a: Key, b: Key)
    requires Tail(a) == Tail(b)
    ensures KindLetter(a) == KindLetter(b)
  {
    TailLetter(a);
    TailLetter(b);
    LettersDiffer(a, b);
  }

  lemma ArgumentsInjective(i: nat, o: Bytes, j: nat, p: Bytes)
    requires i < Power(8) && j < Power(8) && F.ToLE(i, 8) + o == F.ToLE(j, 8) + p
    ensures i == j && o == p
  {
    F.FromToLE(i, 8);
    F.FromToLE(j, 8);
    assert (F.ToLE(i, 8) + o)[..8] == F.ToLE(i, 8) && (F.ToLE(j, 8) + p)[..8] == F.ToLE(j, 8);
    assert (F.ToLE(i, 8) + o)[8..] == o && (F.ToLE(j, 8) + p)[8..] == p;
  }

  lemma SameSuffix(a: Key, b: Key)
    requires KindLetter(a) == KindLetter(b)
    ensures Suffix(a) == Suffix(b)
  {
  }

  lemma SameArguments(a: Key, b: Key)
    requires a.Valid() && b.Valid() && KindLetter(a) == KindLetter(b) && Arguments(a) == Arguments(b)
    ensures a == b
  {
    match a
    case FeeKey(i, o) => ArgumentsInjective(i, o, b.index, b.owner);
    case SpendKey(i, o) => ArgumentsInjective(i, o, b.index, b.owner);
    case _ =>
  }

  lemma SameTail(a: Key, b: Key)
    requires a.Valid() && b.Valid() && Tail(a) == Tail(b)
    ensures a == b
  {
    SameKind(a, b);
    assert Arguments(a) == Arguments(b) by {
      SameSuffix(a, b);
      CancelPrefix(Ascii(Suffix(a)), Arguments(a), Arguments(b));
    }
    SameArguments(a, b);
  }

  /** Different keys have different labels: the kinds differ in one letter, and two coins of
      a kind differ in the index, even for a repeated owner. */
  lemma LabelsInjective(a: Key, b: Key)
    requires a.Valid() && b.Valid() && Label(a) == Label(b)
    ensures a == b
  {
    CancelPrefix(Ascii(PREFIX), Tail(a), Tail(b));
    SameTail(a, b);
  }

  /** Identifiers that tell keys apart. */
  ghost predicate Injective(id: Key -> ObjectId) {
    forall a: Key, b: Key | a.Valid() && b.Valid() && id(a) == id(b) :: a == b
  }

  lemma DerivedIdsInjective()
    ensures Injective(IdOf)
  {
    forall a: Key, b: Key | a.Valid() && b.Valid() && IdOf(a) == IdOf(b) ensures a == b {
      LabelsInjective(a, b);
    }
  }

  // ---- objects ------------------------------------------------------------------------------

  datatype Holder = Address(Bytes) | GenesisAuthority | BondCustody

  datatype Body = Empty | Supply(total: nat) | Coin(amount: nat)

  datatype Object = Object(id: ObjectId, owner: Holder, body: Body)

  datatype OwnerCoins = OwnerCoins(owner: Bytes, feeCoin: ObjectId, spendCoin: ObjectId)

  datatype Manifest = Manifest(objects: seq<Object>, ownerCoins: seq<OwnerCoins>, totalSupply: nat)

  datatype GenesisError = NoOwners | SupplyOverflow | SeededSupplyOverflow | SupplyInconsistent

  const PER_OWNER: nat := FEE_COIN_BALANCE + SPEND_COIN_BALANCE

  function TotalSupply(owners: nat): nat {
    PER_OWNER * owners + GENESIS_BOND_AMOUNT
  }

  function Amount(o: Object): nat {
    if o.body.Coin? then o.body.amount else 0
  }

  function Sum(objects: seq<Object>): nat {
    if objects == [] then 0 else Sum(objects[..|objects| - 1]) + Amount(objects[|objects| - 1])
  }

  lemma SumMore(objects: seq<Object>, o: Object)
    ensures Sum(objects + [o]) == Sum(objects) + Amount(o)
  {
    assert (objects + [o])[..|objects|] == objects;
  }

  /** The key an object at this position of the manifest is derived for. */
  function KeyAt(owners: seq<Bytes>, i: nat): Key
    requires i < 2 * |owners| + 3
  {
    if i == 0 then DefinitionKey
    else if i == 1 then TreasuryKey
    else if i == 2 * |owners| + 2 then BondKey
    else if i % 2 == 0 then FeeKey(i / 2 - 1, owners[i / 2 - 1])
    else SpendKey(i / 2 - 1, owners[i / 2 - 1])
  }

  lemma KeysDistinct(owners: seq<Bytes>, i: nat, j: nat)
    requires i < j < 2 * |owners| + 3
    ensures KeyAt(owners, i) != KeyAt(owners, j)
  {
  }

  ghost predicate ValidOwners(owners: seq<Bytes>) {
    |owners| < Power(8) && forall o <- owners :: |o| == 32
  }

  ghost predicate IdsAre(id: Key -> ObjectId, objects: seq<Object>, owners: seq<Bytes>) {
    |objects| <= 2 * |owners| + 3 && forall i | 0 <= i < |objects| :: objects[i].id == id(KeyAt(owners, i))
  }

  ghost predicate IdsDistinct(objects: seq<Object>) {
    forall i, j | 0 <= i < j < |objects| :: objects[i].id != objects[j].id
  }

  lemma IdsDiffer(id: Key -> ObjectId, objects: seq<Object>, owners: seq<Bytes>)
    requires Injective(id) && ValidOwners(owners) && IdsAre(id, objects, owners)
    ensures IdsDistinct(objects)
  {
  }

  /** Both coins of one owner, as the manifest holds them. */
  ghost predicate HasCoins(id: Key -> ObjectId, objects: seq<Object>, owners: seq<Bytes>, i: nat)
    requires i < |owners|
  {
    && 2 * i + 4 <= |objects|
    && objects[2 * i + 2] == Object(id(FeeKey(i, owners[i])), Address(owners[i]), Coin(FEE_COIN_BALANCE))
    && objects[2 * i + 3] == Object(id(SpendKey(i, owners[i])), Address(owners[i]), Coin(SPEND_COIN_BALANCE))
  }

  ghost predicate CoinsListed(id: Key -> ObjectId, listed: seq<OwnerCoins>, owners: seq<Bytes>, n: nat)
    requires n <= |owners|
  {
    |listed| == n &&
    forall i | 0 <= i < n ::
      listed[i] == OwnerCoins(owners[i], id(FeeKey(i, owners[i])), id(SpendKey(i, owners[i])))
  }

  lemma CoinKeys(owners: seq<Bytes>, i: nat)
    requires i < |owners|
    ensures KeyAt(owners, 2 * i + 2) == FeeKey(i, owners[i]) && KeyAt(owners, 2 * i + 3) == SpendKey(i, owners[i])
  {
    assert (2 * i + 2) / 2 == i + 1 && (2 * i + 3) / 2 == i + 1;
  }

  lemma IdsMore(id: Key -> ObjectId, objects: seq<Object>, owners: seq<Bytes>, o: Object)
    requires IdsAre(id, objects, owners) && |objects| < 2 * |owners| + 3 && o.id == id(KeyAt(owners, |objects|))
    ensures IdsAre(id, objects + [o], owners)
  {
  }

  /** Adds the two coins of one owner. */
  method PushCoins(id: Key -> ObjectId, owners: seq<Bytes>, i: nat, objects: seq<Object>) returns (r: seq<Object>)
    requires i < |owners| && |objects| == 2 * i + 2 && IdsAre(id, objects, owners)
    ensures objects <= r && |r| == 2 * i + 4 && IdsAre(id, r, owners) && HasCoins(id, r, owners, i)
    ensures Sum(r) == Sum(objects) + PER_OWNER
  {
    var fee := Object(id(FeeKey(i, owners[i])), Address(owners[i]), Coin(FEE_COIN_BALANCE));
    var spend := Object(id(SpendKey(i, owners[i])), Address(owners[i]), Coin(SPEND_COIN_BALANCE));
    CoinKeys(owners, i);
    IdsMore(id, objects, owners, fee);
    SumMore(objects, fee);
    var one := objects + [fee];
    IdsMore(id, one, owners, spend);
    SumMore(one, spend);
    r := one + [spend];
  }

  ghost predicate AllHaveCoins(id: Key -> ObjectId, objects: seq<Object>, owners: seq<Bytes>, n: nat)
    requires n <= |owners|
  {
    forall k | 0 <= k < n :: HasCoins(id, objects, owners, k)
  }

  lemma CoinsStay(id: Key -> ObjectId, was: seq<Object>, now: seq<Object>, owners: seq<Bytes>, n: nat)
    requires n <= |owners| && was <= now && AllHaveCoins(id, was, owners, n)
    ensures AllHaveCoins(id, now, owners, n)
  {
    forall k | 0 <= k < n ensures HasCoins(id, now, owners, k) {
      assert HasCoins(id, was, owners, k);
    }
  }

  lemma CoinsMore(id: Key -> ObjectId, objects: seq<Object>, owners: seq<Bytes>, n: nat)
    requires n < |owners| && AllHaveCoins(id, objects, owners, n) && HasCoins(id, objects, owners, n)
    ensures AllHaveCoins(id, objects, owners, n + 1)
  {
  }

  lemma ListedMore(id: Key -> ObjectId, listed: seq<OwnerCoins>, owners: seq<Bytes>)
    requires |listed| < |owners| && CoinsListed(id, listed, owners, |listed|)
    ensures var i := |listed|;
            var coins := OwnerCoins(owners[i], id(FeeKey(i, owners[i])), id(SpendKey(i, owners[i])));
            CoinsListed(id, listed + [coins], owners, i + 1)
  {
  }

  lemma StartStays(start: seq<Object>, was: seq<Object>, now: seq<Object>)
    requires start <= was <= now
    ensures start <= now
  {
  }

  /** The loop over the owners. */
  method PushAllCoins(id: Key -> ObjectId, owners: seq<Bytes>, start: seq<Object>)
    returns (objects: seq<Object>, ownerCoins: seq<OwnerCoins>)
    requires |start| == 2 && IdsAre(id, start, owners)
    ensures start <= objects && |objects| == 2 * |owners| + 2 && IdsAre(id, objects, owners)
    ensures AllHaveCoins(id, objects, owners, |owners|) && CoinsListed(id, ownerCoins, owners, |owners|)
    ensures Sum(objects) == Sum(start) + PER_OWNER * |owners|
  {
    objects, ownerCoins := start, [];
    for i := 0 to |owners|
      invariant start <= objects && |objects| == 2 * i + 2 && IdsAre(id, objects, owners)
      invariant AllHaveCoins(id, objects, owners, i) && CoinsListed(id, ownerCoins, owners, i)
      invariant Sum(objects) == Sum(start) + PER_OWNER * i
    {
      var more := PushCoins(id, owners, i, objects);
      StartStays(start, objects, more);
      CoinsStay(id, objects, more, owners, i);
      CoinsMore(id, more, owners, i);
      objects := more;
      ListedMore(id, ownerCoins, owners);
      ownerCoins := ownerCoins + [OwnerCoins(owners[i], id(FeeKey(i, owners[i])), id(SpendKey(i, owners[i])))];
    }
  }

  lemma {:induction false} SumGrows(objects: seq<Object>, i: nat)
    requires i <= |objects|
    ensures Sum(objects[..i]) <= Sum(objects)
    decreases |objects|
  {
    if i < |objects| {
      assert objects[..|objects| - 1][..i] == objects[..i];
      SumGrows(objects[..|objects| - 1], i);
    } else {
      assert objects[..i] == objects;
    }
  }

  /** The checked sum over the seeded coins, which skips the definition and the treasury. */
  method SeededSupply(objects: seq<Object>) returns (r: Result<nat, GenesisError>)
    requires |objects| >= 2 && Amount(objects[0]) == 0 && Amount(objects[1]) == 0
    ensures r == if Sum(objects) <= U64_MAX then Ok(Sum(objects)) else Err(SeededSupplyOverflow)
  {
    var seeded := 0;
    SumMore([], objects[0]);
    SumMore([objects[0]], objects[1]);
    assert objects[..2] == [] + [objects[0]] + [objects[1]];
    for i := 2 to |objects|
      invariant seeded == Sum(objects[..i]) <= U64_MAX
    {
      assert objects[..i + 1] == objects[..i] + [objects[i]];
      SumMore(objects[..i], objects[i]);
      SumGrows(objects, i + 1);
      if seeded + Amount(objects[i]) > U64_MAX {
        return Err(SeededSupplyOverflow);
      }
      seeded := seeded + Amount(objects[i]);
    }
    assert objects[..|objects|] == objects;
    r := Ok(seeded);
  }

  /** A manifest's fixed objects around the owners' coins, and its supply. */
  ghost predicate WellBuilt(id: Key -> ObjectId, m: Manifest, owners: seq<Bytes>) {
    && owners != [] && |m.objects| == 2 * |owners| + 3
    && m.objects[0] == Object(id(DefinitionKey), GenesisAuthority, Empty)
    && m.objects[1] == Object(id(TreasuryKey), Address(owners[0]), Supply(Sum(m.objects)))
    && m.objects[2 * |owners| + 2] == Object(id(BondKey), BondCustody, Coin(GENESIS_BOND_AMOUNT))
    && m.totalSupply == Sum(m.objects) == TotalSupply(|owners|)
    && AllHaveCoins(id, m.objects, owners, |owners|) && CoinsListed(id, m.ownerCoins, owners, |owners|)
  }

  lemma StartingPair(id: Key -> ObjectId, definition: Object, treasury: Object, owners: seq<Bytes>)
    requires definition.id == id(DefinitionKey) && treasury.id == id(TreasuryKey)
    requires Amount(definition) == 0 && Amount(treasury) == 0
    ensures IdsAre(id, [definition, treasury], owners) && Sum([definition, treasury]) == 0
  {
    SumMore([definition], treasury);
    SumMore([], definition);
    assert [] + [definition] == [definition] && [definition] + [treasury] == [definition, treasury];
  }

  /** The objects in manifest order: definition, treasury, both coins of every owner, bond. */
  method SeedObjects(id: Key -> ObjectId, owners: seq<Bytes>, total: nat) returns (m: Manifest)
    requires owners != [] && total == TotalSupply(|owners|)
    ensures WellBuilt(id, m, owners) && IdsAre(id, m.objects, owners) && m.totalSupply == total
  {
    var definition := Object(id(DefinitionKey), GenesisAuthority, Empty);
    var treasury := Object(id(TreasuryKey), Address(owners[0]), Supply(total));
    StartingPair(id, definition, treasury, owners);
    var coins, ownerCoins := PushAllCoins(id, owners, [definition, treasury]);
    var bond := Object(id(BondKey), BondCustody, Coin(GENESIS_BOND_AMOUNT));
    SumMore(coins, bond);
    IdsMore(id, coins, owners, bond);
    var objects := coins + [bond];
    CoinsStay(id, coins, objects, owners, |owners|);
    assert objects[0] == coins[0] == definition && objects[1] == coins[1] == treasury;
    m := Manifest(objects, ownerCoins, total);
  }

  /** Builds the manifest's objects.

      It succeeds exactly when there is an owner and the supply fits a u64: the supply
      refusal at the end is never taken. Every owner gets both coins, all coins and the bond
      add up to the treasury's supply, and all identifiers differ. */
  method BuildGenesis(id: Key -> ObjectId, owners: seq<Bytes>) returns (r: Result<Manifest, GenesisError>)
    requires Injective(id) && ValidOwners(owners)
    ensures r.Ok? <==> owners != [] && TotalSupply(|owners|) <= U64_MAX
    ensures r.Err? ==> r.error == if owners == [] then NoOwners else SupplyOverflow
    ensures r.Ok? ==> WellBuilt(id, r.value, owners) && IdsDistinct(r.value.objects)
  {
    if owners == [] {
      return Err(NoOwners);
    }
    if PER_OWNER * |owners| > U64_MAX || PER_OWNER * |owners| + GENESIS_BOND_AMOUNT > U64_MAX {
      return Err(SupplyOverflow);
    }
    var total := PER_OWNER * |owners| + GENESIS_BOND_AMOUNT;
    var m := SeedObjects(id, owners, total);
    IdsDiffer(id, m.objects, owners);
    var seeded := SeededSupply(m.objects);
    match seeded
    case Err(e) => return Err(e);
    case Ok(sum) =>
      if sum != total || m.objects[1].body != Supply(total) {
        return Err(SupplyInconsistent);
      }
      r := Ok(m);
  }
}

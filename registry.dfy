/** The in-memory gas-tank registry: chain id to the ordered tanks on that chain. */
module TankRegistry {
  import opened Ascii

  /** The SDK's gas-tank account object, seen only as an identity. */
  datatype AccountHandle = AccountHandle(id: nat)

  datatype GasTank = GasTank(
    chainId: int,
    tokenAddress: string,
    gasTankAddress: string,
    gasTankAccount: AccountHandle)

  /** `gasTanks: Map<number, GasTank[]>`. */
  type Registry = map<int, seq<GasTank>>

  /** `gasTanks.get(chainId) || []`. */
  function BucketOf(registry: Registry, chainId: int): (bucket: seq<GasTank>)
    ensures Valid(registry) ==> (bucket == [] <==> chainId !in registry)
    ensures Valid(registry) ==> forall t :: t in bucket ==> t.chainId == chainId
  {
    if chainId in registry then registry[chainId] else []
  }

  /** The duplicate rule: same token and same tank address, ignoring case. */
  predicate Matches(tank: GasTank, tokenAddress: string, gasTankAddress: string)
  {
    SameIgnoringCase(tank.tokenAddress, tokenAddress)
    && SameIgnoringCase(tank.gasTankAddress, gasTankAddress)
  }

  /** `existingGasTanks.some(...)` with the duplicate rule. */
  function IsDuplicate(bucket: seq<GasTank>, tokenAddress: string, gasTankAddress: string): (r: bool)
    ensures r <==> exists i :: 0 <= i < |bucket| && Matches(bucket[i], tokenAddress, gasTankAddress)
  {
    if bucket == [] then false
    else Matches(bucket[0], tokenAddress, gasTankAddress)
         || IsDuplicate(bucket[1..], tokenAddress, gasTankAddress)
  }

  /** `gasTanks.set(chainId, [...existing, tank])`: the append-only write path. */
  function Appended(registry: Registry, tank: GasTank): (r: Registry)
    ensures r.Keys == registry.Keys + {tank.chainId}
    ensures BucketOf(r, tank.chainId) == BucketOf(registry, tank.chainId) + [tank]
    ensures forall c :: c != tank.chainId ==> BucketOf(r, c) == BucketOf(registry, c)
  {
    registry[tank.chainId := BucketOf(registry, tank.chainId) + [tank]]
  }

  /** What every bucket the initialization pass builds satisfies: it is not
      empty, every tank in it carries the bucket's chain id, and no two of
      its tanks share a (token, tank address) pair ignoring case. */
  ghost predicate BucketValid(chainId: int, bucket: seq<GasTank>)
  {
    && |bucket| > 0
    && (forall i :: 0 <= i < |bucket| ==> bucket[i].chainId == chainId)
    && (forall i, j :: 0 <= i < j < |bucket| ==>
          !Matches(bucket[i], bucket[j].tokenAddress, bucket[j].gasTankAddress))
  }

  ghost predicate Valid(registry: Registry)
  {
    forall c :: c in registry ==> BucketValid(c, registry[c])
  }

  /** Appending a tank that is not a duplicate keeps the registry valid. */
  lemma AppendKeepsValid(registry: Registry, tank: GasTank)
    requires Valid(registry)
    requires !IsDuplicate(BucketOf(registry, tank.chainId), tank.tokenAddress, tank.gasTankAddress)
    ensures Valid(Appended(registry, tank))
  {
  }
}

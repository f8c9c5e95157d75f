/** Request-side logic of the nonce, receipt and sign endpoints: parameter
    validation, tank selection from the registry, the token rule, and the
    single-message error envelope. The SDK and chain calls a handler makes
    after selection are function parameters. */
module Handlers {
  import opened Wrappers
  import opened Ascii
  import opened Decimal
  import opened TankRegistry

  /** A JSON body with status 200, or `{errors: [...]}` with status 400. */
  datatype Response<T> = Ok200(body: T) | Bad400(errors: seq<string>)

  /** What `getNonce()` answers. */
  datatype NonceState = NonceState(nonce: nat, nonceKey: nat)

  /** `{nonceKey: nonceKey.toString(), nonce: nonce.toString()}`. */
  datatype NonceBody = NonceBody(nonceKey: string, nonce: string)

  /** A sponsorship quote as the sign endpoint reads it: the payment token
      it names, and the rest of the payload, passed on untouched. */
  datatype Quote = Quote(paymentToken: string, payload: string)

  const NONCE_FALLBACK := "Failed to fetch gas tank nonce"
  const RECEIPT_FALLBACK := "Failed to fetch transaction receipt"
  /** The sign endpoint's fallback is, as written, the receipt phrase. */
  const SIGN_FALLBACK := "Failed to fetch transaction receipt"

  /** `!param` for an Express path parameter: absent or empty. */
  predicate Missing(param: Option<string>)
  {
    param.None? || param.value == ""
  }

  /** `gasTanks.get(Number(chainId)) || []`. */
  function ChainBucket(registry: Registry, chainId: string): (bucket: seq<GasTank>)
    ensures NumberOf(chainId).None? ==> bucket == []
    ensures Valid(registry) ==> forall t :: t in bucket ==> NumberOf(chainId) == Some(t.chainId)
  {
    match NumberOf(chainId)
    case Some(n) => BucketOf(registry, n)
    case None => []
  }

  predicate HasAddress(tank: GasTank, gasTankAddress: string)
  {
    SameIgnoringCase(tank.gasTankAddress, gasTankAddress)
  }

  /** `const [gasTank] = bucket.filter(tank => same address ignoring case)`. */
  function FirstWithAddress(bucket: seq<GasTank>, gasTankAddress: string): (r: Option<GasTank>)
    ensures r.None? <==> forall i :: 0 <= i < |bucket| ==> !HasAddress(bucket[i], gasTankAddress)
    ensures r.Some? ==> exists i :: 0 <= i < |bucket| && bucket[i] == r.value
                          && HasAddress(bucket[i], gasTankAddress)
                          && forall j :: 0 <= j < i ==> !HasAddress(bucket[j], gasTankAddress)
  {
    if bucket == [] then None
    else if HasAddress(bucket[0], gasTankAddress) then Some(bucket[0])
    else
      var r := FirstWithAddress(bucket[1..], gasTankAddress);
      assert forall j :: 1 <= j < |bucket| ==> bucket[j] == bucket[1..][j - 1];
      r
  }

  /** The selection shared by the nonce and sign endpoints. */
  function SelectByAddress(registry: Registry, chainId: Option<string>, gasTankAddress: Option<string>,
                           isAddress: string -> bool): (r: Result<GasTank>)
    ensures Missing(chainId) ==> r == Fail("Invalid chain id")
    ensures (!Missing(chainId) && (Missing(gasTankAddress) || !isAddress(gasTankAddress.value)))
            ==> r == Fail("Invalid gas tank address")
    ensures r.Ok? ==> !Missing(chainId) && !Missing(gasTankAddress) && isAddress(gasTankAddress.value)
    ensures r.Ok? ==> exists i :: 0 <= i < |ChainBucket(registry, chainId.value)|
                        && ChainBucket(registry, chainId.value)[i] == r.value
                        && HasAddress(r.value, gasTankAddress.value)
                        && forall j :: 0 <= j < i ==>
                             !HasAddress(ChainBucket(registry, chainId.value)[j], gasTankAddress.value)
    ensures r == Fail("Gas tank not found") <==>
              && !Missing(chainId) && !Missing(gasTankAddress) && isAddress(gasTankAddress.value)
              && forall t :: t in ChainBucket(registry, chainId.value) ==> !HasAddress(t, gasTankAddress.value)
    ensures (&& !Missing(chainId) && !Missing(gasTankAddress) && isAddress(gasTankAddress.value)
             && exists t :: t in ChainBucket(registry, chainId.value) && HasAddress(t, gasTankAddress.value))
            ==> r.Ok?
  {
    if Missing(chainId) then Fail("Invalid chain id")
    else if Missing(gasTankAddress) || !isAddress(gasTankAddress.value) then Fail("Invalid gas tank address")
    else match FirstWithAddress(ChainBucket(registry, chainId.value), gasTankAddress.value)
      case None => Fail("Gas tank not found")
      case Some(tank) => Ok(tank)
  }

  /** The selection of the receipt endpoint: the first tank of the chain. */
  function SelectFirst(registry: Registry, chainId: Option<string>, hash: Option<string>,
                       isHash: string -> bool): (r: Result<GasTank>)
    ensures Missing(chainId) ==> r == Fail("Invalid chain id")
    ensures (!Missing(chainId) && (Missing(hash) || !isHash(hash.value)))
            ==> r == Fail("Invalid transaction hash")
    ensures r.Ok? ==> !Missing(chainId) && !Missing(hash) && isHash(hash.value)
                      && |ChainBucket(registry, chainId.value)| > 0
                      && r.value == ChainBucket(registry, chainId.value)[0]
    ensures r == Fail("No gas tanks found") <==>
              !Missing(chainId) && !Missing(hash) && isHash(hash.value)
              && ChainBucket(registry, chainId.value) == []
    ensures (&& !Missing(chainId) && !Missing(hash) && isHash(hash.value)
             && ChainBucket(registry, chainId.value) != [])
            ==> r == Ok(ChainBucket(registry, chainId.value)[0])
  {
    if Missing(chainId) then Fail("Invalid chain id")
    else if Missing(hash) || !isHash(hash.value) then Fail("Invalid transaction hash")
    else
      var bucket := ChainBucket(registry, chainId.value);
      if |bucket| <= 0 then Fail("No gas tanks found")
      else Ok(bucket[0])
  }

  /** The catch block shared by the handlers: one message, the Error's own
      or the handler's fallback phrase. */
  function ErrorEnvelope<T>(e: Thrown, fallback: string): (r: Response<T>)
    ensures r.Bad400? && |r.errors| == 1
    ensures r.errors[0] == if e.ErrorValue? then e.message else fallback
  {
    Bad400([match e case ErrorValue(message) => message case OtherValue => fallback])
  }

  /** GET /sponsorship/nonce/:chainId/:gasTankAddress. */
  function NonceHandler(registry: Registry, chainId: Option<string>, gasTankAddress: Option<string>,
                        isAddress: string -> bool,
                        getNonce: AccountHandle -> Result<NonceState>): (r: Response<NonceBody>)
    ensures r.Bad400? ==> |r.errors| == 1
    ensures match SelectByAddress(registry, chainId, gasTankAddress, isAddress)
      case Err(e) => r == ErrorEnvelope(e, NONCE_FALLBACK)
      case Ok(tank) =>
        match getNonce(tank.gasTankAccount)
        case Err(e) => r == ErrorEnvelope(e, NONCE_FALLBACK)
        case Ok(state) =>
          && r.Ok200?
          && ParseDecimal(r.body.nonce) == Some(state.nonce)
          && ParseDecimal(r.body.nonceKey) == Some(state.nonceKey)
  {
    match SelectByAddress(registry, chainId, gasTankAddress, isAddress)
    case Err(e) => ErrorEnvelope(e, NONCE_FALLBACK)
    case Ok(tank) =>
      match getNonce(tank.gasTankAccount)
      case Err(e) => ErrorEnvelope(e, NONCE_FALLBACK)
      case Ok(state) =>
        ParseShowNat(state.nonce);
        ParseShowNat(state.nonceKey);
        Ok200(NonceBody(ShowNat(state.nonceKey), ShowNat(state.nonce)))
  }

  /** GET /sponsorship/receipt/:chainId/:hash. The receipt reader answers the
      receipt already serialized. */
  function ReceiptHandler(registry: Registry, chainId: Option<string>, hash: Option<string>,
                          isHash: string -> bool,
                          getTransactionReceipt: (AccountHandle, string) -> Result<string>): (r: Response<string>)
    ensures r.Bad400? ==> |r.errors| == 1
    ensures r.Ok200? <==>
              && SelectFirst(registry, chainId, hash, isHash).Ok?
              && getTransactionReceipt(SelectFirst(registry, chainId, hash, isHash).value.gasTankAccount,
                                       hash.value).Ok?
    ensures r.Ok200? ==>
              r.body == getTransactionReceipt(ChainBucket(registry, chainId.value)[0].gasTankAccount,
                                              hash.value).value
    ensures SelectFirst(registry, chainId, hash, isHash).Err? ==>
              r == ErrorEnvelope(SelectFirst(registry, chainId, hash, isHash).error, RECEIPT_FALLBACK)
    ensures var s := SelectFirst(registry, chainId, hash, isHash);
            s.Ok? && getTransactionReceipt(s.value.gasTankAccount, hash.value).Err? ==>
              r == ErrorEnvelope(getTransactionReceipt(s.value.gasTankAccount, hash.value).error,
                                 RECEIPT_FALLBACK)
    ensures var s := SelectFirst(registry, chainId, hash, isHash);
            s.Ok? && getTransactionReceipt(s.value.gasTankAccount, hash.value).Ok? ==>
              r == Ok200(getTransactionReceipt(s.value.gasTankAccount, hash.value).value)
  {
    match SelectFirst(registry, chainId, hash, isHash)
    case Err(e) => ErrorEnvelope(e, RECEIPT_FALLBACK)
    case Ok(tank) =>
      match getTransactionReceipt(tank.gasTankAccount, hash.value)
      case Err(e) => ErrorEnvelope(e, RECEIPT_FALLBACK)
      case Ok(receipt) => Ok200(receipt)
  }

  /** POST /sponsorship/sign/:chainId/:gasTankAddress. */
  function SignHandler(registry: Registry, chainId: Option<string>, gasTankAddress: Option<string>,
                       quote: Quote, isAddress: string -> bool,
                       signSponsorship: (AccountHandle, Quote) -> Result<Quote>): (r: Response<Quote>)
    ensures r.Bad400? ==> |r.errors| == 1
    ensures SelectByAddress(registry, chainId, gasTankAddress, isAddress).Err? ==>
              r == ErrorEnvelope(SelectByAddress(registry, chainId, gasTankAddress, isAddress).error,
                                 SIGN_FALLBACK)
    ensures var s := SelectByAddress(registry, chainId, gasTankAddress, isAddress);
            s.Ok? && !SameIgnoringCase(quote.paymentToken, s.value.tokenAddress) ==>
              r == Bad400(["Sponsorship token not supported."])
    ensures r.Ok200? ==>
              exists tank :: SelectByAddress(registry, chainId, gasTankAddress, isAddress) == Ok(tank)
                && SameIgnoringCase(quote.paymentToken, tank.tokenAddress)
                && signSponsorship(tank.gasTankAccount, quote) == Ok(r.body)
    ensures var s := SelectByAddress(registry, chainId, gasTankAddress, isAddress);
            s.Ok? && SameIgnoringCase(quote.paymentToken, s.value.tokenAddress)
            && signSponsorship(s.value.gasTankAccount, quote).Err? ==>
              r == ErrorEnvelope(signSponsorship(s.value.gasTankAccount, quote).error, SIGN_FALLBACK)
    ensures var s := SelectByAddress(registry, chainId, gasTankAddress, isAddress);
            s.Ok? && SameIgnoringCase(quote.paymentToken, s.value.tokenAddress)
            && signSponsorship(s.value.gasTankAccount, quote).Ok? ==>
              r == Ok200(signSponsorship(s.value.gasTankAccount, quote).value)
  {
    match SelectByAddress(registry, chainId, gasTankAddress, isAddress)
    case Err(e) => ErrorEnvelope(e, SIGN_FALLBACK)
    case Ok(tank) =>
      if ToLower(quote.paymentToken) != ToLower(tank.tokenAddress) then
        ErrorEnvelope(ErrorValue("Sponsorship token not supported."), SIGN_FALLBACK)
      else
        match signSponsorship(tank.gasTankAccount, quote)
        case Err(e) => ErrorEnvelope(e, SIGN_FALLBACK)
        case Ok(signed) => Ok200(signed)
  }

  /** A signer that throws something other than an Error yields the
      receipt endpoint's phrase on the sign endpoint: the fallback as written. */
  lemma SignFallbackMessage(registry: Registry, chainId: Option<string>, gasTankAddress: Option<string>,
                            quote: Quote, isAddress: string -> bool,
                            signSponsorship: (AccountHandle, Quote) -> Result<Quote>)
    requires SelectByAddress(registry, chainId, gasTankAddress, isAddress).Ok?
    requires SameIgnoringCase(quote.paymentToken,
                              SelectByAddress(registry, chainId, gasTankAddress, isAddress).value.tokenAddress)
    requires signSponsorship(SelectByAddress(registry, chainId, gasTankAddress, isAddress).value.gasTankAccount,
                             quote) == Err(OtherValue)
    ensures SignHandler(registry, chainId, gasTankAddress, quote, isAddress, signSponsorship)
            == Bad400(["Failed to fetch transaction receipt"])
  {
  }

  /** The address lookup depends on the address only up to letter case. */
  lemma FirstWithAddressIgnoresCase(bucket: seq<GasTank>, a: string, b: string)
    requires SameIgnoringCase(a, b)
    ensures FirstWithAddress(bucket, a) == FirstWithAddress(bucket, b)
  {
  }

  /** Two spellings of an address that differ only in letter case and that
      the address validator treats alike select the same tank. */
  lemma SelectIgnoresCase(registry: Registry, chainId: Option<string>, a: string, b: string,
                          isAddress: string -> bool)
    requires SameIgnoringCase(a, b)
    requires isAddress(a) == isAddress(b)
    ensures SelectByAddress(registry, chainId, Some(a), isAddress)
            == SelectByAddress(registry, chainId, Some(b), isAddress)
  {
  }

  /** A token mismatch is decided before signing: the response is the same
      whatever the signer would have answered. */
  lemma TokenMismatchNeverSigns(registry: Registry, chainId: Option<string>, gasTankAddress: Option<string>,
                                quote: Quote, isAddress: string -> bool,
                                signer1: (AccountHandle, Quote) -> Result<Quote>,
                                signer2: (AccountHandle, Quote) -> Result<Quote>)
    requires SelectByAddress(registry, chainId, gasTankAddress, isAddress).Ok?
    requires !SameIgnoringCase(quote.paymentToken,
                               SelectByAddress(registry, chainId, gasTankAddress, isAddress).value.tokenAddress)
    ensures SignHandler(registry, chainId, gasTankAddress, quote, isAddress, signer1)
            == SignHandler(registry, chainId, gasTankAddress, quote, isAddress, signer2)
            == Bad400(["Sponsorship token not supported."])
  {
  }

  /** In a registry built by the initialization pass, the receipt endpoint
      reports "No gas tanks found" exactly for a chain the registry does not
      hold: buckets are never empty. */
  lemma NoGasTanksOnlyForAbsentChain(registry: Registry, chainId: int, hash: string, isHash: string -> bool)
    requires Valid(registry)
    requires 0 <= chainId <= MAX_SAFE_INTEGER
    requires hash != "" && isHash(hash)
    ensures SelectFirst(registry, Some(ShowNat(chainId)), Some(hash), isHash) == Fail("No gas tanks found")
            <==> chainId !in registry
  {
    NumberOfShowNat(chainId);
    if chainId in registry {
      assert BucketValid(chainId, registry[chainId]);
    }
  }

  /** The tank address does not depend on the token, so one key on one
      chain with two tokens gives two tanks with the same address. The sign
      lookup then always finds the earlier one, and a quote for the later
      tank's token is rejected. */
  lemma SharedAddressShadowsToken(registry: Registry, c: nat, i: nat, j: nat, quote: Quote,
                                  isAddress: string -> bool, signer: (AccountHandle, Quote) -> Result<Quote>)
    requires c <= MAX_SAFE_INTEGER
    requires i < j < |BucketOf(registry, c)|
    requires BucketOf(registry, c)[j].gasTankAddress != ""
    requires isAddress(BucketOf(registry, c)[j].gasTankAddress)
    requires HasAddress(BucketOf(registry, c)[i], BucketOf(registry, c)[j].gasTankAddress)
    requires forall k :: 0 <= k < i ==>
               !HasAddress(BucketOf(registry, c)[k], BucketOf(registry, c)[j].gasTankAddress)
    requires !SameIgnoringCase(BucketOf(registry, c)[i].tokenAddress, BucketOf(registry, c)[j].tokenAddress)
    requires quote.paymentToken == BucketOf(registry, c)[j].tokenAddress
    ensures SignHandler(registry, Some(ShowNat(c)), Some(BucketOf(registry, c)[j].gasTankAddress),
                        quote, isAddress, signer)
            == Bad400(["Sponsorship token not supported."])
  {
    NumberOfShowNat(c);
    var bucket := BucketOf(registry, c);
    var address := bucket[j].gasTankAddress;
    var r := FirstWithAddress(bucket, address);
    var m :| 0 <= m < |bucket| && bucket[m] == r.value && HasAddress(bucket[m], address)
             && forall k :: 0 <= k < m ==> !HasAddress(bucket[k], address);
    assert m == i;
  }

  /** A tank registered on chain c is found by the nonce and sign lookup
      through c's decimal id and its own address, unless an earlier tank of
      that chain has the same address. */
  lemma RegisteredTankSelectable(registry: Registry, c: nat, k: nat, isAddress: string -> bool)
    requires c <= MAX_SAFE_INTEGER
    requires k < |BucketOf(registry, c)|
    requires BucketOf(registry, c)[k].gasTankAddress != ""
    requires isAddress(BucketOf(registry, c)[k].gasTankAddress)
    requires forall j :: 0 <= j < k ==>
               !HasAddress(BucketOf(registry, c)[j], BucketOf(registry, c)[k].gasTankAddress)
    ensures SelectByAddress(registry, Some(ShowNat(c)), Some(BucketOf(registry, c)[k].gasTankAddress), isAddress)
            == Ok(BucketOf(registry, c)[k])
  {
    NumberOfShowNat(c);
    var bucket := BucketOf(registry, c);
    var address := bucket[k].gasTankAddress;
    assert HasAddress(bucket[k], address);
    var r := FirstWithAddress(bucket, address);
    var i :| 0 <= i < |bucket| && bucket[i] == r.value && HasAddress(bucket[i], address)
             && forall j :: 0 <= j < i ==> !HasAddress(bucket[j], address);
    assert i == k;
  }
}

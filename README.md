# Gas-tank sponsorship registry, modelled in Dafny

The service runs a few on-chain "gas tank" accounts that pay transaction fees
for sponsored users, and answers HTTP requests that read a tank's nonce, fetch
a transaction receipt, or sign a sponsorship quote with a tank's key. This
project models its core decision logic, which lives in `index.ts`:

- the registry `gasTanks`, a map from chain id to the ordered tanks on that
  chain (`TankRegistry`);
- the start-up pass `initializeSponsorship`, which walks the configured tanks.
  For each one it skips a (token, tank address) pair already on the chain,
  ignoring case. It registers an already-deployed tank straight away. It
  deploys and registers an undeployed tank only if the owner's balance covers
  the deposit plus a 25% buffer (`Orchestrator`). The pass is a `for` loop in
  a class method over the registry field. It is proved equal to the
  specification function `Run`, and the lemmas about the pass are stated
  about `Run`;
- the nonce, receipt and sign endpoints. Each one validates its parameters,
  selects a tank from the registry, applies the token rule (sign only), and
  turns any failure into `{errors: [message]}` (`Handlers`).

Every SDK and chain answer is an input. For the pass, each configuration
comes with an `Observation`: the account handle, its address, the owner
address, the deployment flag, the owner balance and the deployment hash. Each
answer may instead be a thrown value. For the handlers, `isAddress`,
`isHash`, `getNonce`, `getTransactionReceipt` and `signSponsorship` are
function parameters.

Behaviour of the code worth knowing, which the model keeps as written:

- `initializeSponsorship` (`index.ts:89-189`) has no `try`/`catch`. So the
  first SDK or RPC call that throws ends the whole pass. `Run` returns that
  value, and `RunStopsAtFailure` proves that later configurations are never
  processed. The tanks registered before the throw stay in the map. But the
  pass is awaited at module top level (`index.ts:193`), so the throw rejects
  module evaluation: `app.listen` (`index.ts:385`) is never reached and no
  handler ever serves those tanks.
- The sign endpoint's fallback message is "Failed to fetch transaction
  receipt", the same phrase as the receipt endpoint's
  (`index.ts:366-369`). It is modelled as written (`SIGN_FALLBACK`,
  `SignFallbackMessage`).
- `toGasTankAccount` takes no token (`index.ts:94-99`), so two
  configurations on one chain with the same key and different tokens give
  two registered tanks with the same address; they are not duplicates,
  because the tokens differ. The nonce and sign lookups select by address
  only and take the first (`index.ts:338-343`), so a sign request for the
  second token is always rejected with "Sponsorship token not supported."
  (`SharedAddressShadowsToken`).
- In the receipt endpoint, the check `if (!gasTank)` at `index.ts:299`
  cannot fire: it follows a non-empty check, and tanks are objects. The
  model keeps only the reachable "No gas tanks found" branch.

## Model

| member | source | states |
|---|---|---|
| `Ascii.ToLower` | index.ts:110-111 | lower-casing keeps the length, maps each character to its lower-case form, and leaves no upper-case ASCII letter |
| `Ascii.ToLowerIdempotent` | index.ts:110-111 | lower-casing an already lower-cased address changes nothing |
| `Ascii.SameAsLowered` | index.ts:110-111 | an address and its lower-cased spelling compare equal under the case-insensitive rule |
| `Decimal.ShowNat` | index.ts:268 | `toString()` of a non-negative bigint is non-empty decimal digits with no leading zero except for 0 itself |
| `Decimal.ParseShowNat` | index.ts:268 | `toString()` of a non-negative bigint reads back as exactly that number, also above 2^53 |
| `Decimal.NumberOf` | index.ts:256 | `Number(chainId)` gives a chain key exactly for decimal text whose value is a safe integer, and the key is that decimal value |
| `Decimal.NumberOfShowNat` | index.ts:256 | a chain id written in decimal converts back to that chain id |
| `TankRegistry.BucketOf` | index.ts:105 | in a valid registry, the bucket lookup with its empty-list fallback is empty exactly for an absent chain, and holds only tanks of that chain |
| `TankRegistry.IsDuplicate` | index.ts:105-117 | the duplicate test holds exactly when some tank of the bucket has the same token and tank address, ignoring case |
| `TankRegistry.Appended` | index.ts:172-188 | registration puts the tank at the end of its chain's bucket; every other bucket is untouched; no chain is dropped |
| `TankRegistry.AppendKeepsValid` | index.ts:105-188 | appending a non-duplicate tank keeps every bucket non-empty, on its own chain id, and free of two tanks with the same lower-cased (token, address) |
| `Orchestrator.TruncDiv` | index.ts:144 | bigint division truncates toward zero, for negative dividends too |
| `Orchestrator.RequiredDeposit` | index.ts:143-144 | for a non-negative deposit, the required balance is the deposit plus a quarter of it, rounded down, so never below the deposit |
| `Orchestrator.Step` | index.ts:90-188 | one iteration registers only the attempt's own eligible tank; an underfunded skip is an undeployed tank below the required amount; a duplicate skip had a matching tank; an abort carries one of the answers the attempt observed; each call that throws, in the loop's order of calls and once the earlier gates are passed, aborts the iteration with its own value |
| `Orchestrator.StepRegisters` | index.ts:105-188 | one iteration registers a tank exactly when the configuration is not a duplicate and is deployed, or funded and deployed by the pass; the tank is built from that configuration |
| `Orchestrator.DuplicateSkipped` | index.ts:105-119 | a configuration matching an existing tank on its chain, ignoring case, is skipped and the rest of the pass runs on the unchanged registry |
| `Orchestrator.UnderfundedSkipped` | index.ts:134-151 | an undeployed tank whose owner balance is below the required amount is skipped and nothing is added |
| `Orchestrator.DeployedIgnoresFunding` | index.ts:132-134 | for a deployed tank, the outcome does not depend on the balance or on the deployment answer |
| `Orchestrator.DeployHashIrrelevant` | index.ts:156-170 | a deployment with or without a returned hash leads to the same outcome |
| `Orchestrator.Run` | index.ts:89-189 | when the pass ends early, the value that ended it was thrown by one of the configurations' SDK or RPC calls |
| `Orchestrator.AbortEndsPass` | index.ts:89-189 | a configuration whose iteration throws ends the pass with that value, leaving the registry as it stood |
| `Orchestrator.RegisteredAppends` | index.ts:172-188 | a configuration whose iteration registers a tank continues the pass on the registry with that tank appended to its chain |
| `Orchestrator.RegisteredTankKept` | index.ts:132-188 | a registered tank (deployed, or funded and deployed with or without a hash) is in the final registry, at the position right after its chain's earlier tanks |
| `Orchestrator.RunKeepsValid` | index.ts:89-189 | the pass keeps the registry invariant: no chain bucket holds two tanks with the same lower-cased (token, tank address) |
| `Orchestrator.InitializeTwiceUnique` | index.ts:79-190 | two passes from an empty registry never produce two entries with the same chain, token and tank address |
| `Orchestrator.RunAppendOnly` | index.ts:172-188 | the pass only appends: each chain keeps its earlier tanks, in order, as a prefix, and no chain disappears |
| `Orchestrator.RunRegistersOnlyEligible` | index.ts:132-188 | every tank the pass adds comes from a configuration that was deployed, or funded to the required amount and then deployed |
| `Orchestrator.RunStopsAtFailure` | index.ts:89-189 | once a configuration throws, the configurations after it change nothing |
| `Orchestrator.GasTankRegistry.constructor` | index.ts:55 | the registry starts empty and valid |
| `Orchestrator.GasTankRegistry.InitializeSponsorship` | index.ts:79-190 | the in-place loop leaves the registry and the thrown value exactly as `Run` says, and keeps the registry valid |
| `Handlers.ChainBucket` | index.ts:256 | the bucket lookup through `Number(chainId)` is empty for a chain id `Number` does not convert, and in a valid registry holds only tanks of the converted chain |
| `Handlers.FirstWithAddress` | index.ts:258-263 | the lookup returns the first tank whose address matches ignoring case, or nothing exactly when no tank matches |
| `Handlers.SelectByAddress` | index.ts:250-263 | a missing chain id is rejected first, then a missing or invalid address; otherwise the first matching tank of `Number(chainId)` whenever one matches, or "Gas tank not found" exactly when none matches, including an absent chain |
| `Handlers.SelectFirst` | index.ts:288-299 | a missing chain id, then an invalid hash, are rejected; otherwise always the chain's first tank when it has one, and "No gas tanks found" exactly when it has none |
| `Handlers.ErrorEnvelope` | index.ts:269-276 | a failure yields exactly one message: the Error's message, or the fallback phrase for other thrown values |
| `Handlers.NonceHandler` | index.ts:244-279 | selection and nonce failures become the one-message envelope; on success the nonce and nonce key are decimal strings that read back exactly |
| `Handlers.ReceiptHandler` | index.ts:282-319 | the receipt is read through the chain's first tank and returned as the reader answers it; selection and reader failures are one-message envelopes with the Error's message or "Failed to fetch transaction receipt" |
| `Handlers.SignHandler` | index.ts:322-375 | a token mismatch, ignoring case, yields "Sponsorship token not supported."; with a matching token the signer's answer is returned, or its failure becomes the one-message envelope with the sign fallback; a signed quote is returned only for a selected tank whose token matches |
| `Handlers.SignFallbackMessage` | index.ts:366-372 | a signer throwing a non-Error value yields exactly `{errors: ["Failed to fetch transaction receipt"]}` |
| `Handlers.FirstWithAddressIgnoresCase` | index.ts:258-261 | the lookup gives the same tank for two spellings of an address that differ only in letter case |
| `Handlers.SelectIgnoresCase` | index.ts:336-343 | two spellings that differ only in case, and that the address validator treats alike, select the same tank |
| `Handlers.TokenMismatchNeverSigns` | index.ts:345-362 | on a token mismatch the response is the same whatever the signer would answer: signing is never reached |
| `Handlers.NoGasTanksOnlyForAbsentChain` | index.ts:293-295 | in a registry built by the pass, "No gas tanks found" comes exactly for a chain the registry does not hold |
| `Handlers.SharedAddressShadowsToken` | index.ts:338-350 | when the first tank of a chain with a given address has a different token from a later tank with the same address, a quote for the later tank's token is rejected with "Sponsorship token not supported." |
| `Handlers.RegisteredTankSelectable` | index.ts:336-343 | a registered tank is selected through its chain's decimal id and its own address, unless an earlier tank of that chain has the same address |

## Left out

- The `/sponsorship/info` endpoint (`index.ts:203-241`). Its per-tank balance reads run concurrently through `Promise.all`, and it formats amounts with `formatUnits`; both are library and I/O behaviour.
- The Express app, router, JSON middleware, `app.listen` and the catch-all error middleware (`index.ts:195-200, 378-389`). They are HTTP plumbing.
- The SDK and RPC calls (`toGasTankAccount`, `getAddress`, `isDeployed`, `deploy`, `readContract`, `getNonce`, `signSponsorship`, `getTransactionReceipt`, `privateKeyToAccount`). Their answers are inputs: an `Observation` per configuration, or function parameters of the handlers. The deposit transfer itself is not modelled.
- `isAddress` and `isHash` are function parameters. Their checksum rules belong to the viem library.
- `stringify` of the receipt is left out: the receipt reader answers serialized text. The signed quote is passed through as received.
- Logging, `getMeeScanLink`, the hard-coded configurations, keys and API key (`index.ts:58-76, 83-87, 124-129, 147-168`).
- The commented authorization and spend-limit extension point (`index.ts:352-358`). It has no behaviour.
- Concurrency between requests. The model treats each request as one evaluation against a fixed registry.
- Decimal.NumberOf: models `Number()` only on plain ASCII decimal text up to 2^53-1. Hex (`0x...`), signs, exponents, fractions, surrounding whitespace and larger values are treated as naming no chain, although JavaScript would convert some of them to a chain id.
- Ascii.ToLower: lower-cases ASCII letters only. JavaScript's `toLowerCase` also maps non-ASCII letters, which addresses do not contain. The sign endpoint's quote token is not validated, so a non-ASCII token could compare differently.
- Handlers.SignHandler: takes the quote with its payment token present. A body without `paymentInfo.token` makes JavaScript throw a `TypeError` whose message depends on the engine; that path is not modelled.

/** The initialization pass that fills the registry from the configured tanks. */
module Orchestrator {
  import opened Wrappers
  import opened TankRegistry

  /** One configured gas tank; `chainId` stands for the `chain` descriptor,
      of which the pass reads only the id. */
  datatype GasTankConfiguration = GasTankConfiguration(
    tokenAddress: string,
    chainId: int,
    amountToDeposit: int,
    rpcUrl: string,
    privateKey: string)

  /** What the SDK and the chain answer, in the order the pass asks, for one
      configuration: the account handle, its address, the EOA derived from
      the key, whether the tank is deployed, the EOA's token balance, and
      the deployment's transaction hash (absent when it was already
      deployed). Each answer may instead be a thrown value. */
  datatype Observation = Observation(
    account: Result<AccountHandle>,
    gasTankAddress: Result<string>,
    eoaAddress: Result<string>,
    isDeployed: Result<bool>,
    eoaBalance: Result<nat>,
    deployHash: Result<Option<string>>)

  datatype Attempt = Attempt(config: GasTankConfiguration, observed: Observation)

  datatype SkipReason = Duplicate | Underfunded(balance: nat, required: int)

  datatype StepOutcome =
    | Skipped(reason: SkipReason)
    | Registered(tank: GasTank)
    | Aborted(error: Thrown)

  /** The registry after the pass, and the value that ended it early, if any. */
  datatype InitResult = InitResult(registry: Registry, failure: Option<Thrown>)

  /** bigint division: the quotient is truncated toward zero. */
  function TruncDiv(a: int, d: int): (q: int)
    requires d > 0
    ensures a >= 0 ==> d * q <= a < d * q + d
    ensures a < 0 ==> d * q - d < a <= d * q
  {
    if a >= 0 then a / d else -((-a) / d)
  }

  /** `(amountToDeposit * 125n) / 100n`: the deposit plus a 25% buffer for fees. */
  function RequiredDeposit(amountToDeposit: int): (required: int)
    ensures amountToDeposit >= 0 ==> required == amountToDeposit + amountToDeposit / 4
    ensures amountToDeposit >= 0 ==> required >= amountToDeposit
  {
    TruncDiv(amountToDeposit * 125, 100)
  }

  /** The tank an attempt registers once its checks pass. */
  function NewTank(a: Attempt): GasTank
    requires a.observed.account.Ok? && a.observed.gasTankAddress.Ok?
  {
    GasTank(a.config.chainId, a.config.tokenAddress,
            a.observed.gasTankAddress.value, a.observed.account.value)
  }

  /** The value is one of the answers the attempt observed. */
  predicate ThrownBy(obs: Observation, e: Thrown)
  {
    || obs.account == Err(e) || obs.gasTankAddress == Err(e) || obs.eoaAddress == Err(e)
    || obs.isDeployed == Err(e) || obs.eoaBalance == Err(e) || obs.deployHash == Err(e)
  }

  /** The account and its address were obtained and the pair is new on its chain. */
  predicate PastDuplicateCheck(registry: Registry, a: Attempt)
  {
    && a.observed.account.Ok? && a.observed.gasTankAddress.Ok?
    && !IsDuplicate(BucketOf(registry, a.config.chainId), a.config.tokenAddress,
                    a.observed.gasTankAddress.value)
  }

  /** One iteration of the `for` loop of `initializeSponsorship`. A call that
      throws aborts the iteration with its value; the calls are listed in
      the order the loop makes them. */
  function Step(registry: Registry, a: Attempt): (r: StepOutcome)
    ensures a.observed.account.Err? ==> r == Aborted(a.observed.account.error)
    ensures a.observed.account.Ok? && a.observed.gasTankAddress.Err? ==>
              r == Aborted(a.observed.gasTankAddress.error)
    ensures PastDuplicateCheck(registry, a) && a.observed.eoaAddress.Err? ==>
              r == Aborted(a.observed.eoaAddress.error)
    ensures PastDuplicateCheck(registry, a) && a.observed.eoaAddress.Ok? && a.observed.isDeployed.Err? ==>
              r == Aborted(a.observed.isDeployed.error)
    ensures (&& PastDuplicateCheck(registry, a) && a.observed.eoaAddress.Ok?
             && a.observed.isDeployed == Ok(false) && a.observed.eoaBalance.Err?) ==>
              r == Aborted(a.observed.eoaBalance.error)
    ensures (&& PastDuplicateCheck(registry, a) && a.observed.eoaAddress.Ok?
             && a.observed.isDeployed == Ok(false) && a.observed.eoaBalance.Ok?
             && a.observed.eoaBalance.value >= RequiredDeposit(a.config.amountToDeposit)
             && a.observed.deployHash.Err?) ==>
              r == Aborted(a.observed.deployHash.error)
    ensures r.Registered? ==> Eligible(a) && r.tank == NewTank(a) && r.tank.chainId == a.config.chainId
    ensures r.Skipped? && r.reason.Underfunded? ==>
              && a.observed.isDeployed == Ok(false)
              && a.observed.eoaBalance == Ok(r.reason.balance)
              && r.reason.required == RequiredDeposit(a.config.amountToDeposit)
              && r.reason.balance < r.reason.required
    ensures r == Skipped(Duplicate) ==>
              && a.observed.account.Ok? && a.observed.gasTankAddress.Ok?
              && IsDuplicate(BucketOf(registry, a.config.chainId), a.config.tokenAddress,
                          a.observed.gasTankAddress.value)
    ensures r.Aborted? ==> ThrownBy(a.observed, r.error)
  {
    var cfg, obs := a.config, a.observed;
    if obs.account.Err? then Aborted(obs.account.error)
    else if obs.gasTankAddress.Err? then Aborted(obs.gasTankAddress.error)
    else if IsDuplicate(BucketOf(registry, cfg.chainId), cfg.tokenAddress, obs.gasTankAddress.value)
    then Skipped(Duplicate)
    else if obs.eoaAddress.Err? then Aborted(obs.eoaAddress.error)
    else if obs.isDeployed.Err? then Aborted(obs.isDeployed.error)
    else if obs.isDeployed.value then Registered(NewTank(a))
    else if obs.eoaBalance.Err? then Aborted(obs.eoaBalance.error)
    else if obs.eoaBalance.value < RequiredDeposit(cfg.amountToDeposit)
    then Skipped(Underfunded(obs.eoaBalance.value, RequiredDeposit(cfg.amountToDeposit)))
    else if obs.deployHash.Err? then Aborted(obs.deployHash.error)
    else Registered(NewTank(a))
  }

  /** The whole pass. There is no try/catch around the loop, so the first
      thrown value ends it; what was registered before stays. */
  function Run(registry: Registry, attempts: seq<Attempt>): (r: InitResult)
    ensures r.failure.Some? ==>
              exists i :: 0 <= i < |attempts| && ThrownBy(attempts[i].observed, r.failure.value)
    decreases |attempts|
  {
    if attempts == [] then InitResult(registry, None)
    else match Step(registry, attempts[0])
      case Skipped(_) => Run(registry, attempts[1..])
      case Registered(tank) => Run(Appended(registry, tank), attempts[1..])
      case Aborted(e) => InitResult(registry, Some(e))
  }

  /** The attempt got past every gate: its tank was already deployed, or
      the EOA held the deposit plus buffer and the deployment returned. */
  predicate Eligible(a: Attempt)
  {
    var obs := a.observed;
    && obs.account.Ok? && obs.gasTankAddress.Ok? && obs.eoaAddress.Ok? && obs.isDeployed.Ok?
    && (obs.isDeployed.value
        || (&& obs.eoaBalance.Ok?
            && obs.eoaBalance.value >= RequiredDeposit(a.config.amountToDeposit)
            && obs.deployHash.Ok?))
  }

  /** A configuration whose iteration throws ends the pass with that value,
      on the registry as it stood. */
  lemma AbortEndsPass(registry: Registry, a: Attempt, rest: seq<Attempt>)
    requires Step(registry, a).Aborted?
    ensures Run(registry, [a] + rest) == InitResult(registry, Some(Step(registry, a).error))
  {
  }

  /** A configuration whose iteration registers a tank continues the pass
      on the registry with that tank appended. */
  lemma RegisteredAppends(registry: Registry, a: Attempt, rest: seq<Attempt>)
    requires Step(registry, a).Registered?
    ensures Run(registry, [a] + rest) == Run(Appended(registry, NewTank(a)), rest)
  {
    assert ([a] + rest)[1..] == rest;
  }

  /** The tank a configuration registers is still in the registry when the
      pass ends, right after the tanks its chain held before. */
  lemma RegisteredTankKept(registry: Registry, a: Attempt, rest: seq<Attempt>)
    requires Step(registry, a).Registered?
    ensures |BucketOf(registry, a.config.chainId)| < |BucketOf(Run(registry, [a] + rest).registry, a.config.chainId)|
    ensures BucketOf(Run(registry, [a] + rest).registry, a.config.chainId)[|BucketOf(registry, a.config.chainId)|]
            == NewTank(a)
  {
    var next := Appended(registry, NewTank(a));
    RegisteredAppends(registry, a, rest);
    RunAppendOnly(next, rest);
    assert BucketOf(next, a.config.chainId) <= BucketOf(Run(next, rest).registry, a.config.chainId);
  }

  /** A step registers exactly the attempt's own tank, at the end of its
      chain's bucket, and only when the attempt is eligible and not a duplicate. */
  lemma StepRegisters(registry: Registry, a: Attempt)
    ensures Step(registry, a).Registered? <==>
              Eligible(a)
              && !IsDuplicate(BucketOf(registry, a.config.chainId), a.config.tokenAddress,
                              a.observed.gasTankAddress.value)
    ensures Step(registry, a).Registered? ==> Step(registry, a).tank == NewTank(a)
  {
  }

  /** A configuration matching an existing tank of its chain, ignoring case,
      is skipped and leaves the registry as it was. */
  lemma DuplicateSkipped(registry: Registry, a: Attempt, rest: seq<Attempt>)
    requires a.observed.account.Ok? && a.observed.gasTankAddress.Ok?
    requires exists i :: 0 <= i < |BucketOf(registry, a.config.chainId)|
               && Matches(BucketOf(registry, a.config.chainId)[i],
                          a.config.tokenAddress, a.observed.gasTankAddress.value)
    ensures Step(registry, a) == Skipped(Duplicate)
    ensures Run(registry, [a] + rest) == Run(registry, rest)
  {
  }

  /** An undeployed tank whose EOA holds less than the deposit plus buffer
      is skipped, and nothing is added. */
  lemma UnderfundedSkipped(registry: Registry, a: Attempt, rest: seq<Attempt>)
    requires a.observed.account.Ok? && a.observed.gasTankAddress.Ok? && a.observed.eoaAddress.Ok?
    requires a.observed.isDeployed == Ok(false)
    requires a.observed.eoaBalance.Ok?
    requires a.observed.eoaBalance.value < RequiredDeposit(a.config.amountToDeposit)
    ensures Step(registry, a).Skipped?
    ensures Run(registry, [a] + rest) == Run(registry, rest)
  {
  }

  /** A deployed tank is registered whatever the balance and deployment
      answers would have been: neither is consulted. */
  lemma DeployedIgnoresFunding(registry: Registry, a: Attempt, balance: Result<nat>, hash: Result<Option<string>>)
    requires a.observed.isDeployed == Ok(true)
    ensures Step(registry, a) ==
            Step(registry, a.(observed := a.observed.(eoaBalance := balance, deployHash := hash)))
  {
  }

  /** Whether the deployment returned a hash does not change the outcome. */
  lemma DeployHashIrrelevant(registry: Registry, a: Attempt, hash: Option<string>)
    requires a.observed.deployHash.Ok?
    ensures Step(registry, a) == Step(registry, a.(observed := a.observed.(deployHash := Ok(hash))))
  {
  }

  /** The pass keeps the registry valid: in particular no chain bucket ever
      holds two tanks with the same (token, tank address) ignoring case. */
  lemma {:induction false} RunKeepsValid(registry: Registry, attempts: seq<Attempt>)
    requires Valid(registry)
    ensures Valid(Run(registry, attempts).registry)
    decreases |attempts|
  {
    if attempts != [] {
      match Step(registry, attempts[0])
      case Skipped(_) => RunKeepsValid(registry, attempts[1..]);
      case Registered(tank) =>
        StepRegisters(registry, attempts[0]);
        AppendKeepsValid(registry, tank);
        RunKeepsValid(Appended(registry, tank), attempts[1..]);
      case Aborted(_) =>
    }
  }

  /** Initializing twice, from an empty registry, never yields two entries
      with the same chain, token and tank address. */
  lemma InitializeTwiceUnique(first: seq<Attempt>, second: seq<Attempt>)
    ensures Valid(Run(Run(map[], first).registry, second).registry)
  {
    RunKeepsValid(map[], first);
    RunKeepsValid(Run(map[], first).registry, second);
  }

  /** The pass only appends: every chain keeps its earlier tanks, in order,
      as a prefix, and no chain disappears. */
  lemma {:induction false} RunAppendOnly(registry: Registry, attempts: seq<Attempt>)
    ensures registry.Keys <= Run(registry, attempts).registry.Keys
    ensures forall c :: BucketOf(registry, c) <= BucketOf(Run(registry, attempts).registry, c)
    decreases |attempts|
  {
    if attempts != [] {
      match Step(registry, attempts[0])
      case Skipped(_) => RunAppendOnly(registry, attempts[1..]);
      case Registered(tank) =>
        var next := Appended(registry, tank);
        RunAppendOnly(next, attempts[1..]);
        forall c ensures BucketOf(registry, c) <= BucketOf(Run(registry, attempts).registry, c) {
          assert BucketOf(registry, c) <= BucketOf(next, c);
        }
      case Aborted(_) =>
    }
  }

  /** Every tank the pass adds is the tank of one of its eligible attempts:
      nothing underfunded, undeployed or failing is ever registered. */
  lemma {:induction false} RunRegistersOnlyEligible(registry: Registry, attempts: seq<Attempt>, c: int, k: nat)
    requires |BucketOf(registry, c)| <= k < |BucketOf(Run(registry, attempts).registry, c)|
    ensures exists i :: 0 <= i < |attempts| && Eligible(attempts[i])
              && NewTank(attempts[i]) == BucketOf(Run(registry, attempts).registry, c)[k]
    decreases |attempts|
  {
    var result := Run(registry, attempts).registry;
    assert attempts != [];
    match Step(registry, attempts[0])
    case Skipped(_) =>
      RunRegistersOnlyEligible(registry, attempts[1..], c, k);
      var i :| 0 <= i < |attempts[1..]| && Eligible(attempts[1..][i])
                && NewTank(attempts[1..][i]) == BucketOf(result, c)[k];
      assert attempts[i + 1] == attempts[1..][i];
    case Registered(tank) =>
      StepRegisters(registry, attempts[0]);
      var next := Appended(registry, tank);
      if k == |BucketOf(registry, c)| && c == tank.chainId {
        RunAppendOnly(next, attempts[1..]);
        assert BucketOf(next, c) <= BucketOf(result, c);
        assert BucketOf(result, c)[k] == BucketOf(next, c)[k] == tank;
      } else {
        assert |BucketOf(next, c)| <= k;
        RunRegistersOnlyEligible(next, attempts[1..], c, k);
        var i :| 0 <= i < |attempts[1..]| && Eligible(attempts[1..][i])
                  && NewTank(attempts[1..][i]) == BucketOf(result, c)[k];
        assert attempts[i + 1] == attempts[1..][i];
      }
  }

  /** Once a configuration throws, the configurations after it are never
      processed. */
  lemma {:induction false} RunStopsAtFailure(registry: Registry, attempts: seq<Attempt>, later: seq<Attempt>)
    requires Run(registry, attempts).failure.Some?
    ensures Run(registry, attempts + later) == Run(registry, attempts)
    decreases |attempts|
  {
    assert attempts != [];
    assert (attempts + later)[0] == attempts[0];
    assert (attempts + later)[1..] == attempts[1..] + later;
    match Step(registry, attempts[0])
    case Skipped(_) => RunStopsAtFailure(registry, attempts[1..], later);
    case Registered(tank) => RunStopsAtFailure(Appended(registry, tank), attempts[1..], later);
    case Aborted(_) =>
  }

  /** The process-wide registry and the pass that fills it in place. */
  class GasTankRegistry {
    var gasTanks: Registry

    ghost predicate Valid()
      reads this
    {
      TankRegistry.Valid(gasTanks)
    }

    constructor ()
      ensures Valid() && gasTanks == map[]
    {
      gasTanks := map[];
    }

    /** `initializeSponsorship`: walks the attempts in order, skipping
        duplicates and underfunded tanks and appending the others; a thrown
        value ends the walk and is returned. */
    method InitializeSponsorship(attempts: seq<Attempt>) returns (failure: Option<Thrown>)
      requires Valid()
      modifies this
      ensures Valid()
      ensures gasTanks == Run(old(gasTanks), attempts).registry
      ensures failure == Run(old(gasTanks), attempts).failure
    {
      for i := 0 to |attempts|
        invariant Valid()
        invariant Run(old(gasTanks), attempts) == Run(gasTanks, attempts[i..])
      {
        var cfg, obs := attempts[i].config, attempts[i].observed;
        assert attempts[i..][0] == attempts[i] && attempts[i..][1..] == attempts[i + 1..];

        if obs.account.Err? { return Some(obs.account.error); }
        var gasTankAccount := obs.account.value;
        if obs.gasTankAddress.Err? { return Some(obs.gasTankAddress.error); }
        var gasTankAddress := obs.gasTankAddress.value;

        var existingGasTanks := BucketOf(gasTanks, cfg.chainId);
        var isDuplicateGasTank := IsDuplicate(existingGasTanks, cfg.tokenAddress, gasTankAddress);
        if isDuplicateGasTank { continue; }

        if obs.eoaAddress.Err? { return Some(obs.eoaAddress.error); }
        if obs.isDeployed.Err? { return Some(obs.isDeployed.error); }
        if !obs.isDeployed.value {
          if obs.eoaBalance.Err? { return Some(obs.eoaBalance.error); }
          var balance := obs.eoaBalance.value;
          var amountToDepositWithGasFees := RequiredDeposit(cfg.amountToDeposit);
          if balance < amountToDepositWithGasFees { continue; }
          if obs.deployHash.Err? { return Some(obs.deployHash.error); }
        }

        var newGasTank := GasTank(cfg.chainId, cfg.tokenAddress, gasTankAddress, gasTankAccount);
        var gasTankArr: seq<GasTank>;
        if |existingGasTanks| > 0 {
          gasTankArr := existingGasTanks + [newGasTank];
        } else {
          gasTankArr := [newGasTank];
        }
        assert Step(gasTanks, attempts[i]) == Registered(newGasTank);
        assert gasTankArr == existingGasTanks + [newGasTank];
        assert gasTanks[cfg.chainId := gasTankArr] == Appended(gasTanks, newGasTank);
        AppendKeepsValid(gasTanks, newGasTank);
        gasTanks := gasTanks[cfg.chainId := gasTankArr];
      }
      failure := None;
    }
  }
}

/** What a relay request has to show before it is broadcast: target, selector, live quote and a paid fee. */
module FeeVerifiers {
  import opened Wrappers
  import opened Hex
  import opened FeeArithmetic
  import opened FeeCalculator

  datatype RelayError =
    | InvalidChain
    | InvalidTarget
    | FeeExpired
    | InvalidData
    | FeeInsufficient
    | RelayerBusy
    | GasEstimationFailed
    | DuplicateTx
    | SubmissionFailed
    | NotRelayError // an exception of another kind

  // ----- selectors -----

  const SELECTOR_TRANSACT := "0xd8ae136a"
  const SELECTOR_LEND_AND_SHIELD := "0xf2987ad1"
  const SELECTOR_REDEEM_AND_SHIELD := "0x7e220759"
  const SELECTOR_ATOMIC_XCHAIN_UNSHIELD := "0x2bcba06a"
  const SELECTOR_GASLESS_SHIELD := "0x6e53fbcb"
  const SELECTOR_GASLESS_XCHAIN_SHIELD := "0xd34e1968"

  const GASLESS_SELECTORS := {SELECTOR_GASLESS_SHIELD, SELECTOR_GASLESS_XCHAIN_SHIELD}
  const WRAPPER_SELECTORS := {SELECTOR_LEND_AND_SHIELD, SELECTOR_ATOMIC_XCHAIN_UNSHIELD}
  const ALLOWED_SELECTORS := {SELECTOR_TRANSACT, SELECTOR_REDEEM_AND_SHIELD} + WRAPPER_SELECTORS + GASLESS_SELECTORS

  /** Long enough to be sliced, but not bytes: slicing it throws. */
  predicate Unsliceable(data: string) { Has0x(data) && |data| >= 10 && !IsHexBytes(data) }

  function SelectorOf(data: string): Option<string> {
    if !Has0x(data) || |data| < 10 then None else Some(Lower(data[..10]))
  }

  function AdvertisedFeeKeys(selector: string): seq<FeeKey> {
    if selector == SELECTOR_TRANSACT then [Transfer, Unshield]
    else if selector == SELECTOR_LEND_AND_SHIELD || selector == SELECTOR_REDEEM_AND_SHIELD then [CrossContract]
    else if selector == SELECTOR_ATOMIC_XCHAIN_UNSHIELD then [CrossChainUnshield]
    else if selector == SELECTOR_GASLESS_SHIELD then [Shield]
    else if selector == SELECTOR_GASLESS_XCHAIN_SHIELD then [ShieldXchain]
    else []
  }

  /** Exactly six selectors are allowed, and exactly they have a fee. */
  lemma AllowedSelectorsHaveFees(selector: string)
    ensures selector in ALLOWED_SELECTORS <==> AdvertisedFeeKeys(selector) != []
    ensures selector in ALLOWED_SELECTORS <==>
              selector in {"0xd8ae136a", "0xf2987ad1", "0x7e220759", "0x2bcba06a", "0x6e53fbcb", "0xd34e1968"}
  {
  }

  // ----- what the calldata says -----

  /** A shield note as the hub wrapper's calldata carries it; its value is an amount of its own token. */
  datatype ShieldNote = ShieldNote(npk: int, token: string, value: nat)

  /** A fee note whose token the calldata does not name: the called contract fixes it. */
  datatype FeeNote = FeeNote(npk: int, value: nat)

  /**
   * ABI decoding, Poseidon and note decryption, kept abstract: any partial functions. decrypt gives the amounts per
   * token in the first notes of a transact call that are addressed to the relayer.
   */
  datatype Codec = Codec(
    gaslessShield: string -> Option<seq<ShieldNote>>,
    gaslessXchain: string -> Option<FeeNote>,
    redeem: string -> Option<FeeNote>,
    embedded: string -> Option<string>,
    decrypt: string -> Option<seq<(string, nat)>>,
    deriveNpk: string -> Option<int>)

  datatype FeeContext = FeeContext(
    codec: Codec,
    wrappersByChain: map<nat, string>,
    usdcAddress: string)

  datatype Request = Request(chainId: nat, to: string, data: string, feesCacheId: string, feeShieldRandom: Option<string>)

  predicate Missing(random: Option<string>) { random.None? || random.value == "" }

  /** The value of the first note with the given key. */
  function FirstNoteValue(notes: seq<ShieldNote>, npk: int): Option<nat> {
    if notes == [] then None
    else if notes[0].npk == npk then Some(notes[0].value)
    else FirstNoteValue(notes[1..], npk)
  }

  function ExtractFeeNoteValue(codec: Codec, selector: string, data: string, npk: int): Result<Option<nat>, RelayError> {
    if selector == SELECTOR_GASLESS_SHIELD then
      var notes := codec.gaslessShield(data);
      if notes.None? then Err(InvalidData) else Ok(FirstNoteValue(notes.value, npk))
    else if selector == SELECTOR_GASLESS_XCHAIN_SHIELD then
      var note := codec.gaslessXchain(data);
      if note.None? then Err(InvalidData)
      else Ok(if note.value.npk == npk then Some(note.value.value) else None)
    else Err(InvalidData)
  }

  /** The value of the relayer's fee note, when it covers the advertised fee. */
  function VerifyGaslessFee(ctx: FeeContext, req: Request, advertised: int): Result<nat, RelayError> {
    if req.chainId !in ctx.wrappersByChain || ctx.wrappersByChain[req.chainId] == "" then Err(InvalidChain)
    else if Lower(req.to) != Lower(ctx.wrappersByChain[req.chainId]) then Err(InvalidTarget)
    else if Missing(req.feeShieldRandom) then Err(InvalidData)
    else
      var npk := ctx.codec.deriveNpk(req.feeShieldRandom.value);
      if npk.None? then Err(InvalidData)
      else
        var selector := if |req.data| >= 10 then Lower(req.data[..10]) else Lower(req.data);
        var value := ExtractFeeNoteValue(ctx.codec, selector, req.data, npk.value);
        if value.Err? then Err(value.error)
        else if value.value.None? then Err(FeeInsufficient)
        else if value.value.value < advertised then Err(FeeInsufficient)
        else Ok(value.value.value)
  }

  function VerifyRedeemFee(ctx: FeeContext, req: Request, advertised: int): Result<nat, RelayError> {
    if Missing(req.feeShieldRandom) then Err(InvalidData)
    else
      var fee := ctx.codec.redeem(req.data);
      if fee.None? then Err(InvalidData)
      else if fee.value.value < advertised then Err(FeeInsufficient)
      else
        var npk := ctx.codec.deriveNpk(req.feeShieldRandom.value);
        if npk.None? then Err(InvalidData)
        else if fee.value.npk != npk.value then Err(FeeInsufficient)
        else Ok(fee.value.value)
  }

  /** transact passes through; a wrapper's embedded transaction is lifted out. */
  function NormaliseRequest(codec: Codec, data: string): Result<string, RelayError> {
    if Unsliceable(data) then Err(InvalidData)
    else
      var selector := SelectorOf(data);
      if selector == Some(SELECTOR_TRANSACT) then Ok(data)
      else if selector.None? || selector.value !in WRAPPER_SELECTORS then Err(InvalidData)
      else
        var tx := codec.embedded(data);
        if tx.None? then Err(InvalidData) else Ok(SELECTOR_TRANSACT + tx.value)
  }

  /** The amounts under lower-case keys; a later entry replaces an earlier one. */
  function LowerKeys(amounts: seq<(string, nat)>): map<string, nat> {
    if amounts == [] then map[]
    else
      var last := amounts[|amounts| - 1];
      LowerKeys(amounts[..|amounts| - 1])[Lower(last.0) := last.1]
  }

  /** Entry i is the last one whose key is this one up to case. */
  ghost predicate LastUnder(amounts: seq<(string, nat)>, key: string, i: int) {
    0 <= i < |amounts| && Lower(amounts[i].0) == key && forall j :: i < j < |amounts| ==> Lower(amounts[j].0) != key
  }

  lemma {:induction false} LowerKeysIsLast(amounts: seq<(string, nat)>, key: string, i: int)
    requires LastUnder(amounts, key, i)
    ensures key in LowerKeys(amounts) && LowerKeys(amounts)[key] == amounts[i].1
  {
    if i < |amounts| - 1 {
      LowerKeysIsLast(amounts[..|amounts| - 1], key, i);
    }
  }

  lemma {:induction false} LowerKeysHasNoOther(amounts: seq<(string, nat)>, key: string)
    requires key in LowerKeys(amounts)
    ensures exists i :: LastUnder(amounts, key, i)
  {
    if Lower(amounts[|amounts| - 1].0) == key {
      assert LastUnder(amounts, key, |amounts| - 1);
    } else {
      LowerKeysHasNoOther(amounts[..|amounts| - 1], key);
      var i :| LastUnder(amounts[..|amounts| - 1], key, i);
      assert LastUnder(amounts, key, i);
    }
  }

  method NormalisedAmounts(amounts: seq<(string, nat)>) returns (normalised: map<string, nat>)
    ensures normalised == LowerKeys(amounts)
  {
    normalised := map[];
    for i := 0 to |amounts|
      invariant normalised == LowerKeys(amounts[..i])
    {
      assert amounts[..i + 1][..i] == amounts[..i];
      normalised := normalised[Lower(amounts[i].0) := amounts[i].1];
    }
    assert amounts[..|amounts|] == amounts;
  }

  /** The USDC among the decrypted amounts of the call the request carries; a failed decryption pays nothing. */
  function VerifyBroadcasterFee(ctx: FeeContext, data: string, advertised: int): Result<nat, RelayError> {
    var call := NormaliseRequest(ctx.codec, data);
    if call.Err? then Err(call.error)
    else
      var extracted := ctx.codec.decrypt(call.value);
      if extracted.None? then Err(FeeInsufficient)
      else
        var amounts := LowerKeys(extracted.value);
        var usdc := Lower(ctx.usdcAddress);
        var paid := if usdc in amounts then amounts[usdc] else 0;
        if paid < advertised then Err(FeeInsufficient) else Ok(paid)
  }

  // ----- the checks of the pipeline, in order -----

  datatype RelayConfig = RelayConfig(allowedTargets: map<nat, set<string>>, fees: FeeContext, opts: FeeOptions)

  /** What a request proved: the schedule its quote resolved to and the amount it pays. */
  datatype Approval = Approval(schedule: FeeSchedule, selector: string, paid: nat)

  predicate Priced(s: FeeSchedule) { s.opts.shieldFeeBps != 10_000 }

  function Advertised(s: FeeSchedule, selector: string): int
    requires selector in ALLOWED_SELECTORS && Priced(s)
  {
    LeastFee(s, AdvertisedFeeKeys(selector))
  }

  function VerifyFee(ctx: FeeContext, req: Request, selector: string, advertised: int): Result<nat, RelayError> {
    if selector in GASLESS_SELECTORS then VerifyGaslessFee(ctx, req, advertised)
    else if selector == SELECTOR_REDEEM_AND_SHIELD then VerifyRedeemFee(ctx, req, advertised)
    else VerifyBroadcasterFee(ctx, req.data, advertised)
  }

  /** The fees whose verification waits for a decryption; the others are verified at once. */
  predicate Deferred(selector: string) { selector !in GASLESS_SELECTORS && selector != SELECTOR_REDEEM_AND_SHIELD }

  /** Only the notes in a transact call, its own or an embedded one, have to be decrypted. */
  lemma DeferredExactly(selector: string)
    requires selector in ALLOWED_SELECTORS
    ensures Deferred(selector) <==> selector in {"0xd8ae136a", "0xf2987ad1", "0x2bcba06a"}
  {
    AllowedSelectorsHaveFees(selector);
  }

  /** Everything before the fee: the allowed selector, or the first check that fails. quote is what the id resolved to. */
  function Opening(cfg: RelayConfig, req: Request, quote: Option<FeeSchedule>): Result<string, RelayError> {
    if Unsliceable(req.data) then Err(NotRelayError)
    else if req.chainId !in cfg.allowedTargets then Err(InvalidChain)
    else if req.to == "" || Lower(req.to) !in cfg.allowedTargets[req.chainId] then Err(InvalidTarget)
    else if quote.None? then Err(FeeExpired)
    else if |req.data| < 10 then Err(InvalidData)
    else
      var selector := SelectorOf(req.data);
      if selector.None? || selector.value !in ALLOWED_SELECTORS then Err(InvalidData) else Ok(selector.value)
  }

  /** The fee against the schedule; one without a fee under the selector's keys cannot be compared with. */
  function Settle(cfg: RelayConfig, req: Request, schedule: FeeSchedule, selector: string): Result<Approval, RelayError> {
    if selector !in ALLOWED_SELECTORS || !Priced(schedule) then Err(NotRelayError)
    else
      var paid := VerifyFee(cfg.fees, req, selector, Advertised(schedule, selector));
      if paid.Err? then Err(paid.error) else Ok(Approval(schedule, selector, paid.value))
  }

  /** All checks before the lock, in order. */
  function Checks(cfg: RelayConfig, req: Request, quote: Option<FeeSchedule>): Result<Approval, RelayError> {
    var selector := Opening(cfg, req, quote);
    if selector.Err? then Err(selector.error) else Settle(cfg, req, quote.value, selector.value)
  }

  /** The first note with the relayer's key covers the fee: other notes, also larger ones, do not count. */
  ghost predicate FirstNotePays(notes: seq<ShieldNote>, npk: int, advertised: int, paid: nat) {
    exists i :: FirstNoteOf(notes, npk, i) && notes[i].value == paid && paid >= advertised
  }

  ghost predicate FirstNoteOf(notes: seq<ShieldNote>, npk: int, i: int) {
    0 <= i < |notes| && notes[i].npk == npk && forall j :: 0 <= j < i ==> notes[j].npk != npk
  }

  lemma {:induction false} FirstNoteValueIsFirst(notes: seq<ShieldNote>, npk: int, advertised: int, paid: nat)
    ensures FirstNoteValue(notes, npk) == Some(paid) && paid >= advertised <==> FirstNotePays(notes, npk, advertised, paid)
  {
    if notes != [] {
      var rest := notes[1..];
      FirstNoteValueIsFirst(rest, npk, advertised, paid);
      if notes[0].npk != npk {
        if FirstNotePays(rest, npk, advertised, paid) {
          var i :| FirstNoteOf(rest, npk, i) && rest[i].value == paid;
          assert FirstNoteOf(notes, npk, i + 1);
        }
        if FirstNotePays(notes, npk, advertised, paid) {
          var i :| FirstNoteOf(notes, npk, i) && notes[i].value == paid;
          assert FirstNoteOf(rest, npk, i - 1);
        }
      } else if paid == notes[0].value {
        assert FirstNoteOf(notes, npk, 0);
      }
    }
  }

  /** The verdict on a hub note never reads its token. */
  lemma {:induction false} NoteTokenIsNotRead(notes: seq<ShieldNote>, others: seq<ShieldNote>, npk: int)
    requires |notes| == |others|
    requires forall i :: 0 <= i < |notes| ==> notes[i].npk == others[i].npk && notes[i].value == others[i].value
    ensures FirstNoteValue(notes, npk) == FirstNoteValue(others, npk)
  {
    if notes != [] {
      NoteTokenIsNotRead(notes[1..], others[1..], npk);
    }
  }

  /** The transact call of a request: its own calldata, or the transaction embedded in a wrapper call, lifted out. */
  ghost predicate CarriesCall(codec: Codec, data: string, call: string) {
    if SelectorOf(data) == Some(SELECTOR_TRANSACT) then call == data
    else
      && SelectorOf(data).Some? && SelectorOf(data).value in WRAPPER_SELECTORS
      && codec.embedded(data).Some? && call == SELECTOR_TRANSACT + codec.embedded(data).value
  }

  /** The amount under a token address up to case: the last one listed, or nothing. */
  ghost predicate PaidUnder(amounts: seq<(string, nat)>, token: string, paid: nat) {
    || (exists i :: LastUnder(amounts, token, i) && amounts[i].1 == paid)
    || (paid == 0 && forall i :: 0 <= i < |amounts| ==> Lower(amounts[i].0) != token)
  }

  lemma LowerKeysPaid(amounts: seq<(string, nat)>, token: string, paid: nat)
    ensures PaidUnder(amounts, token, paid) <==> paid == if token in LowerKeys(amounts) then LowerKeys(amounts)[token] else 0
  {
    if token in LowerKeys(amounts) {
      LowerKeysHasNoOther(amounts, token);
      var i :| LastUnder(amounts, token, i);
      LowerKeysIsLast(amounts, token, i);
      forall j | LastUnder(amounts, token, j) ensures j == i {
        assert !(j < i) && !(i < j);
      }
    } else {
      forall i | LastUnder(amounts, token, i) ensures false {
        LowerKeysIsLast(amounts, token, i);
      }
      NoKeyNoEntry(amounts, token);
    }
  }

  lemma {:induction false} NoKeyNoEntry(amounts: seq<(string, nat)>, token: string)
    requires token !in LowerKeys(amounts)
    ensures forall i :: 0 <= i < |amounts| ==> Lower(amounts[i].0) != token
  {
    if amounts != [] {
      NoKeyNoEntry(amounts[..|amounts| - 1], token);
    }
  }

  ghost predicate PaysGasless(cfg: RelayConfig, req: Request, a: Approval, fee: int) {
    var codec := cfg.fees.codec;
    && req.chainId in cfg.fees.wrappersByChain && cfg.fees.wrappersByChain[req.chainId] != ""
    && Lower(req.to) == Lower(cfg.fees.wrappersByChain[req.chainId])
    && !Missing(req.feeShieldRandom) && codec.deriveNpk(req.feeShieldRandom.value).Some?
    && var npk := codec.deriveNpk(req.feeShieldRandom.value).value;
       if a.selector == SELECTOR_GASLESS_SHIELD
       then codec.gaslessShield(req.data).Some? && FirstNotePays(codec.gaslessShield(req.data).value, npk, fee, a.paid)
       else codec.gaslessXchain(req.data) == Some(FeeNote(npk, a.paid)) && a.paid >= fee
  }

  ghost predicate PaysRedeem(cfg: RelayConfig, req: Request, a: Approval, fee: int) {
    && !Missing(req.feeShieldRandom) && cfg.fees.codec.deriveNpk(req.feeShieldRandom.value).Some?
    && cfg.fees.codec.redeem(req.data) == Some(FeeNote(cfg.fees.codec.deriveNpk(req.feeShieldRandom.value).value, a.paid))
    && a.paid >= fee
  }

  /** The call the request carries, decrypted with the relayer's key, holds this much USDC. */
  ghost predicate PaysBroadcaster(cfg: RelayConfig, req: Request, a: Approval, fee: int) {
    exists call ::
      && CarriesCall(cfg.fees.codec, req.data, call)
      && cfg.fees.codec.decrypt(call).Some?
      && PaidUnder(cfg.fees.codec.decrypt(call).value, Lower(cfg.fees.usdcAddress), a.paid)
      && a.paid >= fee
  }

  /** The fee the request's own calldata pays to this relayer. */
  ghost predicate Pays(cfg: RelayConfig, req: Request, a: Approval, fee: int) {
    if a.selector in GASLESS_SELECTORS then PaysGasless(cfg, req, a, fee)
    else if a.selector == SELECTOR_REDEEM_AND_SHIELD then PaysRedeem(cfg, req, a, fee)
    else PaysBroadcaster(cfg, req, a, fee)
  }

  /** Target, selector and calldata are as configured and the fee of the approval's schedule is paid. */
  ghost predicate Approved(cfg: RelayConfig, req: Request, a: Approval) {
    && a.schedule.opts.shieldFeeBps != 10_000
    && req.chainId in cfg.allowedTargets && req.to != "" && Lower(req.to) in cfg.allowedTargets[req.chainId]
    && IsHexBytes(req.data) && SelectorOf(req.data) == Some(a.selector) && a.selector in ALLOWED_SELECTORS
    && Pays(cfg, req, a, Advertised(a.schedule, a.selector))
  }

  lemma GaslessVerified(cfg: RelayConfig, req: Request, a: Approval, fee: int)
    requires SelectorOf(req.data) == Some(a.selector) && a.selector in GASLESS_SELECTORS
    ensures VerifyGaslessFee(cfg.fees, req, fee) == Ok(a.paid) <==> PaysGasless(cfg, req, a, fee)
  {
    if !Missing(req.feeShieldRandom) && cfg.fees.codec.deriveNpk(req.feeShieldRandom.value).Some? {
      var npk := cfg.fees.codec.deriveNpk(req.feeShieldRandom.value).value;
      if cfg.fees.codec.gaslessShield(req.data).Some? {
        FirstNoteValueIsFirst(cfg.fees.codec.gaslessShield(req.data).value, npk, fee, a.paid);
      }
    }
  }

  /** Normalising gives the one call the request carries. */
  lemma NormalisedCall(codec: Codec, data: string, call: string)
    requires !Unsliceable(data)
    ensures NormaliseRequest(codec, data) == Ok(call) <==> CarriesCall(codec, data, call)
  {
  }

  lemma BroadcasterVerified(cfg: RelayConfig, req: Request, a: Approval, fee: int)
    requires !Unsliceable(req.data)
    ensures VerifyBroadcasterFee(cfg.fees, req.data, fee) == Ok(a.paid) <==> PaysBroadcaster(cfg, req, a, fee)
  {
    var codec, usdc := cfg.fees.codec, Lower(cfg.fees.usdcAddress);
    forall call | CarriesCall(codec, req.data, call) ensures NormaliseRequest(codec, req.data) == Ok(call) {
      NormalisedCall(codec, req.data, call);
    }
    var call := NormaliseRequest(codec, req.data);
    if call.Ok? {
      NormalisedCall(codec, req.data, call.value);
      if codec.decrypt(call.value).Some? {
        LowerKeysPaid(codec.decrypt(call.value).value, usdc, a.paid);
      }
    }
  }

  lemma FeeVerified(cfg: RelayConfig, req: Request, a: Approval, fee: int)
    requires !Unsliceable(req.data) && SelectorOf(req.data) == Some(a.selector) && a.selector in ALLOWED_SELECTORS
    ensures VerifyFee(cfg.fees, req, a.selector, fee) == Ok(a.paid) <==> Pays(cfg, req, a, fee)
  {
    if a.selector in GASLESS_SELECTORS {
      GaslessVerified(cfg, req, a, fee);
    } else if a.selector != SELECTOR_REDEEM_AND_SHIELD {
      BroadcasterVerified(cfg, req, a, fee);
    }
  }

  /** The ordered checks accept exactly the requests that show everything, for the amount they pay. */
  lemma ChecksAreExact(cfg: RelayConfig, req: Request, quote: Option<FeeSchedule>, a: Approval)
    ensures Checks(cfg, req, quote) == Ok(a) <==> quote == Some(a.schedule) && Approved(cfg, req, a)
  {
    if !Unsliceable(req.data) && quote == Some(a.schedule) && SelectorOf(req.data) == Some(a.selector)
       && a.selector in ALLOWED_SELECTORS && Priced(a.schedule)
    {
      FeeVerified(cfg, req, a, Advertised(a.schedule, a.selector));
    }
  }

  /**
   * A gasless request that is approved leaves the relayer, after the pool's shield fee on its note, with at
   * least the gas reimbursement of its tier, counted in the note's own token.
   */
  lemma GaslessCoversGas(cfg: RelayConfig, req: Request, a: Approval)
    requires Approved(cfg, req, a) && a.selector in GASLESS_SELECTORS
    requires a.schedule.opts.shieldFeeBps < 10_000
    ensures var tier := if a.selector == SELECTOR_GASLESS_SHIELD then Shield else ShieldXchain;
            NetOf(a.paid, a.schedule.opts.shieldFeeBps) >= NetFee(a.schedule, tier)
  {
    var tier := if a.selector == SELECTOR_GASLESS_SHIELD then Shield else ShieldXchain;
    var bps := a.schedule.opts.shieldFeeBps;
    assert AdvertisedFeeKeys(a.selector) == [tier];
    GrossUpKeepsWhole(NetFee(a.schedule, tier), bps);
    var quoted := Fee(a.schedule, tier).value;
    assert a.paid >= quoted;
    NetIsMonotone(quoted, a.paid, bps);
  }

  // ----- what each selector owes -----

  /** The fee of this much gas at the prices of the schedule. */
  ghost predicate CostsGas(s: FeeSchedule, fee: int, gas: nat) {
    fee == ComputeFeeUsdcRaw(gas, s.market.gasPriceWei, s.market.priceScaled, s.opts.marginBps)
  }

  /** The fee of this much gas, grossed up for the pool's shield fee. */
  ghost predicate CostsGasGrossedUp(s: FeeSchedule, fee: int, gas: nat) {
    Some(fee) == GrossUpForShieldFee(ComputeFeeUsdcRaw(gas, s.market.gasPriceWei, s.market.priceScaled, s.opts.marginBps),
                                     s.opts.shieldFeeBps)
  }

  /**
   * What is asked for each selector: 500000 gas for transact and atomicCrossChainUnshield, 2000000 for lendAndShield and
   * redeemAndShield, and, grossed up, 300000 for gaslessShield and 400000 for gaslessCrossChainShield.
   */
  lemma WhatSelectorsOwe(s: FeeSchedule, selector: string)
    requires selector in ALLOWED_SELECTORS && Priced(s)
    ensures selector == "0xd8ae136a" || selector == "0x2bcba06a" ==> CostsGas(s, Advertised(s, selector), 500_000)
    ensures selector == "0xf2987ad1" || selector == "0x7e220759" ==> CostsGas(s, Advertised(s, selector), 2_000_000)
    ensures selector == "0x6e53fbcb" ==> CostsGasGrossedUp(s, Advertised(s, selector), 300_000)
    ensures selector == "0xd34e1968" ==> CostsGasGrossedUp(s, Advertised(s, selector), 400_000)
  {
    var keys := AdvertisedFeeKeys(selector);
    var k :| k in keys && Fee(s, k) == Some(Advertised(s, selector));
  }

  /** The amount covers the fee of this much gas. */
  ghost predicate CoversGas(a: Approval, gas: nat) {
    a.paid >= ComputeFeeUsdcRaw(gas, a.schedule.market.gasPriceWei, a.schedule.market.priceScaled, a.schedule.opts.marginBps)
  }

  /** What the pool leaves of a note of this amount covers the fee of this much gas. */
  ghost predicate CoversGasAfterFee(a: Approval, gas: nat) {
    var bps := a.schedule.opts.shieldFeeBps;
    bps < 10_000 ==>
      a.paid * (10_000 - bps) >= 10_000 * ComputeFeeUsdcRaw(gas, a.schedule.market.gasPriceWei, a.schedule.market.priceScaled,
                                                          a.schedule.opts.marginBps)
  }

  ghost predicate PaysItsWay(a: Approval) {
    || (a.selector in {"0xd8ae136a", "0x2bcba06a"} && CoversGas(a, 500_000))
    || (a.selector in {"0xf2987ad1", "0x7e220759"} && CoversGas(a, 2_000_000))
    || (a.selector == "0x6e53fbcb" && CoversGasAfterFee(a, 300_000))
    || (a.selector == "0xd34e1968" && CoversGasAfterFee(a, 400_000))
  }

  lemma GrossedUpCovers(a: Approval, fee: int, gas: nat)
    requires CostsGasGrossedUp(a.schedule, fee, gas) && a.paid >= fee
    ensures CoversGasAfterFee(a, gas)
  {
    var bps := a.schedule.opts.shieldFeeBps;
    var net := ComputeFeeUsdcRaw(gas, a.schedule.market.gasPriceWei, a.schedule.market.priceScaled, a.schedule.opts.marginBps);
    if 0 < bps < 10_000 {
      GrossUpIsLeast(net, bps);
      MulMonotone(fee, a.paid, 10_000 - bps, 10_000 - bps);
    }
  }

  /** An approved request calls one of the six operations and pays for the gas of that operation. */
  lemma ApprovedPaysItsWay(cfg: RelayConfig, req: Request, a: Approval)
    requires Approved(cfg, req, a)
    ensures PaysItsWay(a)
    ensures |req.data| >= 10 && a.selector == Lower(req.data[..10])
  {
    var fee := Advertised(a.schedule, a.selector);
    AllowedSelectorsHaveFees(a.selector);
    WhatSelectorsOwe(a.schedule, a.selector);
    assert a.paid >= fee;
    if a.selector == "0x6e53fbcb" {
      GrossedUpCovers(a, fee, 300_000);
    } else if a.selector == "0xd34e1968" {
      GrossedUpCovers(a, fee, 400_000);
    }
  }

  // ----- why a request is refused -----

  /** The calldata starts with one of the six selectors. */
  predicate CallsAllowed(data: string) {
    && Has0x(data) && |data| >= 10
    && Lower(data[..10]) in {"0xd8ae136a", "0xf2987ad1", "0x7e220759", "0x2bcba06a", "0x6e53fbcb", "0xd34e1968"}
  }

  predicate TargetAllowed(cfg: RelayConfig, req: Request) {
    req.chainId in cfg.allowedTargets && req.to != "" && Lower(req.to) in cfg.allowedTargets[req.chainId]
  }

  /** The error names the first check before the fee that the request fails; all checks before that one hold. */
  predicate FailsOpening(cfg: RelayConfig, req: Request, quote: Option<FeeSchedule>, e: RelayError) {
    if Has0x(req.data) && |req.data| >= 10 && !IsHexBytes(req.data) then e == NotRelayError
    else match e
      case InvalidChain => req.chainId !in cfg.allowedTargets
      case InvalidTarget => req.chainId in cfg.allowedTargets && !TargetAllowed(cfg, req)
      case FeeExpired => TargetAllowed(cfg, req) && quote.None?
      case InvalidData => TargetAllowed(cfg, req) && quote.Some? && !CallsAllowed(req.data)
      case _ => false
  }

  lemma OpeningFailsExactly(cfg: RelayConfig, req: Request, quote: Option<FeeSchedule>)
    ensures forall e :: Opening(cfg, req, quote) == Err(e) <==> FailsOpening(cfg, req, quote, e)
  {
    if Has0x(req.data) && |req.data| >= 10 {
      AllowedSelectorsHaveFees(Lower(req.data[..10]));
    }
  }

  /** The wrapper of the request's chain, when one is configured. */
  predicate HasWrapper(cfg: RelayConfig, req: Request) {
    req.chainId in cfg.fees.wrappersByChain && cfg.fees.wrappersByChain[req.chainId] != ""
  }

  /** What the fee is read from is not there or does not decode. */
  predicate Unreadable(cfg: RelayConfig, req: Request, selector: string, fee: int) {
    var codec, random := cfg.fees.codec, req.feeShieldRandom;
    if selector in {"0xd8ae136a", "0xf2987ad1", "0x2bcba06a"} then selector != "0xd8ae136a" && codec.embedded(req.data).None?
    else
      || random.None? || random.value == ""
      || (match selector
          case "0x6e53fbcb" => codec.deriveNpk(random.value).None? || codec.gaslessShield(req.data).None?
          case "0xd34e1968" => codec.deriveNpk(random.value).None? || codec.gaslessXchain(req.data).None?
          case _ =>
            || codec.redeem(req.data).None?
            || (codec.redeem(req.data).value.value >= fee && codec.deriveNpk(random.value).None?))
  }

  /** The error says why the request does not pay this fee; a readable one that pays too little is insufficient. */
  ghost predicate FailsFee(cfg: RelayConfig, req: Request, s: FeeSchedule, selector: string, fee: int, e: RelayError) {
    var gasless := selector in {"0x6e53fbcb", "0xd34e1968"};
    if gasless && !HasWrapper(cfg, req) then e == InvalidChain
    else if gasless && Lower(req.to) != Lower(cfg.fees.wrappersByChain[req.chainId]) then e == InvalidTarget
    else if Unreadable(cfg, req, selector, fee) then e == InvalidData
    else e == FeeInsufficient && forall paid: nat :: !Pays(cfg, req, Approval(s, selector, paid), fee)
  }

  lemma UnreadableFee(cfg: RelayConfig, req: Request, selector: string, fee: int)
    requires !Unsliceable(req.data) && SelectorOf(req.data) == Some(selector) && selector in ALLOWED_SELECTORS
    requires selector in GASLESS_SELECTORS ==>
               HasWrapper(cfg, req) && Lower(req.to) == Lower(cfg.fees.wrappersByChain[req.chainId])
    ensures var verdict := VerifyFee(cfg.fees, req, selector, fee);
            if Unreadable(cfg, req, selector, fee) then verdict == Err(InvalidData)
            else verdict.Ok? || verdict == Err(FeeInsufficient)
  {
  }

  lemma FeeFailsExactly(cfg: RelayConfig, req: Request, s: FeeSchedule, selector: string, fee: int, e: RelayError)
    requires !Unsliceable(req.data) && SelectorOf(req.data) == Some(selector) && selector in ALLOWED_SELECTORS
    ensures VerifyFee(cfg.fees, req, selector, fee) == Err(e) <==> FailsFee(cfg, req, s, selector, fee, e)
  {
    var verdict := VerifyFee(cfg.fees, req, selector, fee);
    AllowedSelectorsHaveFees(selector);
    if selector in GASLESS_SELECTORS
       && !(HasWrapper(cfg, req) && Lower(req.to) == Lower(cfg.fees.wrappersByChain[req.chainId]))
    {
      assert verdict == Err(if HasWrapper(cfg, req) then InvalidTarget else InvalidChain);
    } else {
      UnreadableFee(cfg, req, selector, fee);
      forall paid: nat ensures verdict == Ok(paid) <==> Pays(cfg, req, Approval(s, selector, paid), fee) {
        FeeVerified(cfg, req, Approval(s, selector, paid), fee);
      }
      if verdict.Ok? {
        assert Pays(cfg, req, Approval(s, selector, verdict.value), fee);
      }
    }
  }
}

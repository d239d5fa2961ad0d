/**
 What each instruction accepts, and what it does to the books, in plain amounts: fees by their
 meaning, prices by their bounds, requests by what happens to them.
 */
module VaultTerms {
  import opened Arithmetic
  import opened Bytes
  import opened RollingLimit
  import opened VaultLedger
  import opened VaultMath
  import opened Wrappers

  // ---- Fees ----

  /** What a fee on an amount is: nothing, the fixed sum, or the percentage rounded up. */
  predicate IsFee(fee: Option<FeeType>, amount: U64, charged: nat)
  {
    match fee
    case None => charged == 0
    case Some(FixedAmount(sum)) => charged == sum
    case Some(Percentage(bps)) => 0 <= 10_000 * charged - amount * bps < 10_000
  }

  /** The protocol's part of a fee: its percentage rounded up, the rest is the fee recipient's. */
  predicate IsSplit(bps: U16, fee: int, protocolFee: int, recipientFee: int)
  {
    protocolFee + recipientFee == fee && 0 <= 10_000 * protocolFee - fee * bps < 10_000
  }

  lemma OneFee(fee: Option<FeeType>, amount: U64, a: nat, b: nat)
    requires IsFee(fee, amount, a) && IsFee(fee, amount, b)
    ensures a == b
  {
  }

  /** A fee is charged as what it is, unless it does not fit; and a fixed fee always validates. */
  lemma ExtensionFeeIs(fee: Option<FeeType>, amount: U64, charged: nat)
    requires IsFee(fee, amount, charged)
    ensures ExtensionFee(fee, amount) == if charged <= MAX_U64 then Ok(charged) else Err(MathFailure)
    ensures fee.Some? && fee.value.FixedAmount? ==> Validate(fee.value).Ok?
  {
    if fee.Some? && fee.value.Percentage? {
      var scaled := amount * fee.value.bps;
      FeeIsCeiling(fee.value.bps, amount);
      CeilDivBounds(scaled, 10_000);
    }
  }

  /** A fixed fee is the sum itself, whatever the amount: nothing is refused and nothing rounded. */
  lemma FixedFeeIsItself(sum: U64, amount: U64)
    ensures GetFee(FixedAmount(sum), amount) == Ok(sum) && Validate(FixedAmount(sum)) == Ok(())
  {
    ExtensionFeeIs(Some(FixedAmount(sum)), amount, sum);
  }

  lemma SplitIs(fee: U64, bps: U16)
    ensures Split(fee, bps).Ok? <==> bps <= MAX_BPS || fee == 0
    ensures Split(fee, bps).Ok? ==> IsSplit(bps, fee, Split(fee, bps).value.0, Split(fee, bps).value.1)
  {
    hide SplitProtocolFee;
    SplitConserves(fee, bps);
  }

  // ---- Prices ----

  /**
   A deposit is priced exactly if the fee leaves something, what is left converts to some shares, and
   the protocol's rate is a rate. The terms: the fee by its meaning, the floor of the shares, the split.
   */
  lemma DepositPricedIff(c: Config, nav: U128, decimals: U8, amount: U64, fee: nat)
    requires IsFee(c.depositFee, amount, fee)
    ensures PriceDeposit(c, nav, decimals, amount).Ok?
       <==> && fee < amount
            && CalculateShares(nav, decimals, amount - fee).Ok? && CalculateShares(nav, decimals, amount - fee).value > 0
            && (c.protocolFeeBps <= MAX_BPS || fee == 0)
    ensures PriceDeposit(c, nav, decimals, amount).Ok? ==>
              var terms := PriceDeposit(c, nav, decimals, amount).value;
              && terms.net == amount - fee
              && IsSplit(c.protocolFeeBps, fee, terms.protocolFee, terms.recipientFee)
              && terms.shares > 0
              && terms.shares * nav <= terms.net * Pow10(decimals) < terms.shares * nav + nav
  {
    hide ExtensionFee, Split, CalculateShares;
    ExtensionFeeIs(c.depositFee, amount, fee);
    if fee < amount {
      SplitIs(fee, c.protocolFeeBps);
      if CalculateShares(nav, decimals, amount - fee).Ok? {
        SharesValue(nav, decimals, amount - fee);
      }
    }
  }

  /**
   A redemption is priced exactly if its shares convert, the gross covers the fee, the rolling limit
   has room for the gross and the protocol's rate is a rate.
   */
  lemma RedeemPricedIff(c: Config, nav: U128, decimals: U8, w: Window, shares: U64, slot: U64, gross: U64, fee: nat)
    requires CalculateAssets(nav, decimals, shares) == Ok(gross) && IsFee(c.withdrawalFee, gross, fee)
    ensures PriceRedeem(c, nav, decimals, w, shares, slot).Ok?
       <==> && fee <= gross
            && Consume(w, gross, slot, c.redemptionRollingLimit, c.rollingLimitWindowSlots).Ok?
            && (c.protocolFeeBps <= MAX_BPS || fee == 0)
    ensures PriceRedeem(c, nav, decimals, w, shares, slot).Ok? ==>
              var terms := PriceRedeem(c, nav, decimals, w, shares, slot).value;
              && terms.gross == gross && terms.net == gross - fee
              && IsSplit(c.protocolFeeBps, fee, terms.protocolFee, terms.recipientFee)
              && Consume(w, gross, slot, c.redemptionRollingLimit, c.rollingLimitWindowSlots) == Ok(terms.window)
              && gross * Pow10(decimals) <= shares * nav < gross * Pow10(decimals) + Pow10(decimals)
  {
    hide ExtensionFee, Split, CalculateAssets, Consume;
    ExtensionFeeIs(c.withdrawalFee, gross, fee);
    AssetsValue(nav, decimals, shares);
    if fee <= gross {
      SplitIs(fee, c.protocolFeeBps);
    }
  }

  /** Shares that do not convert are never priced. */
  lemma RedeemNotPriced(c: Config, nav: U128, decimals: U8, w: Window, shares: U64, slot: U64)
    requires CalculateAssets(nav, decimals, shares).Err?
    ensures PriceRedeem(c, nav, decimals, w, shares, slot).Err?
  {
  }

  /** An instant redemption pays the withdrawal fee and the instant percentage, and must leave something. */
  lemma InstantFeeIs(c: Config, gross: U64, withdrawalFee: nat, instantFee: nat)
    requires IsFee(c.withdrawalFee, gross, withdrawalFee)
    requires IsFee(Some(Percentage(c.instantRedemptionFeeBps)), gross, instantFee)
    ensures InstantFeeAndNet(c, gross).Ok? <==> withdrawalFee + instantFee < gross
    ensures InstantFeeAndNet(c, gross).Ok? ==>
              InstantFeeAndNet(c, gross).value == (withdrawalFee + instantFee, gross - withdrawalFee - instantFee)
  {
    hide ExtensionFee;
    ExtensionFeeIs(c.withdrawalFee, gross, withdrawalFee);
    ExtensionFeeIs(Some(Percentage(c.instantRedemptionFeeBps)), gross, instantFee);
  }

  /** The exact fee of a percentage, to name it in the lemmas above. */
  function FeeOn(fee: Option<FeeType>, amount: U64): (charged: nat)
    ensures IsFee(fee, amount, charged)
  {
    match fee
    case None => 0
    case Some(FixedAmount(sum)) => sum
    case Some(Percentage(bps)) =>
      CeilDivBounds(amount * bps, 10_000);
      CeilDiv(amount * bps, 10_000)
  }

  // ---- What settling does ----

  /** The fees of a settlement reach the protocol and the fee recipient in the right parts. */
  predicate FeesPaid(l: Ledger, next: Ledger, fee: int)
  {
    IsSplit(l.config.protocolFeeBps, fee, next.flows.protocol - l.flows.protocol,
            next.flows.feeRecipient - l.flows.feeRecipient)
  }

  /** Nothing but requests, counters, balances, the redemption window, the queues and the flows has changed. */
  predicate SameSetUp(l: Ledger, next: Ledger)
  {
    && next.config == l.config && next.initialized == l.initialized && next.paused == l.paused
    && next.decimals == l.decimals && next.nav == l.nav && next.navVersion == l.navVersion
    && next.lastNavUpdateSlot == l.lastNavUpdateSlot && next.managerWindow == l.managerWindow
    && next.positions == l.positions
  }

  /**
   An approved deposit: its owner has a claim on the floor of what the deposit less its fee is worth,
   that much is in the reserve, and the fee has been paid out of the escrow.
   */
  lemma DepositApproved(l: Ledger, signer: Address, i: nat, slot: U64)
    requires ApproveRequest(l, signer, i, slot).Ok? && l.requests[i].kind == DepositRequest
    ensures var next, r := ApproveRequest(l, signer, i, slot).value, l.requests[i];
            var fee := FeeOn(l.config.depositFee, r.amount);
            var net := r.amount - fee;
            var shares := next.requests[i].amount;
            && net > 0 && shares > 0
            && shares * l.nav <= net * Pow10(l.decimals) < shares * l.nav + l.nav
            && next.requests == l.requests[i := r.(state := Claimable, amount := shares)]
            && next.reserve == l.reserve + net && next.totalAssetBalance == l.totalAssetBalance + net
            && next.pendingVault == l.pendingVault - r.amount
            && next.pendingDepositAmount == l.pendingDepositAmount - r.amount
            && next.pendingAsyncRequests == l.pendingAsyncRequests - 1 && next.shareSupply == l.shareSupply
            && FeesPaid(l, next, fee) && SameSetUp(l, next)
            && next.flows.paidIn == l.flows.paidIn && next.flows.paidOut == l.flows.paidOut
            && next.flows.withdrawn == l.flows.withdrawn && next.redemptionWindow == l.redemptionWindow
  {
    hide PriceDeposit, DepositSettlement, CheckAndAdvance, Usable, NavNotStale, CalculateShares, Pow10;
    DepositPricedIff(l.config, l.nav, l.decimals, l.requests[i].amount, FeeOn(l.config.depositFee, l.requests[i].amount));
  }

  /**
   An approved redemption: its owner has a claim on the floor of what the shares are worth less the
   fee, that much has moved from the reserve to the escrow, and the fee out of the reserve.
   */
  lemma RedemptionApproved(l: Ledger, signer: Address, i: nat, slot: U64)
    requires ApproveRequest(l, signer, i, slot).Ok? && l.requests[i].kind == RedeemRequest
    ensures var next, r := ApproveRequest(l, signer, i, slot).value, l.requests[i];
            var gross := l.totalAssetBalance - next.totalAssetBalance;
            && 0 < gross <= MAX_U64
            && gross * Pow10(l.decimals) <= r.amount * l.nav < gross * Pow10(l.decimals) + Pow10(l.decimals)
            && var fee := FeeOn(l.config.withdrawalFee, gross);
               var net := gross - fee;
               && net >= 0
               && next.requests == l.requests[i := r.(state := Claimable, amount := net)]
               && next.reserve == l.reserve - gross && next.pendingVault == l.pendingVault + net
               && next.pendingDepositAmount == l.pendingDepositAmount
               && next.pendingAsyncRequests == l.pendingAsyncRequests - 1 && next.shareSupply == l.shareSupply
               && FeesPaid(l, next, fee) && SameSetUp(l, next)
               && next.flows.paidIn == l.flows.paidIn && next.flows.paidOut == l.flows.paidOut
               && next.flows.withdrawn == l.flows.withdrawn
  {
    hide PriceRedeem, RedeemSettlement, CheckAndAdvance, Usable, NavNotStale, CalculateAssets, Pow10, Consume;
    var assets := CalculateAssets(l.nav, l.decimals, l.requests[i].amount);
    if assets.Err? {
      RedeemNotPriced(l.config, l.nav, l.decimals, l.redemptionWindow, l.requests[i].amount, slot);
    } else {
      AssetsValue(l.nav, l.decimals, l.requests[i].amount);
      RedeemPricedIff(l.config, l.nav, l.decimals, l.redemptionWindow, l.requests[i].amount, slot, assets.value,
                      FeeOn(l.config.withdrawalFee, assets.value));
    }
  }

  /** An instant deposit: the user pays the amount and gets the floor of what it is worth less the fee. */
  lemma InstantlyDeposited(l: Ledger, amount: U64, slot: U64, wallet: U64)
    requires InstantDeposit(l, amount, slot, wallet).Ok?
    ensures var next := InstantDeposit(l, amount, slot, wallet).value;
            var fee := FeeOn(l.config.depositFee, amount);
            var net, shares := amount - fee, next.shareSupply - l.shareSupply;
            && amount <= wallet && net > 0 && shares > 0
            && shares * l.nav <= net * Pow10(l.decimals) < shares * l.nav + l.nav
            && next.reserve == l.reserve + net && next.totalAssetBalance == l.totalAssetBalance + net
            && next.flows.paidIn == l.flows.paidIn + amount && FeesPaid(l, next, fee) && SameSetUp(l, next)
            && next == l.(reserve := next.reserve, totalAssetBalance := next.totalAssetBalance,
                          shareSupply := next.shareSupply, flows := next.flows)
            && next.flows.paidOut == l.flows.paidOut && next.flows.withdrawn == l.flows.withdrawn
  {
    hide PriceDeposit, InstantAllowed, DepositCapAllows, CalculateShares, Pow10;
    DepositPricedIff(l.config, l.nav, l.decimals, amount, FeeOn(l.config.depositFee, amount));
  }

  /** An instant redemption: the shares are burned and the user gets the floor of their worth less both fees. */
  lemma InstantlyRedeemed(l: Ledger, shares: U64, slot: U64, wallet: U64)
    requires InstantRedeem(l, shares, slot, wallet).Ok?
    ensures var next := InstantRedeem(l, shares, slot, wallet).value;
            var gross := l.totalAssetBalance - next.totalAssetBalance;
            && 0 < gross <= MAX_U64 && shares <= wallet
            && gross * Pow10(l.decimals) <= shares * l.nav < gross * Pow10(l.decimals) + Pow10(l.decimals)
            && var fee := FeeOn(l.config.withdrawalFee, gross)
                          + FeeOn(Some(Percentage(l.config.instantRedemptionFeeBps)), gross);
               && fee < gross
               && next.flows.paidOut == l.flows.paidOut + gross - fee && FeesPaid(l, next, fee)
               && next.reserve == l.reserve - gross && next.shareSupply == l.shareSupply - shares && SameSetUp(l, next)
               && next == l.(reserve := next.reserve, totalAssetBalance := next.totalAssetBalance,
                             shareSupply := next.shareSupply, redemptionWindow := next.redemptionWindow, flows := next.flows)
               && next.flows.paidIn == l.flows.paidIn && next.flows.withdrawn == l.flows.withdrawn
  {
    hide InstantAllowed, CalculateAssets, Pow10, Consume, InstantFeeAndNet, Split;
    var gross := Assets(l.nav, l.decimals, shares).value;
    AssetsValue(l.nav, l.decimals, shares);
    var withdrawalFee, instantFee := FeeOn(l.config.withdrawalFee, gross),
      FeeOn(Some(Percentage(l.config.instantRedemptionFeeBps)), gross);
    InstantFeeIs(l.config, gross, withdrawalFee, instantFee);
    SplitIs(InstantFeeAndNet(l.config, gross).value.0, l.config.protocolFeeBps);
  }
}

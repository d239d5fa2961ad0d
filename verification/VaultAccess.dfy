/** Who may do what, when an instruction goes through, and what can become of a request. */
module VaultAccess {
  import opened Arithmetic
  import opened Bytes
  import opened VaultLedger
  import opened VaultMath
  import opened VaultTerms
  import opened Wrappers

  // ---- When instructions go through ----

  predicate InUse(l: Ledger)
  {
    l.initialized && !l.paused
  }

  /** A deposit request is accepted exactly if the vault is in use, the cap and the fee leave room, and all fits. */
  lemma DepositAcceptedIff(l: Ledger, amount: U64, wallet: U64)
    ensures DepositAccepted(l, amount, wallet).Ok?
       <==> && InUse(l)
            && (l.config.depositCap != 0 ==> l.totalAssetBalance + l.pendingDepositAmount + amount <= l.config.depositCap)
            && FeeOn(l.config.depositFee, amount) < amount <= wallet
            && l.pendingVault + amount <= MAX_U64 && l.pendingDepositAmount + amount <= MAX_U64
            && l.pendingAsyncRequests < 0xffff
  {
    hide ExtensionFee, FeeOn;
    ExtensionFeeIs(l.config.depositFee, amount, FeeOn(l.config.depositFee, amount));
  }

  lemma RedemptionAcceptedIff(l: Ledger, shares: U64, wallet: U64)
    ensures RedemptionAccepted(l, shares, wallet).Ok?
       <==> InUse(l) && 0 < shares <= wallet && shares <= l.shareSupply && l.pendingAsyncRequests < 0xffff
  {
  }

  /** The queue of a request's kind, if there is one, waits for exactly this request's id. */
  predicate IsNext(l: Ledger, r: Request)
  {
    var queue := if r.kind == DepositRequest then l.subscriptions else l.redemptions;
    queue.Some? ==> r.queueId == Some(if queue.value.lastProcessed == MAX_U64 then 0 else queue.value.lastProcessed + 1)
  }

  lemma IsNextIff(l: Ledger, r: Request)
    ensures CheckAndAdvance(QueueOf(l, r.kind), r.queueId).Ok? <==> IsNext(l, r)
  {
  }

  predicate IsFresh(l: Ledger, r: Request, slot: U64)
  {
    && l.nav > 0
    && (l.config.requireFreshNav ==> l.navVersion > r.navVersion)
    && RecentNav(l, slot)
  }

  predicate RecentNav(l: Ledger, slot: U64)
  {
    l.config.maxNavStalenessSlots == 0 || l.lastNavUpdateSlot <= slot <= l.lastNavUpdateSlot + l.config.maxNavStalenessSlots
  }

  lemma ApprovableIff(l: Ledger, signer: Address, i: nat, slot: U64)
    ensures Approvable(l, signer, i, slot).Ok?
       <==> && InUse(l) && (signer == l.config.curator || signer == l.config.fulfiller)
            && i < |l.requests| && l.requests[i].state == Pending
            && IsFresh(l, l.requests[i], slot) && IsNext(l, l.requests[i])
  {
    if i < |l.requests| {
      IsNextIff(l, l.requests[i]);
    }
  }

  /** Something is left of a deposit after its fee, and converts to shares. */
  predicate HasPrice(l: Ledger, amount: U64)
  {
    var fee := FeeOn(l.config.depositFee, amount);
    && fee < amount && (l.config.protocolFeeBps <= MAX_BPS || fee == 0)
    && CalculateShares(l.nav, l.decimals, amount - fee).Ok? && CalculateShares(l.nav, l.decimals, amount - fee).value > 0
  }

  /** A deposit can be settled at the NAV. */
  predicate DepositSettles(l: Ledger, amount: U64)
  {
    var fee := FeeOn(l.config.depositFee, amount);
    && HasPrice(l, amount)
    && l.pendingVault >= amount && l.pendingDepositAmount >= amount && l.pendingAsyncRequests >= 1
    && l.reserve + amount - fee <= MAX_U64 && l.totalAssetBalance + amount - fee <= MAX_U64
    && (l.config.depositCap > 0 ==> l.totalAssetBalance + amount - fee <= l.config.depositCap)
  }

  lemma DepositSettlesIff(l: Ledger, r: Request)
    ensures DepositSettlement(l, r).Ok? <==> DepositSettles(l, r.amount)
  {
    hide PriceDeposit, CalculateShares, FeeOn, HasPrice;
    HasPriceIff(l, r.amount);
  }

  /** A redemption can be settled at the NAV. */
  predicate RedemptionSettles(l: Ledger, shares: U64, slot: U64)
  {
    var gross := CalculateAssets(l.nav, l.decimals, shares);
    && gross.Ok?
    && var fee := FeeOn(l.config.withdrawalFee, gross.value);
       && fee <= gross.value && (l.config.protocolFeeBps <= MAX_BPS || fee == 0)
       && ChargeRedemption(l.redemptionWindow, l.config, gross.value, slot).Ok?
       && l.reserve >= gross.value && l.totalAssetBalance >= gross.value && l.pendingAsyncRequests >= 1
       && l.pendingVault + gross.value - fee <= MAX_U64
  }

  lemma RedemptionSettlesIff(l: Ledger, r: Request, slot: U64)
    ensures RedeemSettlement(l, r, slot).Ok? <==> RedemptionSettles(l, r.amount, slot)
  {
    hide PriceRedeem, CalculateAssets, FeeOn;
    var gross := CalculateAssets(l.nav, l.decimals, r.amount);
    if gross.Err? {
      RedeemNotPriced(l.config, l.nav, l.decimals, l.redemptionWindow, r.amount, slot);
    } else {
      RedeemPricedIff(l.config, l.nav, l.decimals, l.redemptionWindow, r.amount, slot, gross.value,
                      FeeOn(l.config.withdrawalFee, gross.value));
    }
  }

  /**
   A request is approved exactly if the vault is in use, an approver signs, the request is pending and
   next in its queue, the NAV is set, fresh and recent, and the amounts can be settled.
   */
  lemma ApprovedIff(l: Ledger, signer: Address, i: nat, slot: U64)
    ensures ApproveRequest(l, signer, i, slot).Ok?
       <==> && InUse(l) && (signer == l.config.curator || signer == l.config.fulfiller)
            && i < |l.requests| && l.requests[i].state == Pending
            && IsFresh(l, l.requests[i], slot) && IsNext(l, l.requests[i])
            && match l.requests[i].kind
               case DepositRequest => DepositSettles(l, l.requests[i].amount)
               case RedeemRequest => RedemptionSettles(l, l.requests[i].amount, slot)
  {
    hide Approvable, DepositSettlement, RedeemSettlement, DepositSettles, RedemptionSettles, IsFresh, IsNext;
    ApprovableIff(l, signer, i, slot);
    if Approvable(l, signer, i, slot).Ok? {
      var advanced := Approvable(l, signer, i, slot).value;
      DepositSettlesIff(advanced, l.requests[i]);
      RedemptionSettlesIff(advanced, l.requests[i], slot);
      QueuesDoNotMatter(l, advanced, l.requests[i].amount, slot);
    }
  }

  lemma QueuesDoNotMatter(l: Ledger, advanced: Ledger, amount: U64, slot: U64)
    requires advanced == l.(subscriptions := advanced.subscriptions, redemptions := advanced.redemptions)
    ensures DepositSettles(advanced, amount) <==> DepositSettles(l, amount)
    ensures RedemptionSettles(advanced, amount, slot) <==> RedemptionSettles(l, amount, slot)
  {
    hide FeeOn, CalculateShares, CalculateAssets, ChargeRedemption;
    assert HasPrice(advanced, amount) <==> HasPrice(l, amount);
  }

  /** Instant settlement is switched on, configured, and has a NAV that is set and recent. */
  predicate InstantOpen(l: Ledger, slot: U64)
  {
    && InUse(l) && l.config.instantSettlement && l.config.instantRedemptionFeeBps > 0
    && l.config.maxNavStalenessSlots > 0 && l.nav > 0 && RecentNav(l, slot)
  }

  lemma InstantDepositIff(l: Ledger, amount: U64, slot: U64, wallet: U64)
    ensures InstantDeposit(l, amount, slot, wallet).Ok?
       <==> && InstantOpen(l, slot)
            && (l.config.depositCap != 0 ==> l.totalAssetBalance + l.pendingDepositAmount + amount <= l.config.depositCap)
            && HasPrice(l, amount) && amount <= wallet
            && var fee := FeeOn(l.config.depositFee, amount);
               && l.reserve + amount - fee <= MAX_U64 && l.totalAssetBalance + amount - fee <= MAX_U64
               && l.shareSupply + CalculateShares(l.nav, l.decimals, amount - fee).value <= MAX_U64
  {
    hide PriceDeposit, CalculateShares, FeeOn, InstantOpen, InstantAllowed, DepositCapAllows, HasPrice;
    InstantOpenIff(l, slot);
    CapAllowsIff(l, amount);
    HasPriceIff(l, amount);
  }

  lemma CapAllowsIff(l: Ledger, amount: U64)
    ensures DepositCapAllows(l, amount).Ok?
       <==> l.config.depositCap == 0 || l.totalAssetBalance + l.pendingDepositAmount + amount <= l.config.depositCap
  {
  }

  lemma HasPriceIff(l: Ledger, amount: U64)
    ensures PriceDeposit(l.config, l.nav, l.decimals, amount).Ok? <==> HasPrice(l, amount)
    ensures HasPrice(l, amount) ==>
              var net := amount - FeeOn(l.config.depositFee, amount);
              && PriceDeposit(l.config, l.nav, l.decimals, amount).value.net == net
              && CalculateShares(l.nav, l.decimals, net) == Ok(PriceDeposit(l.config, l.nav, l.decimals, amount).value.shares)
  {
    hide CalculateShares, FeeOn, FeeAndNet, Split;
    DepositPricedIff(l.config, l.nav, l.decimals, amount, FeeOn(l.config.depositFee, amount));
  }

  lemma InstantOpenIff(l: Ledger, slot: U64)
    ensures InstantAllowed(l, slot).Ok? <==> InstantOpen(l, slot)
  {
  }

  lemma InstantRedeemIff(l: Ledger, shares: U64, slot: U64, wallet: U64)
    ensures InstantRedeem(l, shares, slot, wallet).Ok?
       <==> && InstantOpen(l, slot) && shares <= wallet && shares <= l.shareSupply
            && var gross := CalculateAssets(l.nav, l.decimals, shares);
               && gross.Ok? && gross.value <= l.reserve && gross.value <= l.totalAssetBalance
               && ChargeRedemption(l.redemptionWindow, l.config, gross.value, slot).Ok?
               && var fee := FeeOn(l.config.withdrawalFee, gross.value)
                             + FeeOn(Some(Percentage(l.config.instantRedemptionFeeBps)), gross.value);
                  fee < gross.value && (l.config.protocolFeeBps <= MAX_BPS || fee == 0)
  {
    hide CalculateAssets, FeeOn, InstantOpen, InstantAllowed, InstantFeeAndNet, Split, ChargeRedemption;
    InstantOpenIff(l, slot);
    var gross := CalculateAssets(l.nav, l.decimals, shares);
    if gross.Ok? {
      var withdrawalFee, instantFee := FeeOn(l.config.withdrawalFee, gross.value),
        FeeOn(Some(Percentage(l.config.instantRedemptionFeeBps)), gross.value);
      InstantFeeIs(l.config, gross.value, withdrawalFee, instantFee);
      if InstantFeeAndNet(l.config, gross.value).Ok? {
        SplitIs(InstantFeeAndNet(l.config, gross.value).value.0, l.config.protocolFeeBps);
      }
    }
  }

  /** The escrow, the counters and the supply allow a pending request to be given back. */
  predicate CanGiveBack(l: Ledger, r: Request)
  {
    && l.pendingAsyncRequests >= 1
    && match r.kind
       case DepositRequest => l.pendingVault >= r.amount && l.pendingDepositAmount >= r.amount
       case RedeemRequest => l.shareSupply + r.amount <= MAX_U64
  }

  lemma RejectedIff(l: Ledger, signer: Address, i: nat)
    ensures RejectRequest(l, signer, i).Ok?
       <==> && (signer == l.config.curator || signer == l.config.fulfiller)
            && i < |l.requests| && l.requests[i].state == Pending
            && IsNext(l, l.requests[i]) && CanGiveBack(l, l.requests[i])
  {
    hide Refundable, CheckAndAdvance, IsNext;
    if i < |l.requests| {
      IsNextIff(l, l.requests[i]);
    }
  }

  /** Only its owner takes a pending request back, in the way its queue prescribes. */
  lemma CanceledIff(l: Ledger, user: Address, i: nat)
    ensures CancelRequest(l, user, i).Ok?
       <==> && InUse(l) && i < |l.requests| && l.requests[i].state == Pending && l.requests[i].owner == user
            && l.requests[i].queueId.None? && CanGiveBack(l, l.requests[i])
    ensures CancelQueuedRequest(l, user, i).Ok?
       <==> && InUse(l) && i < |l.requests| && l.requests[i].state == Pending && l.requests[i].owner == user
            && l.requests[i].queueId.Some? && CanGiveBack(l, l.requests[i])
  {
    hide Refundable;
  }

  lemma SkippedIff(l: Ledger, i: nat)
    ensures SkipCanceledRequest(l, i).Ok? <==> i < |l.requests| && l.requests[i].state == Canceled && IsNext(l, l.requests[i])
  {
    hide CheckAndAdvance, IsNext;
    if i < |l.requests| {
      IsNextIff(l, l.requests[i]);
    }
  }

  /** Only the owner or the operator of a settled request claims it. */
  lemma ClaimedIff(l: Ledger, user: Address, i: nat)
    ensures Claim(l, user, i).Ok?
       <==> && InUse(l) && i < |l.requests| && l.requests[i].state == Claimable
            && (l.requests[i].owner == user || l.requests[i].operator == Some(user))
            && match l.requests[i].kind
               case DepositRequest => l.shareSupply + l.requests[i].amount <= MAX_U64
               case RedeemRequest => l.pendingVault >= l.requests[i].amount
  {
  }

  /** Moving the reserve takes the manager, or the hot manager at a routine-safe venue, and room in the limit. */
  lemma MovedIff(l: Ledger, signer: Address, routineSafe: bool, i: nat, amount: U64, slot: U64)
    ensures Deploy(l, signer, routineSafe, i, amount, slot).Ok?
       <==> && InUse(l) && i < |l.positions|
            && (signer == l.config.manager || (routineSafe && signer == l.config.hotManager))
            && ChargeManager(l.managerWindow, l.config, amount, slot).Ok?
            && l.reserve >= amount && l.positions[i] + amount <= MAX_U64
    ensures Pull(l, signer, routineSafe, i, amount, slot).Ok?
       <==> && InUse(l) && i < |l.positions|
            && (signer == l.config.manager || (routineSafe && signer == l.config.hotManager))
            && ChargeManager(l.managerWindow, l.config, amount, slot).Ok?
            && l.positions[i] >= amount && l.reserve + amount <= MAX_U64
  {
    hide ChargeManager;
  }

  // ---- What a request is and becomes ----

  /** A new request is its user's, for the amount given, at the NAV version of the moment, and stands last. */
  lemma RequestCreated(l: Ledger, a: Action)
    requires (a.CreateDepositAction? || a.CreateRedeemAction?) && Step(l, a).Ok?
    ensures var next := After(l, a);
            var r := next.requests[|next.requests| - 1];
            && next.requests == l.requests + [r]
            && r.owner == a.user && r.operator == a.operator && r.amount == a.amount
            && r.kind == (if a.CreateDepositAction? then DepositRequest else RedeemRequest)
            && r.state == Pending && r.navVersion == l.navVersion
  {
    hide DepositAccepted, RedemptionAccepted, NextQueueId;
  }

  /** Between these books, assets came into the escrow and out of it, and shares were minted and burned; nothing else moved. */
  ghost predicate Moved(l: Ledger, next: Ledger, paidIn: int, paidOut: int, minted: int, burned: int)
  {
    && next.pendingVault == l.pendingVault + paidIn - paidOut
    && next.flows.paidIn == l.flows.paidIn + paidIn && next.flows.paidOut == l.flows.paidOut + paidOut
    && next.shareSupply == l.shareSupply + minted - burned
    && next.reserve == l.reserve && next.totalAssetBalance == l.totalAssetBalance && next.positions == l.positions
    && next.flows == l.flows.(paidIn := next.flows.paidIn, paidOut := next.flows.paidOut)
    && next.managerWindow == l.managerWindow && next.redemptionWindow == l.redemptionWindow
  }

  /** A deposit is paid into the escrow and counted as pending; the shares of a redemption are burned. */
  lemma PaidOnCreation(l: Ledger, a: Action)
    requires (a.CreateDepositAction? || a.CreateRedeemAction?) && Step(l, a).Ok?
    ensures var next := After(l, a);
            && next.pendingAsyncRequests == l.pendingAsyncRequests + 1
            && if a.CreateDepositAction?
               then Moved(l, next, a.amount, 0, 0, 0) && next.pendingDepositAmount == l.pendingDepositAmount + a.amount
               else Moved(l, next, 0, 0, 0, a.amount) && next.pendingDepositAmount == l.pendingDepositAmount
  {
    hide DepositAccepted, RedemptionAccepted, NextQueueId;
  }

  /** A refund undoes exactly that: the deposit leaves the escrow for its owner, the burned shares are minted again. */
  ghost predicate PaidBack(l: Ledger, r: Request, next: Ledger)
  {
    && next.pendingAsyncRequests == l.pendingAsyncRequests - 1
    && if r.kind == DepositRequest
       then Moved(l, next, 0, r.amount, 0, 0) && next.pendingDepositAmount == l.pendingDepositAmount - r.amount
       else Moved(l, next, 0, 0, r.amount, 0) && next.pendingDepositAmount == l.pendingDepositAmount
  }

  lemma RefundPaysBack(l: Ledger, i: nat, state: RequestState)
    requires i < |l.requests| && Refund(l, i, state).Ok?
    ensures PaidBack(l, l.requests[i], Refund(l, i, state).value)
  {
  }

  lemma PaidOnRejection(l: Ledger, signer: Address, i: nat)
    requires RejectRequest(l, signer, i).Ok?
    ensures PaidBack(l, l.requests[i], RejectRequest(l, signer, i).value)
  {
    hide Refund, CheckAndAdvance;
    var queue := CheckAndAdvance(QueueOf(l, l.requests[i].kind), l.requests[i].queueId).value;
    RefundPaysBack(WithQueue(l, l.requests[i].kind, queue), i, Closed);
  }

  lemma PaidOnCancellation(l: Ledger, user: Address, i: nat)
    ensures CancelRequest(l, user, i).Ok? ==> PaidBack(l, l.requests[i], CancelRequest(l, user, i).value)
    ensures CancelQueuedRequest(l, user, i).Ok? ==> PaidBack(l, l.requests[i], CancelQueuedRequest(l, user, i).value)
  {
    hide Refund, Usable, PaidBack;
    if CancelRequest(l, user, i).Ok? {
      RefundPaysBack(l, i, Closed);
    }
    if CancelQueuedRequest(l, user, i).Ok? {
      RefundPaysBack(l, i, Canceled);
    }
  }

  /** A claim mints the shares of a settled deposit, or pays a settled redemption out of the escrow. */
  lemma PaidOnClaim(l: Ledger, user: Address, i: nat)
    requires Claim(l, user, i).Ok?
    ensures var r, next := l.requests[i], Claim(l, user, i).value;
            && next.pendingAsyncRequests == l.pendingAsyncRequests && next.pendingDepositAmount == l.pendingDepositAmount
            && if r.kind == DepositRequest then Moved(l, next, 0, 0, r.amount, 0) else Moved(l, next, 0, r.amount, 0, 0)
  {
    hide Usable;
  }

  /** A position grows by exactly what the reserve gives, and pulling the amount back restores both. */
  lemma PullUndoesDeploy(l: Ledger, signer: Address, safe: bool, i: nat, amount: U64, slot: U64, later: U64)
    requires Deploy(l, signer, safe, i, amount, slot).Ok?
    ensures var next := Deploy(l, signer, safe, i, amount, slot).value;
            && next.reserve == l.reserve - amount && |next.positions| == |l.positions|
            && (forall j :: 0 <= j < |l.positions| ==> next.positions[j] == l.positions[j] + if j == i then amount else 0)
            && var back := Pull(next, signer, safe, i, amount, later);
               back.Ok? ==> back.value == l.(managerWindow := back.value.managerWindow)
  {
    hide ChargeManager, Usable;
    assert l.positions[i := l.positions[i] + amount][i := l.positions[i]] == l.positions;
  }

  /** The request an instruction is about, if any. */
  function Target(a: Action): Option<nat>
  {
    if a.ApproveAction? || a.RejectAction? || a.CancelAction? || a.CancelQueuedAction? || a.SkipAction? || a.ClaimAction?
       || a.SetOperatorAction?
    then Some(a.i) else None
  }

  predicate SameIdentity(r: Request, s: Request)
  {
    r.kind == s.kind && r.owner == s.owner && r.navVersion == s.navVersion && r.queueId == s.queueId
  }

  /** The states between which an instruction moves its request. */
  function Passage(a: Action): (RequestState, RequestState)
  {
    if a.ApproveAction? then (Pending, Claimable)
    else if a.CancelQueuedAction? then (Pending, Canceled)
    else if a.SkipAction? then (Canceled, Closed)
    else if a.ClaimAction? then (Claimable, Closed)
    else (Pending, Closed)
  }

  /** What a successful instruction makes of its request. */
  predicate Becomes(r: Request, a: Action, s: Request)
  {
    if a.SetOperatorAction? then a.user == r.owner && r.state != Closed && s == r.(operator := Some(a.appointed))
    else
      && SameIdentity(r, s) && (r.state, s.state) == Passage(a)
      && s.operator == r.operator && (a.ApproveAction? || s.amount == r.amount)
  }

  ghost predicate SamePrice(l: Ledger, next: Ledger)
  {
    && next.nav == l.nav && next.navVersion == l.navVersion && next.lastNavUpdateSlot == l.lastNavUpdateSlot
    && next.decimals == l.decimals
  }

  ghost predicate SameQueues(l: Ledger, next: Ledger)
  {
    (next.subscriptions.Some? <==> l.subscriptions.Some?) && (next.redemptions.Some? <==> l.redemptions.Some?)
  }

  /** Of the requests only this one changed, as the instruction prescribes, and price and set-up stayed. */
  ghost predicate Moves(l: Ledger, a: Action, i: nat, next: Ledger)
  {
    && i < |l.requests| == |next.requests|
    && Becomes(l.requests[i], a, next.requests[i])
    && next.requests == l.requests[i := next.requests[i]]
    && SamePrice(l, next) && next.initialized == l.initialized && SameQueues(l, next)
  }

  lemma AdvancedStays(q: Option<Queue>, id: Option<U64>)
    ensures CheckAndAdvance(q, id).Ok? ==> (CheckAndAdvance(q, id).value.Some? <==> q.Some?)
  {
  }

  lemma ApproveMoves(l: Ledger, signer: Address, i: nat, slot: U64)
    requires ApproveRequest(l, signer, i, slot).Ok?
    ensures Moves(l, ApproveAction(signer, i, slot), i, ApproveRequest(l, signer, i, slot).value)
  {
    hide DepositSettlement, RedeemSettlement, CheckAndAdvance, Usable, NavNotStale;
    AdvancedStays(QueueOf(l, l.requests[i].kind), l.requests[i].queueId);
  }

  lemma RefundMoves(l: Ledger, i: nat, a: Action)
    requires a.RejectAction? || a.CancelAction? || a.CancelQueuedAction?
    requires i < |l.requests| && l.requests[i].state == Pending && Refund(l, i, Passage(a).1).Ok?
    ensures Moves(l, a, i, Refund(l, i, Passage(a).1).value)
  {
    hide Refundable;
  }

  lemma RejectMoves(l: Ledger, signer: Address, i: nat)
    requires RejectRequest(l, signer, i).Ok?
    ensures Moves(l, RejectAction(signer, i), i, RejectRequest(l, signer, i).value)
  {
    hide Refund, CheckAndAdvance;
    var queue := CheckAndAdvance(QueueOf(l, l.requests[i].kind), l.requests[i].queueId).value;
    AdvancedStays(QueueOf(l, l.requests[i].kind), l.requests[i].queueId);
    RefundMoves(WithQueue(l, l.requests[i].kind, queue), i, RejectAction(signer, i));
  }

  lemma CancelMoves(l: Ledger, user: Address, i: nat)
    ensures CancelRequest(l, user, i).Ok? ==> Moves(l, CancelAction(user, i), i, CancelRequest(l, user, i).value)
    ensures CancelQueuedRequest(l, user, i).Ok? ==>
              Moves(l, CancelQueuedAction(user, i), i, CancelQueuedRequest(l, user, i).value)
  {
    hide Refund, Usable, Moves;
    if CancelRequest(l, user, i).Ok? {
      RefundMoves(l, i, CancelAction(user, i));
    }
    if CancelQueuedRequest(l, user, i).Ok? {
      RefundMoves(l, i, CancelQueuedAction(user, i));
    }
  }

  lemma CloseMoves(l: Ledger, user: Address, i: nat)
    ensures SkipCanceledRequest(l, i).Ok? ==> Moves(l, SkipAction(i), i, SkipCanceledRequest(l, i).value)
    ensures Claim(l, user, i).Ok? ==> Moves(l, ClaimAction(user, i), i, Claim(l, user, i).value)
  {
    hide CheckAndAdvance, Usable;
    if i < |l.requests| {
      AdvancedStays(QueueOf(l, l.requests[i].kind), l.requests[i].queueId);
    }
  }

  lemma SetOperatorMoves(l: Ledger, user: Address, appointed: Address, i: nat)
    requires SetOperator(l, user, appointed, i).Ok?
    ensures Moves(l, SetOperatorAction(user, appointed, i), i, SetOperator(l, user, appointed, i).value)
  {
  }

  lemma TargetMoves(l: Ledger, a: Action)
    requires Target(a).Some? && Step(l, a).Ok?
    ensures Moves(l, a, Target(a).value, After(l, a))
  {
    hide Moves, ApproveRequest, RejectRequest, CancelRequest, CancelQueuedRequest, SkipCanceledRequest, Claim, SetOperator;
    match a {
      case ApproveAction(signer, i, slot) => ApproveMoves(l, signer, i, slot);
      case RejectAction(signer, i) => RejectMoves(l, signer, i);
      case CancelAction(user, i) => CancelMoves(l, user, i);
      case CancelQueuedAction(user, i) => CancelMoves(l, user, i);
      case SkipAction(i) => CloseMoves(l, l.config.curator, i);
      case ClaimAction(user, i) => CloseMoves(l, user, i);
      case SetOperatorAction(user, appointed, i) => SetOperatorMoves(l, user, appointed, i);
    }
  }

  /** Any other instruction leaves every request alone, and may add one behind them. */
  lemma OthersKeepRequests(l: Ledger, a: Action)
    requires Target(a).None?
    ensures l.requests <= After(l, a).requests
  {
    hide DepositAccepted, RedemptionAccepted, InstantDepositTerms, InstantRedeemTerms, NextQueueId, DeploymentAccepted,
      PullAccepted, Usable;
  }

  /**
   An instruction touches at most its own request, and of that the state and, by approval, the amount;
   or, if its owner asks for it, the operator.
   */
  lemma StepKeepsRequests(l: Ledger, a: Action, j: nat)
    requires j < |l.requests|
    ensures j < |After(l, a).requests|
    ensures var r, s := l.requests[j], After(l, a).requests[j];
            if Step(l, a).Ok? && Target(a) == Some(j) then Becomes(r, a, s) else s == r
  {
    hide Step, Becomes, SamePrice;
    if Step(l, a).Ok? {
      if Target(a).Some? {
        TargetMoves(l, a);
      } else {
        OthersKeepRequests(l, a);
      }
    }
  }

  /** Over any run a request keeps its owner, kind, price stamp and place in the queue. */
  lemma {:induction false} RunKeepsIdentity(l: Ledger, run: seq<Action>, j: nat)
    requires j < |l.requests|
    ensures j < |AfterAll(l, run).requests| && SameIdentity(l.requests[j], AfterAll(l, run).requests[j])
    decreases |run|
  {
    hide After, Step;
    if run != [] {
      StepKeepsRequests(l, run[0], j);
      RunKeepsIdentity(After(l, run[0]), run[1..], j);
    }
  }

  /** A closed request stays closed. */
  lemma {:induction false} ClosedStays(l: Ledger, run: seq<Action>, j: nat)
    requires j < |l.requests| && l.requests[j].state == Closed
    ensures j < |AfterAll(l, run).requests| && AfterAll(l, run).requests[j] == l.requests[j]
    decreases |run|
  {
    hide After, Step;
    if run != [] {
      StepKeepsRequests(l, run[0], j);
      ClosedStays(After(l, run[0]), run[1..], j);
    }
  }

  /**
   Nothing is paid twice: once a request is closed, whether claimed, rejected, canceled or skipped, every
   later instruction about it fails, whatever has happened in between.
   */
  lemma ClosedForGood(l: Ledger, run: seq<Action>, j: nat, later: Action)
    requires j < |l.requests| && l.requests[j].state == Closed && Target(later) == Some(j)
    ensures Step(AfterAll(l, run), later).Err?
  {
    hide After, AfterAll, Step;
    ClosedStays(l, run, j);
    StepKeepsRequests(AfterAll(l, run), later, j);
  }

  // ---- Who may do what ----

  /** Only its owner changes who else may claim a request. */
  lemma OnlyOwnerAppoints(l: Ledger, a: Action, j: nat)
    requires j < |l.requests|
    ensures j < |After(l, a).requests|
    ensures After(l, a).requests[j].operator != l.requests[j].operator ==>
              a.SetOperatorAction? && a.i == j && a.user == l.requests[j].owner
  {
    hide After, Step;
    StepKeepsRequests(l, a, j);
  }

  /** The signer an instruction needs, in the books before it. */
  predicate MayDo(l: Ledger, a: Action)
  {
    match a
    case ApproveAction(signer, _, _) => signer == l.config.curator || signer == l.config.fulfiller
    case RejectAction(signer, _) => signer == l.config.curator || signer == l.config.fulfiller
    case UpdateNavAction(signer, _, _) => signer == l.config.curator || signer == l.config.fulfiller
    case CancelAction(user, i) => i < |l.requests| && user == l.requests[i].owner
    case CancelQueuedAction(user, i) => i < |l.requests| && user == l.requests[i].owner
    case ClaimAction(user, i) => i < |l.requests| && (user == l.requests[i].owner || l.requests[i].operator == Some(user))
    case SetOperatorAction(user, _, i) => i < |l.requests| && user == l.requests[i].owner
    case PauseAction(signer) => signer == l.config.breaker
    case WithdrawAction(signer, _) => signer == l.config.curator
    case ConfigureAction(signer, _, _) => signer == l.config.curator
    case AddQueueAction(signer, _) => signer == l.config.curator
    case InitializeAction(signer) => signer == l.config.curator
    case OpenPositionAction(signer) => signer == l.config.curator
    case DeployAction(signer, safe, _, _, _) => signer == l.config.manager || (safe && signer == l.config.hotManager)
    case PullAction(signer, safe, _, _, _) => signer == l.config.manager || (safe && signer == l.config.hotManager)
    case _ => true
  }

  /** The request or position an instruction names is there. */
  predicate Named(l: Ledger, a: Action)
  {
    && (Target(a).Some? ==> a.i < |l.requests| && l.requests[a.i].state != Closed)
    && (a.DeployAction? || a.PullAction? ==> a.i < |l.positions|)
  }

  lemma RequestSigners(l: Ledger, a: Action)
    requires Target(a).Some? && !MayDo(l, a)
    ensures Step(l, a).Err? && (InUse(l) && Named(l, a) ==> Step(l, a) == Err(UnauthorizedSigner))
  {
    hide ApproveDeposit, ApproveRedeem, Refund, CheckAndAdvance, NavNotStale;
  }

  /** A stranger's instruction fails and so changes nothing; in a vault in use, because of its signer. */
  lemma StrangersChangeNothing(l: Ledger, a: Action)
    requires !MayDo(l, a)
    ensures Step(l, a).Err? && After(l, a) == l
    ensures InUse(l) && Named(l, a) ==> Step(l, a) == Err(UnauthorizedSigner)
  {
    hide ApproveRequest, RejectRequest, CancelRequest, CancelQueuedRequest, Claim, SetOperator, ChargeManager, Named;
    if Target(a).Some? {
      RequestSigners(l, a);
    } else if a.DeployAction? || a.PullAction? {
      VenueSigners(l, a);
    }
  }

  lemma VenueSigners(l: Ledger, a: Action)
    requires (a.DeployAction? || a.PullAction?) && !MayDo(l, a)
    ensures Step(l, a).Err? && (InUse(l) && Named(l, a) ==> Step(l, a) == Err(UnauthorizedSigner))
  {
    hide ChargeManager;
  }

  // ---- Pausing ----

  /** Nothing the vault holds, owes or has issued has changed; positions may have been opened. */
  ghost predicate Frozen(l: Ledger, next: Ledger)
  {
    && next.reserve == l.reserve && next.pendingVault == l.pendingVault && next.shareSupply == l.shareSupply
    && next.totalAssetBalance == l.totalAssetBalance && next.flows == l.flows && l.positions <= next.positions
  }

  /**
   While a vault is paused, or not initialized yet, rejecting a request is all that moves anything: no
   request is made, settled, canceled or claimed, and no assets leave.
   */
  lemma UnusableIsFrozen(l: Ledger, a: Action)
    requires !InUse(l) && !a.RejectAction?
    ensures Frozen(l, After(l, a)) && |After(l, a).requests| == |l.requests|
    ensures a.CreateDepositAction? || a.CreateRedeemAction? || a.ApproveAction? || a.InstantDepositAction?
            || a.InstantRedeemAction? ==>
              Step(l, a) == Err(if l.initialized then PausedVault else UninitializedVault)
  {
    hide ApproveDeposit, ApproveRedeem, Refund, CheckAndAdvance, NavNotStale, ChargeManager;
  }

  // ---- Prices and set-up ----

  /** A NAV update stores the NAV and the slot it was given under the next version, and changes nothing else. */
  lemma NavStored(l: Ledger, signer: Address, nav: U128, slot: U64)
    ensures UpdateNav(l, signer, nav, slot).Ok?
       <==> (signer == l.config.curator || signer == l.config.fulfiller) && l.navVersion < MAX_U64
    ensures UpdateNav(l, signer, nav, slot).Ok? ==>
              var next := UpdateNav(l, signer, nav, slot).value;
              && next.nav == nav && next.navVersion == l.navVersion + 1 && next.lastNavUpdateSlot == slot
              && next == l.(nav := next.nav, navVersion := next.navVersion, lastNavUpdateSlot := next.lastNavUpdateSlot)
  {
  }

  /** Assets withdrawn by the curator leave the reserve, and nothing else changes: they still count in the total. */
  lemma Withdrawn(l: Ledger, signer: Address, amount: U64)
    ensures WithdrawAssets(l, signer, amount).Ok? <==> signer == l.config.curator && InUse(l) && amount <= l.reserve
    ensures WithdrawAssets(l, signer, amount).Ok? ==>
              var next := WithdrawAssets(l, signer, amount).value;
              && next.reserve == l.reserve - amount && next.flows == l.flows.(withdrawn := l.flows.withdrawn + amount)
              && next == l.(reserve := next.reserve, flows := next.flows)
  {
  }

  /**
   Setting up is the curator's: queues and initialization once, the configuration and the pause at any
   time. The breaker can only pause.
   */
  lemma SetUp(l: Ledger, signer: Address, kind: RequestType, config: Config, paused: bool)
    ensures AddQueue(l, signer, kind).Ok? <==> signer == l.config.curator && !l.initialized && QueueOf(l, kind).None?
    ensures AddQueue(l, signer, kind).Ok? ==>
              var next := AddQueue(l, signer, kind).value;
              && QueueOf(next, kind) == Some(Queue(0, 0)) && next == WithQueue(l, kind, QueueOf(next, kind))
    ensures InitializeVault(l, signer).Ok? <==> signer == l.config.curator && !l.initialized
    ensures InitializeVault(l, signer).Ok? ==>
              InitializeVault(l, signer).value.initialized && InitializeVault(l, signer).value.(initialized := false) == l
    ensures Configure(l, signer, config, paused).Ok? <==> signer == l.config.curator
    ensures Configure(l, signer, config, paused).Ok? ==>
              var next := Configure(l, signer, config, paused).value;
              next.config == config && next.paused == paused && next.(config := l.config, paused := l.paused) == l
    ensures Pause(l, signer).Ok? <==> signer == l.config.breaker
    ensures Pause(l, signer).Ok? ==> Pause(l, signer).value.paused && Pause(l, signer).value.(paused := l.paused) == l
  {
  }

  lemma SetUpIsFinal(l: Ledger, a: Action)
    requires l.initialized
    ensures After(l, a).initialized && SameQueues(l, After(l, a))
    ensures (a.InitializeAction? || a.AddQueueAction?) ==> Step(l, a).Err?
  {
    hide DepositAccepted, RedemptionAccepted, InstantDepositTerms, InstantRedeemTerms, DeploymentAccepted, PullAccepted,
      Usable, ApproveRequest, RejectRequest, CancelRequest, CancelQueuedRequest, SkipCanceledRequest, Claim, SetOperator;
    if Target(a).Some? && Step(l, a).Ok? {
      TargetMoves(l, a);
    }
  }

  /** A vault is initialized once, and from then on it keeps the queues it has and gets no others. */
  lemma {:induction false} InitializedForGood(l: Ledger, run: seq<Action>)
    requires l.initialized
    ensures AfterAll(l, run).initialized && SameQueues(l, AfterAll(l, run))
    decreases |run|
  {
    hide After, Step;
    if run != [] {
      SetUpIsFinal(l, run[0]);
      InitializedForGood(After(l, run[0]), run[1..]);
    }
  }

  /** Nothing but a NAV update changes the NAV, its version or its age. */
  lemma OnlyNavUpdatesPrice(l: Ledger, a: Action)
    requires !a.UpdateNavAction?
    ensures SamePrice(l, After(l, a))
  {
    hide DepositAccepted, RedemptionAccepted, InstantDepositTerms, InstantRedeemTerms, NextQueueId, DeploymentAccepted,
      PullAccepted, Usable, ApproveRequest, RejectRequest, CancelRequest, CancelQueuedRequest, SkipCanceledRequest, Claim,
      SetOperator;
    if Target(a).Some? && Step(l, a).Ok? {
      TargetMoves(l, a);
    }
  }
}

/**
 The vault account as the program changes it: one object whose fields the instruction handlers
 update. Each handler is proved to leave the books that the ledger's instruction says, and to leave
 everything as it was when it fails, as the runtime's rollback does.
 */
module VaultProgram {
  import opened Arithmetic
  import opened Bytes
  import opened RollingLimit
  import opened VaultLedger
  import opened VaultSoundness
  import opened Wrappers

  class AsyncVault {
    var config: Config
    var initialized: bool
    var paused: bool
    const decimals: U8
    var nav: U128
    var navVersion: U64
    var lastNavUpdateSlot: U64
    var pendingAsyncRequests: U16
    var totalAssetBalance: U64
    var pendingDepositAmount: U64
    var managerWindow: Window
    var redemptionWindow: Window
    var subscriptions: Option<Queue>
    var redemptions: Option<Queue>
    var shareSupply: U64
    var pendingVault: U64
    var reserve: U64
    var positions: seq<U64>
    var requests: seq<Request>
    ghost var flows: Flows

    constructor (config: Config, decimals: U8)
      ensures Books() == Created(config, decimals) && Valid()
    {
      this.config, initialized, paused, this.decimals := config, false, false, decimals;
      nav, navVersion, lastNavUpdateSlot := 0, 0, 0;
      pendingAsyncRequests, totalAssetBalance, pendingDepositAmount := 0, 0, 0;
      managerWindow, redemptionWindow := Window(0, 0), Window(0, 0);
      subscriptions, redemptions := None, None;
      shareSupply, pendingVault, reserve, positions, requests := 0, 0, 0, [], [];
      flows := Flows(0, 0, 0, 0, 0);
      new;
      CreatedSound(config, decimals);
    }

    ghost function Books(): Ledger
      reads this
    {
      Ledger(config, initialized, paused, decimals, nav, navVersion, lastNavUpdateSlot, pendingAsyncRequests,
             totalAssetBalance, pendingDepositAmount, managerWindow, redemptionWindow, subscriptions, redemptions,
             shareSupply, pendingVault, reserve, positions, requests, flows)
    }

    /** The books balance and the lines are in order. */
    ghost predicate Valid()
      reads this
    {
      Sound(Books())
    }

    /** The books are what the instruction says, or untouched if it fails. */
    ghost predicate Follows(before: Ledger, r: Result<(), VaultError>, instruction: Result<Ledger, VaultError>)
      reads this
    {
      match instruction
      case Err(e) => r == Err(e) && Books() == before
      case Ok(after) => r == Ok(()) && Books() == after
    }

    // ---- Setting up ----

    method AddQueue(signer: Address, kind: RequestType) returns (r: Result<(), VaultError>)
      requires Valid()
      modifies this
      ensures Valid()
      ensures Follows(old(Books()), r, VaultLedger.AddQueue(old(Books()), signer, kind))
    {
      hide Sound;
      if signer != config.curator {
        return Err(UnauthorizedSigner);
      }
      :- Require(!initialized, VaultAlreadyInitialized);
      if kind == DepositRequest {
        :- Require(subscriptions.None?, ExtensionAlreadyInitialized);
        subscriptions := Some(Queue(0, 0));
      } else {
        :- Require(redemptions.None?, ExtensionAlreadyInitialized);
        redemptions := Some(Queue(0, 0));
      }
      StepSound(old(Books()), AddQueueAction(signer, kind), Books());
      return Ok(());
    }

    method InitializeVault(signer: Address) returns (r: Result<(), VaultError>)
      requires Valid()
      modifies this
      ensures Valid()
      ensures Follows(old(Books()), r, VaultLedger.InitializeVault(old(Books()), signer))
    {
      hide Sound;
      if signer != config.curator {
        return Err(UnauthorizedSigner);
      }
      :- Require(!initialized, VaultAlreadyInitialized);
      initialized := true;
      StepSound(old(Books()), InitializeAction(signer), Books());
      return Ok(());
    }

    // ---- Requests ----

    method CheckUsable() returns (r: Result<(), VaultError>)
      ensures r == Usable(Books())
    {
      if !initialized {
        return Err(UninitializedVault);
      }
      :- Require(!paused, PausedVault);
      return Ok(());
    }

    method CheckDepositCap(amount: U64) returns (r: Result<(), VaultError>)
      ensures r == DepositCapAllows(Books(), amount)
    {
      if config.depositCap != 0 {
        var reservedTotal := totalAssetBalance + pendingDepositAmount + amount;
        :- Require(reservedTotal <= MAX_U64, MathFailure);
        :- Require(reservedTotal <= config.depositCap, DepositCapExceeded);
      }
      return Ok(());
    }

    method CheckNavNotStale(currentSlot: U64) returns (r: Result<(), VaultError>)
      ensures r == NavNotStale(Books(), currentSlot)
    {
      if config.maxNavStalenessSlots != 0 {
        :- Require(currentSlot >= lastNavUpdateSlot, MathFailure);
        var elapsedSlots := currentSlot - lastNavUpdateSlot;
        :- Require(elapsedSlots <= config.maxNavStalenessSlots, StaleNav);
      }
      return Ok(());
    }

    method CheckDepositAccepted(amount: U64, wallet: U64) returns (r: Result<(), VaultError>)
      ensures r == DepositAccepted(Books(), amount, wallet)
    {
      hide Usable, DepositCapAllows, ExtensionFee;
      var _ :- CheckUsable();
      var _ :- CheckDepositCap(amount);
      var depositFee :- ExtensionFee(config.depositFee, amount);
      :- Require(amount > depositFee, InsufficientDepositAmount);
      :- Require(amount <= wallet && pendingVault + amount <= MAX_U64, TokenFailure);
      :- Require(pendingAsyncRequests + 1 <= 0xffff, MathFailure);
      :- Require(pendingDepositAmount + amount <= MAX_U64, MathFailure);
      return Ok(());
    }

    /** Takes the next id of the queue of a kind, if the vault has that queue. */
    method TakeQueueId(kind: RequestType) returns (id: Option<U64>)
      modifies this`subscriptions, this`redemptions
      ensures Books() == WithQueue(old(Books()), kind, NextQueueId(QueueOf(old(Books()), kind)).0)
      ensures id == NextQueueId(QueueOf(old(Books()), kind)).1
    {
      var queue := if kind == DepositRequest then subscriptions else redemptions;
      if queue.None? {
        return None;
      }
      var total := (queue.value.total + 1) % QUEUE_MODULUS;
      id := Some(total);
      if kind == DepositRequest {
        subscriptions := Some(queue.value.(total := total));
      } else {
        redemptions := Some(queue.value.(total := total));
      }
    }

    method AddRequest(request: Request)
      requires pendingAsyncRequests + 1 <= 0xffff
      modifies this`requests, this`pendingAsyncRequests
      ensures Books() == old(Books()).(requests := old(requests) + [request],
                                       pendingAsyncRequests := old(pendingAsyncRequests) + 1)
    {
      requests := requests + [request];
      pendingAsyncRequests := pendingAsyncRequests + 1;
    }

    method TakeDeposit(amount: U64)
      requires pendingVault + amount <= MAX_U64 && pendingDepositAmount + amount <= MAX_U64
      modifies this`pendingVault, this`pendingDepositAmount, this`flows
      ensures Books() == old(Books()).(pendingVault := old(pendingVault) + amount,
                                       pendingDepositAmount := old(pendingDepositAmount) + amount,
                                       flows := old(flows).(paidIn := old(flows).paidIn + amount))
    {
      pendingVault := pendingVault + amount;
      pendingDepositAmount := pendingDepositAmount + amount;
      flows := flows.(paidIn := flows.paidIn + amount);
    }

    method CreateDepositRequest(user: Address, operator: Option<Address>, amount: U64, wallet: U64)
      returns (r: Result<(), VaultError>)
      requires Valid()
      modifies this
      ensures Valid()
      ensures Follows(old(Books()), r, VaultLedger.CreateDepositRequest(old(Books()), user, operator, amount, wallet))
    {
      hide Sound, DepositAccepted, NextQueueId;
      var _ :- CheckDepositAccepted(amount, wallet);
      var id := TakeQueueId(DepositRequest);
      TakeDeposit(amount);
      AddRequest(Request(DepositRequest, Pending, user, operator, amount, navVersion, id));
      StepSound(old(Books()), CreateDepositAction(user, operator, amount, wallet), Books());
      return Ok(());
    }

    method CheckRedemptionAccepted(shares: U64, wallet: U64) returns (r: Result<(), VaultError>)
      ensures r == RedemptionAccepted(Books(), shares, wallet)
    {
      hide Usable;
      var _ :- CheckUsable();
      :- Require(shares > 0, InsufficientRedeemAmount);
      :- Require(shares <= wallet && shares <= shareSupply, TokenFailure);
      :- Require(pendingAsyncRequests + 1 <= 0xffff, MathFailure);
      return Ok(());
    }

    method CreateRedeemRequest(user: Address, operator: Option<Address>, shares: U64, wallet: U64)
      returns (r: Result<(), VaultError>)
      requires Valid()
      modifies this
      ensures Valid()
      ensures Follows(old(Books()), r, VaultLedger.CreateRedeemRequest(old(Books()), user, operator, shares, wallet))
    {
      hide Sound, RedemptionAccepted, NextQueueId;
      var _ :- CheckRedemptionAccepted(shares, wallet);
      var id := TakeQueueId(RedeemRequest);
      shareSupply := shareSupply - shares;
      AddRequest(Request(RedeemRequest, Pending, user, operator, shares, navVersion, id));
      StepSound(old(Books()), CreateRedeemAction(user, operator, shares, wallet), Books());
      return Ok(());
    }

    /** Finds the queue of a kind past the request, without storing it yet. */
    method QueuePast(request: Request) returns (r: Result<Option<Queue>, VaultError>)
      ensures r == CheckAndAdvance(QueueOf(Books(), request.kind), request.queueId)
    {
      var queue := if request.kind == DepositRequest then subscriptions else redemptions;
      if queue.None? {
        return Ok(None);
      }
      :- Require(request.queueId.Some?, UninitializedExtension);
      var expected := (queue.value.lastProcessed + 1) % QUEUE_MODULUS;
      :- Require(request.queueId.value == expected, QueueOutOfOrder);
      return Ok(Some(queue.value.(lastProcessed := request.queueId.value)));
    }

    method StoreQueue(kind: RequestType, queue: Option<Queue>)
      modifies this`subscriptions, this`redemptions
      ensures Books() == WithQueue(old(Books()), kind, queue)
    {
      if kind == DepositRequest {
        subscriptions := queue;
      } else {
        redemptions := queue;
      }
    }

    method ApproveRequest(signer: Address, i: nat, currentSlot: U64) returns (r: Result<(), VaultError>)
      requires Valid()
      modifies this
      ensures Valid()
      ensures Follows(old(Books()), r, VaultLedger.ApproveRequest(old(Books()), signer, i, currentSlot))
    {
      hide Sound, ApproveDeposit, ApproveRedeem, CheckAndAdvance;
      var _ :- CheckUsable();
      :- Require(signer == config.curator || signer == config.fulfiller, UnauthorizedSigner);
      :- Require(i < |requests|, InvalidRequest);
      var request := requests[i];
      :- Require(request.state == Pending, RequestNotPending);
      :- Require(nav > 0, NavIsNotSet);
      :- Require(config.requireFreshNav ==> navVersion > request.navVersion, StaleNav);
      var _ :- CheckNavNotStale(currentSlot);
      var previous := if request.kind == DepositRequest then subscriptions else redemptions;
      var queue :- QueuePast(request);
      StoreQueue(request.kind, queue);
      if request.kind == DepositRequest {
        r := SettleDeposit(i);
      } else {
        r := SettleRedeem(i, currentSlot);
      }
      if r.Err? {
        // The transaction fails, and the advanced queue with it.
        StoreQueue(request.kind, previous);
      }
      if r.Ok? {
        StepSound(old(Books()), ApproveAction(signer, i, currentSlot), Books());
      }
    }

    method CheckDepositSettlement(request: Request) returns (r: Result<DepositTerms, VaultError>)
      ensures r == DepositSettlement(Books(), request)
    {
      hide PriceDeposit;
      var terms :- PriceDeposit(config, nav, decimals, request.amount);
      :- Require(pendingVault >= request.amount && reserve + terms.net <= MAX_U64, TokenFailure);
      :- Require(config.depositCap > 0 ==> totalAssetBalance + terms.net <= config.depositCap, DepositCapExceeded);
      :- Require(totalAssetBalance + terms.net <= MAX_U64, MathFailure);
      :- Require(pendingDepositAmount >= request.amount, MathFailure);
      :- Require(pendingAsyncRequests >= 1, MathFailure);
      return Ok(terms);
    }

    method SettleDeposit(i: nat) returns (r: Result<(), VaultError>)
      requires i < |requests|
      modifies this
      ensures Follows(old(Books()), r, ApproveDeposit(old(Books()), i))
    {
      hide PriceDeposit, DepositSettlement;
      var request := requests[i];
      var terms :- CheckDepositSettlement(request);
      pendingVault := pendingVault - terms.recipientFee - terms.protocolFee - terms.net;
      flows := flows.(feeRecipient := flows.feeRecipient + terms.recipientFee,
                      protocol := flows.protocol + terms.protocolFee);
      reserve := reserve + terms.net;
      totalAssetBalance := totalAssetBalance + terms.net;
      pendingDepositAmount := pendingDepositAmount - request.amount;
      DecideRequest(i, request.(amount := terms.shares, state := Claimable));
      return Ok(());
    }

    /** Pays the fees of a redemption out of the reserve. */
    method PayFees(recipientFee: U64, protocolFee: U64)
      requires reserve >= recipientFee + protocolFee
      modifies this`reserve, this`flows
      ensures Books() == old(Books()).(reserve := old(reserve) - recipientFee - protocolFee,
                                       flows := old(flows).(feeRecipient := old(flows).feeRecipient + recipientFee,
                                                            protocol := old(flows).protocol + protocolFee))
    {
      reserve := reserve - recipientFee;
      reserve := reserve - protocolFee;
      flows := flows.(feeRecipient := flows.feeRecipient + recipientFee, protocol := flows.protocol + protocolFee);
    }

    /** Pays a user out of the reserve. */
    method PayUser(amount: U64)
      requires reserve >= amount
      modifies this`reserve, this`flows
      ensures Books() == old(Books()).(reserve := old(reserve) - amount,
                                       flows := old(flows).(paidOut := old(flows).paidOut + amount))
    {
      reserve := reserve - amount;
      flows := flows.(paidOut := flows.paidOut + amount);
    }

    method CheckRedeemSettlement(request: Request, currentSlot: U64) returns (r: Result<RedeemTerms, VaultError>)
      ensures r == RedeemSettlement(Books(), request, currentSlot)
    {
      hide PriceRedeem;
      var terms :- PriceRedeem(config, nav, decimals, redemptionWindow, request.amount, currentSlot);
      :- Require(reserve >= terms.gross && pendingVault + terms.net <= MAX_U64, TokenFailure);
      :- Require(totalAssetBalance >= terms.gross, MathFailure);
      :- Require(pendingAsyncRequests >= 1, MathFailure);
      return Ok(terms);
    }

    method SettleRedeem(i: nat, currentSlot: U64) returns (r: Result<(), VaultError>)
      requires i < |requests|
      modifies this
      ensures Follows(old(Books()), r, ApproveRedeem(old(Books()), i, currentSlot))
    {
      hide PriceRedeem, RedeemSettlement;
      var request := requests[i];
      var terms :- CheckRedeemSettlement(request, currentSlot);
      redemptionWindow := terms.window;
      PayFees(terms.recipientFee, terms.protocolFee);
      reserve := reserve - terms.net;
      pendingVault := pendingVault + terms.net;
      totalAssetBalance := totalAssetBalance - terms.gross;
      DecideRequest(i, request.(amount := terms.net, state := Claimable));
      return Ok(());
    }

    method PayFromEscrow(amount: U64) returns (r: Result<(), VaultError>)
      modifies this`pendingVault, this`flows
      ensures Follows(old(Books()), r, VaultLedger.PayFromEscrow(old(Books()), amount))
    {
      if pendingVault < amount {
        return Err(TokenFailure);
      }
      pendingVault := pendingVault - amount;
      flows := flows.(paidOut := flows.paidOut + amount);
      return Ok(());
    }

    method MintShares(amount: U64) returns (r: Result<(), VaultError>)
      modifies this`shareSupply
      ensures Follows(old(Books()), r, VaultLedger.MintShares(old(Books()), amount))
    {
      if shareSupply + amount > MAX_U64 {
        return Err(TokenFailure);
      }
      shareSupply := shareSupply + amount;
      return Ok(());
    }

    method CheckRefund(request: Request) returns (r: Result<(), VaultError>)
      ensures r == Refundable(Books(), request)
    {
      match request.kind {
        case DepositRequest =>
          :- Require(pendingVault >= request.amount, TokenFailure);
          :- Require(pendingDepositAmount >= request.amount, MathFailure);
        case RedeemRequest =>
          :- Require(shareSupply + request.amount <= MAX_U64, TokenFailure);
      }
      :- Require(pendingAsyncRequests >= 1, MathFailure);
      return Ok(());
    }

    /** Writes a decided request back and takes it off the pending count. */
    method DecideRequest(i: nat, decided: Request)
      requires i < |requests| && pendingAsyncRequests >= 1
      modifies this`requests, this`pendingAsyncRequests
      ensures Books() == old(Books()).(requests := old(requests)[i := decided],
                                       pendingAsyncRequests := old(pendingAsyncRequests) - 1)
    {
      requests := requests[i := decided];
      pendingAsyncRequests := pendingAsyncRequests - 1;
    }

    /** Returns a pending request's assets or shares; shared by rejection and both cancellations. */
    method GiveBack(i: nat, state: RequestState) returns (r: Result<(), VaultError>)
      requires i < |requests|
      modifies this
      ensures Follows(old(Books()), r, Refund(old(Books()), i, state))
    {
      hide Refundable;
      var request := requests[i];
      var _ :- CheckRefund(request);
      match request.kind {
        case DepositRequest =>
          r := PayFromEscrow(request.amount);
          pendingDepositAmount := pendingDepositAmount - request.amount;
        case RedeemRequest =>
          r := MintShares(request.amount);
      }
      DecideRequest(i, request.(state := state));
    }

    method RejectRequest(signer: Address, i: nat) returns (r: Result<(), VaultError>)
      requires Valid()
      modifies this
      ensures Valid()
      ensures Follows(old(Books()), r, VaultLedger.RejectRequest(old(Books()), signer, i))
    {
      hide Sound;
      if signer != config.curator && signer != config.fulfiller {
        return Err(UnauthorizedSigner);
      }
      :- Require(i < |requests|, InvalidRequest);
      var request := requests[i];
      :- Require(request.state == Pending, RequestNotPending);
      var previous := if request.kind == DepositRequest then subscriptions else redemptions;
      var queue :- QueuePast(request);
      StoreQueue(request.kind, queue);
      r := GiveBack(i, Closed);
      if r.Err? {
        // The transaction fails, and the advanced queue with it.
        StoreQueue(request.kind, previous);
      }
      if r.Ok? {
        StepSound(old(Books()), RejectAction(signer, i), Books());
      }
    }

    method CancelRequest(user: Address, i: nat) returns (r: Result<(), VaultError>)
      requires Valid()
      modifies this
      ensures Valid()
      ensures Follows(old(Books()), r, VaultLedger.CancelRequest(old(Books()), user, i))
    {
      hide Sound;
      if i >= |requests| {
        return Err(InvalidRequest);
      }
      var request := requests[i];
      :- Require(request.owner == user, UnauthorizedSigner);
      var _ :- CheckUsable();
      :- Require(request.state == Pending, RequestNotPending);
      :- Require(request.queueId.None?, MustUseCancelQueued);
      r := GiveBack(i, Closed);
      if r.Ok? {
        StepSound(old(Books()), CancelAction(user, i), Books());
      }
    }

    method CancelQueuedRequest(user: Address, i: nat) returns (r: Result<(), VaultError>)
      requires Valid()
      modifies this
      ensures Valid()
      ensures Follows(old(Books()), r, VaultLedger.CancelQueuedRequest(old(Books()), user, i))
    {
      hide Sound;
      if i >= |requests| {
        return Err(InvalidRequest);
      }
      var request := requests[i];
      :- Require(request.owner == user, UnauthorizedSigner);
      var _ :- CheckUsable();
      :- Require(request.state == Pending, RequestNotPending);
      :- Require(request.queueId.Some?, UninitializedExtension);
      r := GiveBack(i, Canceled);
      if r.Ok? {
        StepSound(old(Books()), CancelQueuedAction(user, i), Books());
      }
    }

    method SetOperator(user: Address, appointed: Address, i: nat) returns (r: Result<(), VaultError>)
      requires Valid()
      modifies this
      ensures Valid()
      ensures Follows(old(Books()), r, VaultLedger.SetOperator(old(Books()), user, appointed, i))
    {
      hide Sound;
      if i >= |requests| {
        return Err(InvalidRequest);
      }
      :- Require(requests[i].state != Closed, InvalidRequest);
      :- Require(requests[i].owner == user, UnauthorizedSigner);
      requests := requests[i := requests[i].(operator := Some(appointed))];
      StepSound(old(Books()), SetOperatorAction(user, appointed, i), Books());
      return Ok(());
    }

    method SkipCanceledRequest(i: nat) returns (r: Result<(), VaultError>)
      requires Valid()
      modifies this
      ensures Valid()
      ensures Follows(old(Books()), r, VaultLedger.SkipCanceledRequest(old(Books()), i))
    {
      hide Sound;
      if i >= |requests| {
        return Err(InvalidRequest);
      }
      var request := requests[i];
      :- Require(request.state == Canceled, RequestIsNotCanceled);
      var queue :- QueuePast(request);
      StoreQueue(request.kind, queue);
      requests := requests[i := request.(state := Closed)];
      StepSound(old(Books()), SkipAction(i), Books());
      return Ok(());
    }

    method Claim(user: Address, i: nat) returns (r: Result<(), VaultError>)
      requires Valid()
      modifies this
      ensures Valid()
      ensures Follows(old(Books()), r, VaultLedger.Claim(old(Books()), user, i))
    {
      hide Sound, Usable;
      :- Require(i < |requests|, InvalidRequest);
      var _ :- CheckUsable();
      var request := requests[i];
      :- Require(user == request.owner || request.operator == Some(user), UnauthorizedSigner);
      :- Require(request.state == Claimable, RequestNotClaimable);
      match request.kind {
        case DepositRequest => r := MintShares(request.amount);
        case RedeemRequest => r := PayFromEscrow(request.amount);
      }
      if r.Ok? {
        requests := requests[i := request.(state := Closed)];
      }
      if r.Ok? {
        StepSound(old(Books()), ClaimAction(user, i), Books());
      }
    }

    method CheckInstantAllowed(currentSlot: U64) returns (r: Result<(), VaultError>)
      ensures r == InstantAllowed(Books(), currentSlot)
    {
      var _ :- CheckUsable();
      :- Require(config.instantSettlement, InstantSettlementDisabled);
      :- Require(config.instantRedemptionFeeBps > 0 && config.maxNavStalenessSlots > 0, InvalidInstantSettlementConfig);
      :- Require(nav > 0, NavIsNotSet);
      r := CheckNavNotStale(currentSlot);
    }

    method CheckInstantDeposit(amount: U64, currentSlot: U64, wallet: U64) returns (r: Result<DepositTerms, VaultError>)
      ensures r == InstantDepositTerms(Books(), amount, currentSlot, wallet)
    {
      hide PriceDeposit, InstantAllowed, DepositCapAllows;
      var _ :- CheckInstantAllowed(currentSlot);
      var _ :- CheckDepositCap(amount);
      var terms :- PriceDeposit(config, nav, decimals, amount);
      :- Require(amount <= wallet && reserve + terms.net <= MAX_U64 && shareSupply + terms.shares <= MAX_U64, TokenFailure);
      :- Require(totalAssetBalance + terms.net <= MAX_U64, MathFailure);
      return Ok(terms);
    }

    method InstantDeposit(amount: U64, currentSlot: U64, wallet: U64) returns (r: Result<(), VaultError>)
      requires Valid()
      modifies this
      ensures Valid()
      ensures Follows(old(Books()), r, VaultLedger.InstantDeposit(old(Books()), amount, currentSlot, wallet))
    {
      hide Sound, PriceDeposit, InstantDepositTerms, Deposited;
      var terms :- CheckInstantDeposit(amount, currentSlot, wallet);
      TakeInstantDeposit(terms);
      StepSound(old(Books()), InstantDepositAction(amount, currentSlot, wallet), Books());
      return Ok(());
    }

    /** The user pays the fees, then the vault, and gets the shares. */
    method TakeInstantDeposit(terms: DepositTerms)
      requires reserve + terms.net <= MAX_U64 && totalAssetBalance + terms.net <= MAX_U64
      requires shareSupply + terms.shares <= MAX_U64
      modifies this`flows, this`reserve, this`shareSupply, this`totalAssetBalance
      ensures Books() == Deposited(old(Books()), terms)
    {
      flows := flows.(paidIn := flows.paidIn + terms.recipientFee + terms.protocolFee + terms.net,
                      feeRecipient := flows.feeRecipient + terms.recipientFee,
                      protocol := flows.protocol + terms.protocolFee);
      reserve := reserve + terms.net;
      shareSupply := shareSupply + terms.shares;
      totalAssetBalance := totalAssetBalance + terms.net;
    }

    method CheckInstantRedeem(shares: U64, currentSlot: U64, wallet: U64) returns (r: Result<RedeemTerms, VaultError>)
      ensures r == InstantRedeemTerms(Books(), shares, currentSlot, wallet)
    {
      hide Assets, InstantFeeAndNet, ChargeRedemption, Split, InstantAllowed;
      var _ :- CheckInstantAllowed(currentSlot);
      var grossAssets :- Assets(nav, decimals, shares);
      :- Require(reserve >= grossAssets, InsufficientLiquidity);
      var feeAndNet :- InstantFeeAndNet(config, grossAssets);
      var window :- ChargeRedemption(redemptionWindow, config, grossAssets, currentSlot);
      :- Require(shares <= wallet && shares <= shareSupply, TokenFailure);
      var feeParts :- Split(feeAndNet.0, config.protocolFeeBps);
      :- Require(totalAssetBalance >= grossAssets, MathFailure);
      return Ok(RedeemTerms(grossAssets, feeAndNet.1, window, feeParts.0, feeParts.1));
    }

    method InstantRedeem(shares: U64, currentSlot: U64, wallet: U64) returns (r: Result<(), VaultError>)
      requires Valid()
      modifies this
      ensures Valid()
      ensures Follows(old(Books()), r, VaultLedger.InstantRedeem(old(Books()), shares, currentSlot, wallet))
    {
      hide Sound, Assets, InstantRedeemTerms, Redeemed;
      var terms :- CheckInstantRedeem(shares, currentSlot, wallet);
      Redeem(shares, terms);
      StepSound(old(Books()), InstantRedeemAction(shares, currentSlot, wallet), Books());
      return Ok(());
    }

    method Redeem(shares: U64, terms: RedeemTerms)
      requires Redeemable(Books(), shares, terms)
      modifies this
      ensures Books() == Redeemed(old(Books()), shares, terms)
    {
      redemptionWindow := terms.window;
      shareSupply := shareSupply - shares;
      PayFees(terms.recipientFee, terms.protocolFee);
      PayUser(terms.net);
      totalAssetBalance := totalAssetBalance - terms.gross;
    }

    // ---- Operations ----

    method WithdrawAssets(signer: Address, amount: U64) returns (r: Result<(), VaultError>)
      requires Valid()
      modifies this
      ensures Valid()
      ensures Follows(old(Books()), r, VaultLedger.WithdrawAssets(old(Books()), signer, amount))
    {
      hide Sound, Usable;
      if signer != config.curator {
        return Err(UnauthorizedSigner);
      }
      var _ :- CheckUsable();
      :- Require(reserve >= amount, TokenFailure);
      reserve := reserve - amount;
      flows := flows.(withdrawn := flows.withdrawn + amount);
      StepSound(old(Books()), WithdrawAction(signer, amount), Books());
      return Ok(());
    }

    method OpenPosition(signer: Address) returns (r: Result<(), VaultError>)
      requires Valid()
      modifies this
      ensures Valid()
      ensures Follows(old(Books()), r, VaultLedger.OpenPosition(old(Books()), signer))
    {
      hide Sound;
      if signer != config.curator {
        return Err(UnauthorizedSigner);
      }
      positions := positions + [0];
      StepSound(old(Books()), OpenPositionAction(signer), Books());
      return Ok(());
    }

    method CheckManager(signer: Address, routineSafe: bool) returns (r: Result<(), VaultError>)
      ensures r == ManagerAuthorized(Books(), signer, routineSafe)
    {
      if signer == config.manager || (signer == config.hotManager && routineSafe) {
        return Ok(());
      }
      return Err(UnauthorizedSigner);
    }

    method CheckDeployment(signer: Address, routineSafe: bool, i: nat, amount: U64, currentSlot: U64)
      returns (r: Result<Window, VaultError>)
      ensures r == DeploymentAccepted(Books(), signer, routineSafe, i, amount, currentSlot)
    {
      hide Usable, ManagerAuthorized, ChargeManager;
      if i >= |positions| {
        return Err(InvalidPosition);
      }
      var _ :- CheckUsable();
      var _ :- CheckManager(signer, routineSafe);
      var window :- ChargeManager(managerWindow, config, amount, currentSlot);
      :- Require(reserve >= amount && positions[i] + amount <= MAX_U64, TokenFailure);
      return Ok(window);
    }

    /** Writes back what a deployment or a pull leaves in the reserve and at the venue. */
    method MoveAssets(window: Window, newReserve: U64, i: nat, newPosition: U64)
      requires i < |positions|
      modifies this`managerWindow, this`reserve, this`positions
      ensures Books() == old(Books()).(managerWindow := window, reserve := newReserve,
                                       positions := old(positions)[i := newPosition])
    {
      managerWindow := window;
      reserve := newReserve;
      positions := positions[i := newPosition];
    }

    method Deploy(signer: Address, routineSafe: bool, i: nat, amount: U64, currentSlot: U64) returns (r: Result<(), VaultError>)
      requires Valid()
      modifies this
      ensures Valid()
      ensures Follows(old(Books()), r, VaultLedger.Deploy(old(Books()), signer, routineSafe, i, amount, currentSlot))
    {
      hide Sound, DeploymentAccepted;
      var window :- CheckDeployment(signer, routineSafe, i, amount, currentSlot);
      MoveAssets(window, reserve - amount, i, positions[i] + amount);
      StepSound(old(Books()), DeployAction(signer, routineSafe, i, amount, currentSlot), Books());
      return Ok(());
    }

    method CheckPull(signer: Address, routineSafe: bool, i: nat, amount: U64, currentSlot: U64)
      returns (r: Result<Window, VaultError>)
      ensures r == PullAccepted(Books(), signer, routineSafe, i, amount, currentSlot)
    {
      hide Usable, ManagerAuthorized, ChargeManager;
      if i >= |positions| {
        return Err(InvalidPosition);
      }
      var _ :- CheckUsable();
      var _ :- CheckManager(signer, routineSafe);
      :- Require(positions[i] >= amount, InsufficientPositionBalance);
      var window :- ChargeManager(managerWindow, config, amount, currentSlot);
      :- Require(reserve + amount <= MAX_U64, TokenFailure);
      return Ok(window);
    }

    method Pull(signer: Address, routineSafe: bool, i: nat, amount: U64, currentSlot: U64) returns (r: Result<(), VaultError>)
      requires Valid()
      modifies this
      ensures Valid()
      ensures Follows(old(Books()), r, VaultLedger.Pull(old(Books()), signer, routineSafe, i, amount, currentSlot))
    {
      hide Sound, PullAccepted;
      var window :- CheckPull(signer, routineSafe, i, amount, currentSlot);
      MoveAssets(window, reserve + amount, i, positions[i] - amount);
      StepSound(old(Books()), PullAction(signer, routineSafe, i, amount, currentSlot), Books());
      return Ok(());
    }

    method UpdateNav(signer: Address, updatedNav: U128, currentSlot: U64) returns (r: Result<(), VaultError>)
      requires Valid()
      modifies this
      ensures Valid()
      ensures Follows(old(Books()), r, VaultLedger.UpdateNav(old(Books()), signer, updatedNav, currentSlot))
    {
      hide Sound;
      if signer != config.curator && signer != config.fulfiller {
        return Err(UnauthorizedSigner);
      }
      :- Require(navVersion + 1 <= MAX_U64, MathFailure);
      nav := updatedNav;
      navVersion := navVersion + 1;
      lastNavUpdateSlot := currentSlot;
      StepSound(old(Books()), UpdateNavAction(signer, updatedNav, currentSlot), Books());
      return Ok(());
    }

    method Pause(signer: Address) returns (r: Result<(), VaultError>)
      requires Valid()
      modifies this
      ensures Valid()
      ensures Follows(old(Books()), r, VaultLedger.Pause(old(Books()), signer))
    {
      hide Sound;
      if signer != config.breaker {
        return Err(UnauthorizedSigner);
      }
      paused := true;
      StepSound(old(Books()), PauseAction(signer), Books());
      return Ok(());
    }

    method Configure(signer: Address, config: Config, paused: bool) returns (r: Result<(), VaultError>)
      requires Valid()
      modifies this
      ensures Valid()
      ensures Follows(old(Books()), r, VaultLedger.Configure(old(Books()), signer, config, paused))
    {
      hide Sound;
      if signer != this.config.curator {
        return Err(UnauthorizedSigner);
      }
      this.config, this.paused := config, paused;
      StepSound(old(Books()), ConfigureAction(signer, config, paused), Books());
      return Ok(());
    }
  }
}

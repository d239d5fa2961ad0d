/**
 The books of an async vault: requests from creation to settlement, the escrow and reserve behind
 them, shares, fees, and the FIFO queues. Every instruction is a function from the books before to
 the books after, or an error that leaves them alone.
 */
module VaultLedger {
  import opened Arithmetic
  import opened Bytes
  import opened RollingLimit
  import opened VaultMath
  import opened Wrappers

  // ---- State ----

  datatype RequestType = DepositRequest | RedeemRequest

  /** `Closed` stands for a request account that no longer exists. */
  datatype RequestState = Pending | Claimable | Canceled | Closed

  datatype Request = Request(
    kind: RequestType,
    state: RequestState,
    owner: Address,
    operator: Option<Address>,
    amount: U64,
    navVersion: U64,
    queueId: Option<U64>)

  datatype Queue = Queue(total: U64, lastProcessed: U64)

  datatype Config = Config(
    curator: Address,
    fulfiller: Address,
    manager: Address,
    hotManager: Address,
    breaker: Address,
    depositFee: Option<FeeType>,
    withdrawalFee: Option<FeeType>,
    instantRedemptionFeeBps: U16,
    protocolFeeBps: U16,
    depositCap: U64,
    requireFreshNav: bool,
    maxNavStalenessSlots: U64,
    managerRollingLimit: U64,
    redemptionRollingLimit: U64,
    rollingLimitWindowSlots: U64,
    instantSettlement: bool)

  /** Primary assets that crossed the vault's border since it was created. */
  datatype Flows = Flows(paidIn: nat, paidOut: nat, feeRecipient: nat, protocol: nat, withdrawn: nat)

  datatype Ledger = Ledger(
    config: Config,
    initialized: bool,
    paused: bool,
    decimals: U8,
    nav: U128,
    navVersion: U64,
    lastNavUpdateSlot: U64,
    pendingAsyncRequests: U16,
    totalAssetBalance: U64,
    pendingDepositAmount: U64,
    managerWindow: Window,
    redemptionWindow: Window,
    subscriptions: Option<Queue>,
    redemptions: Option<Queue>,
    shareSupply: U64,
    pendingVault: U64,
    reserve: U64,
    positions: seq<U64>,
    requests: seq<Request>,
    flows: Flows)

  datatype VaultError =
    | UninitializedVault | VaultAlreadyInitialized | ExtensionAlreadyInitialized | PausedVault | UnauthorizedSigner | NavIsNotSet | StaleNav | MathFailure
    | DepositCapExceeded | InsufficientDepositAmount | InsufficientRedeemAmount | InsufficientLiquidity
    | InvalidPosition | InsufficientPositionBalance | InvalidRequest | RequestNotPending | RequestNotClaimable | RequestIsNotCanceled
    | MustUseCancelQueued | UninitializedExtension | QueueOutOfOrder
    | InstantSettlementDisabled | InvalidInstantSettlementConfig | LimitFailure(reason: LimitError) | TokenFailure

  const QUEUE_MODULUS := MAX_U64 + 1

  /** A vault just created: no shares, no assets, no queues, and not initialized yet. */
  function Created(config: Config, decimals: U8): Ledger
  {
    Ledger(config, false, false, decimals, 0, 0, 0, 0, 0, 0, Window(0, 0), Window(0, 0), None, None, 0, 0, 0, [], [],
           Flows(0, 0, 0, 0, 0))
  }

  // ---- Checks and helpers ----

  function Usable(l: Ledger): Result<(), VaultError>
  {
    if !l.initialized then Err(UninitializedVault)
    else if l.paused then Err(PausedVault)
    else Ok(())
  }

  function CuratorOrFulfiller(l: Ledger, signer: Address): Result<(), VaultError>
  {
    if signer == l.config.curator || signer == l.config.fulfiller then Ok(()) else Err(UnauthorizedSigner)
  }

  function NavNotStale(l: Ledger, slot: U64): Result<(), VaultError>
  {
    if l.config.maxNavStalenessSlots == 0 then Ok(())
    else
      :- Require(slot >= l.lastNavUpdateSlot, MathFailure);
      :- Require(slot - l.lastNavUpdateSlot <= l.config.maxNavStalenessSlots, StaleNav);
      Ok(())
  }

  function DepositCapAllows(l: Ledger, amount: U64): Result<(), VaultError>
  {
    if l.config.depositCap == 0 then Ok(())
    else
      :- Require(l.totalAssetBalance + l.pendingDepositAmount + amount <= MAX_U64, MathFailure);
      :- Require(l.totalAssetBalance + l.pendingDepositAmount + amount <= l.config.depositCap, DepositCapExceeded);
      Ok(())
  }

  function ExtensionFee(fee: Option<FeeType>, amount: U64): Result<U64, VaultError>
  {
    if fee.None? then Ok(0)
    else
      match GetFee(fee.value, amount)
      case Err(_) => Err(MathFailure)
      case Ok(f) => Ok(f)
  }

  /** The fee on an amount and what is left of it. */
  function FeeAndNet(fee: Option<FeeType>, amount: U64): (r: Result<(U64, U64), VaultError>)
    ensures r.Ok? ==> r.value.0 + r.value.1 == amount
  {
    var f :- ExtensionFee(fee, amount);
    :- Require(f <= amount, MathFailure);
    Ok((f, amount - f))
  }

  function Split(totalFee: U64, bps: U16): (r: Result<(U64, U64), VaultError>)
    ensures r.Ok? ==> r.value.0 + r.value.1 == totalFee
  {
    match SplitProtocolFee(totalFee, bps)
    case Err(_) => Err(MathFailure)
    case Ok(parts) => Ok(parts)
  }

  function Shares(nav: U128, decimals: U8, amount: U64): Result<U64, VaultError>
  {
    match CalculateShares(nav, decimals, amount)
    case Err(_) => Err(MathFailure)
    case Ok(s) => Ok(s)
  }

  function Assets(nav: U128, decimals: U8, shares: U64): Result<U64, VaultError>
  {
    match CalculateAssets(nav, decimals, shares)
    case Err(_) => Err(MathFailure)
    case Ok(a) => Ok(a)
  }

  function ChargeRedemption(w: Window, c: Config, amount: U64, slot: U64): Result<Window, VaultError>
  {
    match Consume(w, amount, slot, c.redemptionRollingLimit, c.rollingLimitWindowSlots)
    case Err(e) => Err(LimitFailure(e))
    case Ok(next) => Ok(next)
  }

  function ChargeManager(w: Window, c: Config, amount: U64, slot: U64): Result<Window, VaultError>
  {
    match Consume(w, amount, slot, c.managerRollingLimit, c.rollingLimitWindowSlots)
    case Err(e) => Err(LimitFailure(e))
    case Ok(next) => Ok(next)
  }

  /** What a deposit is settled for. */
  datatype DepositTerms = DepositTerms(net: U64, shares: U64, protocolFee: U64, recipientFee: U64)

  function PriceDeposit(c: Config, nav: U128, decimals: U8, amount: U64): (r: Result<DepositTerms, VaultError>)
    ensures r.Ok? ==> r.value.net + r.value.protocolFee + r.value.recipientFee == amount
    ensures r.Ok? ==> r.value.net > 0 && r.value.shares > 0
  {
    var (fee, net) :- FeeAndNet(c.depositFee, amount);
    :- Require(net > 0, InsufficientDepositAmount);
    var shares :- Shares(nav, decimals, net);
    :- Require(shares > 0, InsufficientDepositAmount);
    var (protocolFee, recipientFee) :- Split(fee, c.protocolFeeBps);
    Ok(DepositTerms(net, shares, protocolFee, recipientFee))
  }

  /** What a redemption is settled for, with the rolling limit charged. */
  datatype RedeemTerms = RedeemTerms(gross: U64, net: U64, window: Window, protocolFee: U64, recipientFee: U64)

  function PriceRedeem(c: Config, nav: U128, decimals: U8, w: Window, shares: U64, slot: U64)
    : (r: Result<RedeemTerms, VaultError>)
    ensures r.Ok? ==> r.value.net + r.value.protocolFee + r.value.recipientFee == r.value.gross
  {
    var gross :- Assets(nav, decimals, shares);
    var (fee, net) :- FeeAndNet(c.withdrawalFee, gross);
    var window :- ChargeRedemption(w, c, gross, slot);
    var (protocolFee, recipientFee) :- Split(fee, c.protocolFeeBps);
    Ok(RedeemTerms(gross, net, window, protocolFee, recipientFee))
  }

  /** An instant redemption pays the withdrawal fee and the instant fee on top. */
  function InstantFeeAndNet(c: Config, gross: U64): (r: Result<(U64, U64), VaultError>)
    ensures r.Ok? ==> r.value.0 + r.value.1 == gross && r.value.1 > 0
  {
    var withdrawalFee :- ExtensionFee(c.withdrawalFee, gross);
    var instantFee :- if c.instantRedemptionFeeBps == 0 then Ok(0)
                      else ExtensionFee(Some(Percentage(c.instantRedemptionFeeBps)), gross);
    :- Require(withdrawalFee + instantFee <= gross, MathFailure);
    var totalFee: U64 := withdrawalFee + instantFee;
    var net: U64 := gross - totalFee;
    :- Require(net > 0, InsufficientRedeemAmount);
    Ok((totalFee, net))
  }

  function QueueOf(l: Ledger, kind: RequestType): Option<Queue>
  {
    if kind == DepositRequest then l.subscriptions else l.redemptions
  }

  function WithQueue(l: Ledger, kind: RequestType, q: Option<Queue>): Ledger
  {
    if kind == DepositRequest then l.(subscriptions := q) else l.(redemptions := q)
  }

  /** Assigns the next queue id, if the queue is there; ids wrap around. */
  function NextQueueId(q: Option<Queue>): (Option<Queue>, Option<U64>)
  {
    if q.None? then (None, None)
    else
      var id := (q.value.total + 1) % QUEUE_MODULUS;
      (Some(q.value.(total := id)), Some(id))
  }

  /** Accepts only the id after the last processed one, and moves on to it. */
  function CheckAndAdvance(q: Option<Queue>, id: Option<U64>): Result<Option<Queue>, VaultError>
  {
    if q.None? then Ok(None)
    else
      :- Require(id.Some?, UninitializedExtension);
      :- Require(id.value == (q.value.lastProcessed + 1) % QUEUE_MODULUS, QueueOutOfOrder);
      Ok(Some(q.value.(lastProcessed := id.value)))
  }

  function FindRequest(l: Ledger, i: nat): (r: Result<Request, VaultError>)
    ensures r.Ok? <==> i < |l.requests|
    ensures r.Ok? ==> r.value == l.requests[i]
  {
    if i < |l.requests| then Ok(l.requests[i]) else Err(InvalidRequest)
  }

  // ---- Setting up ----

  function Curator(l: Ledger, signer: Address): Result<(), VaultError>
  {
    if signer == l.config.curator then Ok(()) else Err(UnauthorizedSigner)
  }

  /** Queues can only be added before the vault is initialized. */
  function AddQueue(l: Ledger, signer: Address, kind: RequestType): Result<Ledger, VaultError>
  {
    var _ :- Curator(l, signer);
    :- Require(!l.initialized, VaultAlreadyInitialized);
    :- Require(QueueOf(l, kind).None?, ExtensionAlreadyInitialized);
    Ok(WithQueue(l, kind, Some(Queue(0, 0))))
  }

  function InitializeVault(l: Ledger, signer: Address): Result<Ledger, VaultError>
  {
    var _ :- Curator(l, signer);
    :- Require(!l.initialized, VaultAlreadyInitialized);
    Ok(l.(initialized := true))
  }

  // ---- Creating requests ----

  /** Everything a deposit request checks. */
  function DepositAccepted(l: Ledger, amount: U64, wallet: U64): (r: Result<(), VaultError>)
    ensures r.Ok? ==> l.initialized
    ensures r.Ok? ==> l.pendingVault + amount <= MAX_U64 && l.pendingDepositAmount + amount <= MAX_U64
    ensures r.Ok? ==> l.pendingAsyncRequests + 1 <= 0xffff
  {
    var _ :- Usable(l);
    var _ :- DepositCapAllows(l, amount);
    var fee :- ExtensionFee(l.config.depositFee, amount);
    :- Require(amount > fee, InsufficientDepositAmount);
    :- Require(amount <= wallet && l.pendingVault + amount <= MAX_U64, TokenFailure);
    :- Require(l.pendingAsyncRequests + 1 <= 0xffff, MathFailure);
    :- Require(l.pendingDepositAmount + amount <= MAX_U64, MathFailure);
    Ok(())
  }

  function CreateDepositRequest(l: Ledger, user: Address, operator: Option<Address>, amount: U64, wallet: U64)
    : Result<Ledger, VaultError>
  {
    var _ :- DepositAccepted(l, amount, wallet);
    var (queue, id) := NextQueueId(l.subscriptions);
    Ok(l.(requests := l.requests + [Request(DepositRequest, Pending, user, operator, amount, l.navVersion, id)],
          subscriptions := queue,
          pendingVault := l.pendingVault + amount,
          pendingAsyncRequests := l.pendingAsyncRequests + 1,
          pendingDepositAmount := l.pendingDepositAmount + amount,
          flows := l.flows.(paidIn := l.flows.paidIn + amount)))
  }

  /** Everything a redemption request checks. */
  function RedemptionAccepted(l: Ledger, shares: U64, wallet: U64): (r: Result<(), VaultError>)
    ensures r.Ok? ==> l.initialized && shares <= l.shareSupply && l.pendingAsyncRequests + 1 <= 0xffff
  {
    var _ :- Usable(l);
    :- Require(shares > 0, InsufficientRedeemAmount);
    :- Require(shares <= wallet && shares <= l.shareSupply, TokenFailure);
    :- Require(l.pendingAsyncRequests + 1 <= 0xffff, MathFailure);
    Ok(())
  }

  function CreateRedeemRequest(l: Ledger, user: Address, operator: Option<Address>, shares: U64, wallet: U64)
    : Result<Ledger, VaultError>
  {
    var _ :- RedemptionAccepted(l, shares, wallet);
    var (queue, id) := NextQueueId(l.redemptions);
    Ok(l.(requests := l.requests + [Request(RedeemRequest, Pending, user, operator, shares, l.navVersion, id)],
          redemptions := queue,
          shareSupply := l.shareSupply - shares,
          pendingAsyncRequests := l.pendingAsyncRequests + 1))
  }

  // ---- Settling ----

  /** What approval checks before it looks at amounts; the queue advances. */
  function Approvable(l: Ledger, signer: Address, i: nat, slot: U64): (r: Result<Ledger, VaultError>)
    ensures r.Ok? ==> i < |l.requests| && l.requests[i].state == Pending && l.nav > 0
    ensures r.Ok? ==> exists q :: CheckAndAdvance(QueueOf(l, l.requests[i].kind), l.requests[i].queueId) == Ok(q)
                               && r.value == WithQueue(l, l.requests[i].kind, q)
  {
    var _ :- Usable(l);
    var _ :- CuratorOrFulfiller(l, signer);
    var request :- FindRequest(l, i);
    :- Require(request.state == Pending, RequestNotPending);
    :- Require(l.nav > 0, NavIsNotSet);
    :- Require(l.config.requireFreshNav ==> l.navVersion > request.navVersion, StaleNav);
    var _ :- NavNotStale(l, slot);
    var queue :- CheckAndAdvance(QueueOf(l, request.kind), request.queueId);
    Ok(WithQueue(l, request.kind, queue))
  }

  /** Everything a deposit's settlement checks. */
  function DepositSettlement(l: Ledger, request: Request): (r: Result<DepositTerms, VaultError>)
    ensures r.Ok? ==> r == PriceDeposit(l.config, l.nav, l.decimals, request.amount)
    ensures r.Ok? ==> r.value.net + r.value.protocolFee + r.value.recipientFee == request.amount
    ensures r.Ok? ==> l.pendingVault >= request.amount && l.pendingDepositAmount >= request.amount && l.pendingAsyncRequests >= 1
    ensures r.Ok? ==> l.reserve + r.value.net <= MAX_U64 && l.totalAssetBalance + r.value.net <= MAX_U64
  {
    var terms :- PriceDeposit(l.config, l.nav, l.decimals, request.amount);
    :- Require(l.pendingVault >= request.amount && l.reserve + terms.net <= MAX_U64, TokenFailure);
    :- Require(l.config.depositCap > 0 ==> l.totalAssetBalance + terms.net <= l.config.depositCap, DepositCapExceeded);
    :- Require(l.totalAssetBalance + terms.net <= MAX_U64, MathFailure);
    :- Require(l.pendingDepositAmount >= request.amount, MathFailure);
    :- Require(l.pendingAsyncRequests >= 1, MathFailure);
    Ok(terms)
  }

  function ApproveDeposit(l: Ledger, i: nat): Result<Ledger, VaultError>
    requires i < |l.requests|
  {
    var request := l.requests[i];
    var terms :- DepositSettlement(l, request);
    Ok(l.(requests := l.requests[i := request.(amount := terms.shares, state := Claimable)],
          pendingVault := l.pendingVault - request.amount,
          reserve := l.reserve + terms.net,
          totalAssetBalance := l.totalAssetBalance + terms.net,
          pendingDepositAmount := l.pendingDepositAmount - request.amount,
          pendingAsyncRequests := l.pendingAsyncRequests - 1,
          flows := l.flows.(feeRecipient := l.flows.feeRecipient + terms.recipientFee,
                            protocol := l.flows.protocol + terms.protocolFee)))
  }

  /** Everything a redemption's settlement checks. */
  function RedeemSettlement(l: Ledger, request: Request, slot: U64): (r: Result<RedeemTerms, VaultError>)
    ensures r.Ok? ==> r == PriceRedeem(l.config, l.nav, l.decimals, l.redemptionWindow, request.amount, slot)
    ensures r.Ok? ==> r.value.net + r.value.protocolFee + r.value.recipientFee == r.value.gross
    ensures r.Ok? ==> l.reserve >= r.value.gross && l.totalAssetBalance >= r.value.gross && l.pendingAsyncRequests >= 1
    ensures r.Ok? ==> l.pendingVault + r.value.net <= MAX_U64
  {
    var terms :- PriceRedeem(l.config, l.nav, l.decimals, l.redemptionWindow, request.amount, slot);
    :- Require(l.reserve >= terms.gross && l.pendingVault + terms.net <= MAX_U64, TokenFailure);
    :- Require(l.totalAssetBalance >= terms.gross, MathFailure);
    :- Require(l.pendingAsyncRequests >= 1, MathFailure);
    Ok(terms)
  }

  function ApproveRedeem(l: Ledger, i: nat, slot: U64): Result<Ledger, VaultError>
    requires i < |l.requests|
  {
    var request := l.requests[i];
    var terms :- RedeemSettlement(l, request, slot);
    Ok(l.(requests := l.requests[i := request.(amount := terms.net, state := Claimable)],
          pendingVault := l.pendingVault + terms.net,
          reserve := l.reserve - terms.gross,
          totalAssetBalance := l.totalAssetBalance - terms.gross,
          redemptionWindow := terms.window,
          pendingAsyncRequests := l.pendingAsyncRequests - 1,
          flows := l.flows.(feeRecipient := l.flows.feeRecipient + terms.recipientFee,
                            protocol := l.flows.protocol + terms.protocolFee)))
  }

  function ApproveRequest(l: Ledger, signer: Address, i: nat, slot: U64): Result<Ledger, VaultError>
  {
    var advanced :- Approvable(l, signer, i, slot);
    if l.requests[i].kind == DepositRequest then ApproveDeposit(advanced, i) else ApproveRedeem(advanced, i, slot)
  }

  /** Everything a refund checks. */
  function Refundable(l: Ledger, request: Request): (r: Result<(), VaultError>)
    ensures r.Ok? <==> && l.pendingAsyncRequests >= 1
                       && match request.kind
                          case DepositRequest => l.pendingVault >= request.amount && l.pendingDepositAmount >= request.amount
                          case RedeemRequest => l.shareSupply + request.amount <= MAX_U64
  {
    if request.kind == DepositRequest && l.pendingVault < request.amount then Err(TokenFailure)
    else if request.kind == DepositRequest && l.pendingDepositAmount < request.amount then Err(MathFailure)
    else if request.kind == RedeemRequest && l.shareSupply + request.amount > MAX_U64 then Err(TokenFailure)
    else if l.pendingAsyncRequests < 1 then Err(MathFailure)
    else Ok(())
  }

  /** Gives a pending request back: assets from the escrow, or the burned shares minted again. */
  function Refund(l: Ledger, i: nat, state: RequestState): Result<Ledger, VaultError>
    requires i < |l.requests|
  {
    var request := l.requests[i];
    var _ :- Refundable(l, request);
    var settled := l.(requests := l.requests[i := request.(state := state)],
                      pendingAsyncRequests := l.pendingAsyncRequests - 1);
    if request.kind == DepositRequest then
      Ok(settled.(pendingVault := l.pendingVault - request.amount,
                  pendingDepositAmount := l.pendingDepositAmount - request.amount,
                  flows := l.flows.(paidOut := l.flows.paidOut + request.amount)))
    else
      Ok(settled.(shareSupply := l.shareSupply + request.amount))
  }

  function RejectRequest(l: Ledger, signer: Address, i: nat): Result<Ledger, VaultError>
  {
    var _ :- CuratorOrFulfiller(l, signer);
    var request :- FindRequest(l, i);
    :- Require(request.state == Pending, RequestNotPending);
    var queue :- CheckAndAdvance(QueueOf(l, request.kind), request.queueId);
    Refund(WithQueue(l, request.kind, queue), i, Closed)
  }

  function CancelRequest(l: Ledger, user: Address, i: nat): Result<Ledger, VaultError>
  {
    var request :- FindRequest(l, i);
    :- Require(request.owner == user, UnauthorizedSigner);
    var _ :- Usable(l);
    :- Require(request.state == Pending, RequestNotPending);
    :- Require(request.queueId.None?, MustUseCancelQueued);
    Refund(l, i, Closed)
  }

  /** Cancels a queued request; its account stays as a tombstone until the queue gets past it. */
  function CancelQueuedRequest(l: Ledger, user: Address, i: nat): Result<Ledger, VaultError>
  {
    var request :- FindRequest(l, i);
    :- Require(request.owner == user, UnauthorizedSigner);
    var _ :- Usable(l);
    :- Require(request.state == Pending, RequestNotPending);
    :- Require(request.queueId.Some?, UninitializedExtension);
    Refund(l, i, Canceled)
  }

  function SkipCanceledRequest(l: Ledger, i: nat): Result<Ledger, VaultError>
  {
    var request :- FindRequest(l, i);
    :- Require(request.state == Canceled, RequestIsNotCanceled);
    var queue :- CheckAndAdvance(QueueOf(l, request.kind), request.queueId);
    Ok(WithQueue(l, request.kind, queue).(requests := l.requests[i := request.(state := Closed)]))
  }

  /** Pays a user out of the escrow. */
  function PayFromEscrow(l: Ledger, amount: U64): Result<Ledger, VaultError>
  {
    if l.pendingVault < amount then Err(TokenFailure)
    else Ok(l.(pendingVault := l.pendingVault - amount, flows := l.flows.(paidOut := l.flows.paidOut + amount)))
  }

  function MintShares(l: Ledger, amount: U64): Result<Ledger, VaultError>
  {
    if l.shareSupply + amount > MAX_U64 then Err(TokenFailure)
    else Ok(l.(shareSupply := l.shareSupply + amount))
  }

  function Claim(l: Ledger, user: Address, i: nat): Result<Ledger, VaultError>
  {
    var request :- FindRequest(l, i);
    var _ :- Usable(l);
    :- Require(user == request.owner || request.operator == Some(user), UnauthorizedSigner);
    :- Require(request.state == Claimable, RequestNotClaimable);
    var paid :- if request.kind == DepositRequest then MintShares(l, request.amount)
                else PayFromEscrow(l, request.amount);
    Ok(paid.(requests := l.requests[i := request.(state := Closed)]))
  }

  /** Names who else may claim a request, as long as the request is there. */
  function SetOperator(l: Ledger, user: Address, appointed: Address, i: nat): Result<Ledger, VaultError>
  {
    var request :- FindRequest(l, i);
    :- Require(request.state != Closed, InvalidRequest);
    :- Require(request.owner == user, UnauthorizedSigner);
    Ok(l.(requests := l.requests[i := request.(operator := Some(appointed))]))
  }

  // ---- Instant settlement ----

  function InstantAllowed(l: Ledger, slot: U64): (r: Result<(), VaultError>)
    ensures r.Ok? ==> l.nav > 0
  {
    var _ :- Usable(l);
    :- Require(l.config.instantSettlement, InstantSettlementDisabled);
    :- Require(l.config.instantRedemptionFeeBps > 0 && l.config.maxNavStalenessSlots > 0, InvalidInstantSettlementConfig);
    :- Require(l.nav > 0, NavIsNotSet);
    NavNotStale(l, slot)
  }

  /** Everything an instant deposit checks. */
  function InstantDepositTerms(l: Ledger, amount: U64, slot: U64, wallet: U64): (r: Result<DepositTerms, VaultError>)
    ensures r.Ok? ==> l.nav > 0 && r == PriceDeposit(l.config, l.nav, l.decimals, amount)
    ensures r.Ok? ==> r.value.net + r.value.protocolFee + r.value.recipientFee == amount
    ensures r.Ok? ==> l.reserve + r.value.net <= MAX_U64 && l.totalAssetBalance + r.value.net <= MAX_U64
    ensures r.Ok? ==> l.shareSupply + r.value.shares <= MAX_U64
  {
    var _ :- InstantAllowed(l, slot);
    var _ :- DepositCapAllows(l, amount);
    var terms :- PriceDeposit(l.config, l.nav, l.decimals, amount);
    :- Require(amount <= wallet && l.reserve + terms.net <= MAX_U64 && l.shareSupply + terms.shares <= MAX_U64,
               TokenFailure);
    :- Require(l.totalAssetBalance + terms.net <= MAX_U64, MathFailure);
    Ok(terms)
  }

  /** The books after an instant deposit at these terms. */
  function Deposited(l: Ledger, terms: DepositTerms): Ledger
    requires l.reserve + terms.net <= MAX_U64 && l.totalAssetBalance + terms.net <= MAX_U64
    requires l.shareSupply + terms.shares <= MAX_U64
  {
    l.(reserve := l.reserve + terms.net,
       shareSupply := l.shareSupply + terms.shares,
       totalAssetBalance := l.totalAssetBalance + terms.net,
       flows := l.flows.(paidIn := l.flows.paidIn + terms.net + terms.protocolFee + terms.recipientFee,
                         feeRecipient := l.flows.feeRecipient + terms.recipientFee,
                         protocol := l.flows.protocol + terms.protocolFee))
  }

  function InstantDeposit(l: Ledger, amount: U64, slot: U64, wallet: U64): Result<Ledger, VaultError>
  {
    var terms :- InstantDepositTerms(l, amount, slot, wallet);
    Ok(Deposited(l, terms))
  }

  /** The books can pay these terms. */
  predicate Redeemable(l: Ledger, shares: U64, terms: RedeemTerms)
  {
    && terms.net + terms.protocolFee + terms.recipientFee == terms.gross
    && l.reserve >= terms.gross && l.totalAssetBalance >= terms.gross && l.shareSupply >= shares
  }

  /** Everything an instant redemption checks. */
  function InstantRedeemTerms(l: Ledger, shares: U64, slot: U64, wallet: U64): (r: Result<RedeemTerms, VaultError>)
    ensures r.Ok? ==> Assets(l.nav, l.decimals, shares) == Ok(r.value.gross)
    ensures r.Ok? ==> Redeemable(l, shares, r.value)
  {
    var _ :- InstantAllowed(l, slot);
    var gross :- Assets(l.nav, l.decimals, shares);
    :- Require(l.reserve >= gross, InsufficientLiquidity);
    var (fee, net) :- InstantFeeAndNet(l.config, gross);
    var window :- ChargeRedemption(l.redemptionWindow, l.config, gross, slot);
    :- Require(shares <= wallet && shares <= l.shareSupply, TokenFailure);
    var (protocolFee, recipientFee) :- Split(fee, l.config.protocolFeeBps);
    :- Require(l.totalAssetBalance >= gross, MathFailure);
    Ok(RedeemTerms(gross, net, window, protocolFee, recipientFee))
  }

  function Redeemed(l: Ledger, shares: U64, terms: RedeemTerms): (next: Ledger)
    requires Redeemable(l, shares, terms)
    ensures next.requests == l.requests
  {
    l.(reserve := l.reserve - terms.gross,
       shareSupply := l.shareSupply - shares,
       totalAssetBalance := l.totalAssetBalance - terms.gross,
       redemptionWindow := terms.window,
       flows := l.flows.(paidOut := l.flows.paidOut + terms.net,
                         feeRecipient := l.flows.feeRecipient + terms.recipientFee,
                         protocol := l.flows.protocol + terms.protocolFee))
  }

  function InstantRedeem(l: Ledger, shares: U64, slot: U64, wallet: U64): Result<Ledger, VaultError>
  {
    var terms :- InstantRedeemTerms(l, shares, slot, wallet);
    Ok(Redeemed(l, shares, terms))
  }

  // ---- Operations ----

  function WithdrawAssets(l: Ledger, signer: Address, amount: U64): Result<Ledger, VaultError>
  {
    var _ :- Curator(l, signer);
    var _ :- Usable(l);
    :- Require(l.reserve >= amount, TokenFailure);
    Ok(l.(reserve := l.reserve - amount, flows := l.flows.(withdrawn := l.flows.withdrawn + amount)))
  }

  /** A position at a venue, in its own token account of the vault. */
  function OpenPosition(l: Ledger, signer: Address): Result<Ledger, VaultError>
  {
    var _ :- Curator(l, signer);
    Ok(l.(positions := l.positions + [0]))
  }

  /** The manager may use every venue, the hot manager only the routine-safe ones. */
  function ManagerAuthorized(l: Ledger, signer: Address, routineSafe: bool): Result<(), VaultError>
  {
    if signer == l.config.manager || (signer == l.config.hotManager && routineSafe) then Ok(()) else Err(UnauthorizedSigner)
  }

  /** Everything a deployment checks; the manager's window after it. */
  function DeploymentAccepted(l: Ledger, signer: Address, routineSafe: bool, i: nat, amount: U64, slot: U64)
    : (r: Result<Window, VaultError>)
    ensures r.Ok? ==> i < |l.positions| && l.reserve >= amount && l.positions[i] + amount <= MAX_U64
  {
    var _ :- FindPosition(l, i);
    var _ :- Usable(l);
    var _ :- ManagerAuthorized(l, signer, routineSafe);
    var window :- ChargeManager(l.managerWindow, l.config, amount, slot);
    :- Require(l.reserve >= amount && l.positions[i] + amount <= MAX_U64, TokenFailure);
    Ok(window)
  }

  function FindPosition(l: Ledger, i: nat): (r: Result<U64, VaultError>)
    ensures r.Ok? <==> i < |l.positions|
    ensures r.Ok? ==> r.value == l.positions[i]
  {
    if i < |l.positions| then Ok(l.positions[i]) else Err(InvalidPosition)
  }

  /** Moves assets of the reserve to a venue; the vault's total stays. */
  function Deploy(l: Ledger, signer: Address, routineSafe: bool, i: nat, amount: U64, slot: U64): Result<Ledger, VaultError>
  {
    var window :- DeploymentAccepted(l, signer, routineSafe, i, amount, slot);
    Ok(l.(managerWindow := window,
          reserve := l.reserve - amount,
          positions := l.positions[i := l.positions[i] + amount]))
  }

  /** Everything a withdrawal from a venue checks; the manager's window after it. */
  function PullAccepted(l: Ledger, signer: Address, routineSafe: bool, i: nat, amount: U64, slot: U64)
    : (r: Result<Window, VaultError>)
    ensures r.Ok? ==> i < |l.positions| && l.positions[i] >= amount && l.reserve + amount <= MAX_U64
  {
    var position :- FindPosition(l, i);
    var _ :- Usable(l);
    var _ :- ManagerAuthorized(l, signer, routineSafe);
    :- Require(position >= amount, InsufficientPositionBalance);
    var window :- ChargeManager(l.managerWindow, l.config, amount, slot);
    :- Require(l.reserve + amount <= MAX_U64, TokenFailure);
    Ok(window)
  }

  /** Moves assets of a venue back to the reserve. */
  function Pull(l: Ledger, signer: Address, routineSafe: bool, i: nat, amount: U64, slot: U64): Result<Ledger, VaultError>
  {
    var window :- PullAccepted(l, signer, routineSafe, i, amount, slot);
    Ok(l.(managerWindow := window,
          reserve := l.reserve + amount,
          positions := l.positions[i := l.positions[i] - amount]))
  }

  function UpdateNav(l: Ledger, signer: Address, nav: U128, slot: U64): Result<Ledger, VaultError>
  {
    var _ :- CuratorOrFulfiller(l, signer);
    :- Require(l.navVersion + 1 <= MAX_U64, MathFailure);
    Ok(l.(nav := nav, navVersion := l.navVersion + 1, lastNavUpdateSlot := slot))
  }

  function Configure(l: Ledger, signer: Address, config: Config, paused: bool): Result<Ledger, VaultError>
  {
    var _ :- Curator(l, signer);
    Ok(l.(config := config, paused := paused))
  }

  /** The breaker can pause the vault; only a configuration ends the pause. */
  function Pause(l: Ledger, signer: Address): Result<Ledger, VaultError>
  {
    if signer == l.config.breaker then Ok(l.(paused := true)) else Err(UnauthorizedSigner)
  }

  datatype Action =
    | CreateDepositAction(user: Address, operator: Option<Address>, amount: U64, wallet: U64)
    | CreateRedeemAction(user: Address, operator: Option<Address>, amount: U64, wallet: U64)
    | ApproveAction(signer: Address, i: nat, slot: U64)
    | RejectAction(signer: Address, i: nat)
    | CancelAction(user: Address, i: nat)
    | CancelQueuedAction(user: Address, i: nat)
    | SkipAction(i: nat)
    | ClaimAction(user: Address, i: nat)
    | SetOperatorAction(user: Address, appointed: Address, i: nat)
    | InstantDepositAction(amount: U64, slot: U64, wallet: U64)
    | InstantRedeemAction(amount: U64, slot: U64, wallet: U64)
    | WithdrawAction(signer: Address, amount: U64)
    | UpdateNavAction(signer: Address, nav: U128, slot: U64)
    | ConfigureAction(signer: Address, config: Config, paused: bool)
    | PauseAction(signer: Address)
    | AddQueueAction(signer: Address, kind: RequestType)
    | InitializeAction(signer: Address)
    | OpenPositionAction(signer: Address)
    | DeployAction(signer: Address, routineSafe: bool, i: nat, amount: U64, slot: U64)
    | PullAction(signer: Address, routineSafe: bool, i: nat, amount: U64, slot: U64)

  function Step(l: Ledger, a: Action): Result<Ledger, VaultError>
  {
    match a
    case CreateDepositAction(user, operator, amount, wallet) => CreateDepositRequest(l, user, operator, amount, wallet)
    case CreateRedeemAction(user, operator, amount, wallet) => CreateRedeemRequest(l, user, operator, amount, wallet)
    case ApproveAction(signer, i, slot) => ApproveRequest(l, signer, i, slot)
    case RejectAction(signer, i) => RejectRequest(l, signer, i)
    case CancelAction(user, i) => CancelRequest(l, user, i)
    case CancelQueuedAction(user, i) => CancelQueuedRequest(l, user, i)
    case SkipAction(i) => SkipCanceledRequest(l, i)
    case ClaimAction(user, i) => Claim(l, user, i)
    case SetOperatorAction(user, appointed, i) => SetOperator(l, user, appointed, i)
    case InstantDepositAction(amount, slot, wallet) => InstantDeposit(l, amount, slot, wallet)
    case InstantRedeemAction(amount, slot, wallet) => InstantRedeem(l, amount, slot, wallet)
    case WithdrawAction(signer, amount) => WithdrawAssets(l, signer, amount)
    case UpdateNavAction(signer, nav, slot) => UpdateNav(l, signer, nav, slot)
    case ConfigureAction(signer, config, paused) => Configure(l, signer, config, paused)
    case PauseAction(signer) => Pause(l, signer)
    case AddQueueAction(signer, kind) => AddQueue(l, signer, kind)
    case InitializeAction(signer) => InitializeVault(l, signer)
    case OpenPositionAction(signer) => OpenPosition(l, signer)
    case DeployAction(signer, routineSafe, i, amount, slot) => Deploy(l, signer, routineSafe, i, amount, slot)
    case PullAction(signer, routineSafe, i, amount, slot) => Pull(l, signer, routineSafe, i, amount, slot)
  }

  /** The books after an instruction; a failing one changes nothing. */
  function After(l: Ledger, a: Action): Ledger
  {
    var r := Step(l, a);
    if r.Ok? then r.value else l
  }

  function AfterAll(l: Ledger, run: seq<Action>): Ledger
    decreases |run|
  {
    if run == [] then l else AfterAll(After(l, run[0]), run[1..])
  }
}

/** What every run of vault instructions keeps: the books balance, refunds are covered, nobody dilutes anybody. */
module VaultInvariants {
  import opened Arithmetic
  import opened Bytes
  import opened VaultLedger
  import opened VaultMath
  import opened Wrappers

  // ---- Sums over requests ----

  function PendingOf(r: Request): nat
  {
    if r.state == Pending then 1 else 0
  }

  function PendingDepositOf(r: Request): nat
  {
    if r.state == Pending && r.kind == DepositRequest then r.amount else 0
  }

  /** Assets the escrow owes for a request: an undecided deposit, or a settled redemption. */
  function EscrowOf(r: Request): nat
  {
    if (r.state == Pending && r.kind == DepositRequest) || (r.state == Claimable && r.kind == RedeemRequest) then r.amount
    else 0
  }

  /** Shares owed for a request: burned but undecided, or settled and not yet minted. */
  function OwedSharesOf(r: Request): nat
  {
    if (r.state == Pending && r.kind == RedeemRequest) || (r.state == Claimable && r.kind == DepositRequest) then r.amount
    else 0
  }

  function SumOf(requests: seq<Request>, f: Request -> nat): nat
  {
    if requests == [] then 0 else f(requests[0]) + SumOf(requests[1..], f)
  }

  lemma {:induction false} SumAppend(requests: seq<Request>, r: Request, f: Request -> nat)
    ensures SumOf(requests + [r], f) == SumOf(requests, f) + f(r)
  {
    if requests == [] {
      assert requests + [r] == [r] && [r][1..] == [];
    } else {
      assert (requests + [r])[1..] == requests[1..] + [r];
      SumAppend(requests[1..], r, f);
    }
  }

  lemma {:induction false} SumUpdate(requests: seq<Request>, i: nat, r: Request, f: Request -> nat)
    requires i < |requests|
    ensures SumOf(requests[i := r], f) == SumOf(requests, f) - f(requests[i]) + f(r)
    ensures f(requests[i]) <= SumOf(requests, f)
  {
    if i == 0 {
      assert requests[0 := r][1..] == requests[1..];
    } else {
      assert requests[i := r][1..] == requests[1..][i - 1 := r];
      SumUpdate(requests[1..], i - 1, r, f);
    }
  }

  /** What stands at the venues. */
  function Deployed(positions: seq<U64>): nat
  {
    if positions == [] then 0 else positions[0] + Deployed(positions[1..])
  }

  lemma {:induction false} DeployedAppend(positions: seq<U64>)
    ensures Deployed(positions + [0]) == Deployed(positions)
  {
    if positions == [] {
      assert positions + [0] == [0] && [0][1..] == [];
    } else {
      assert (positions + [0])[1..] == positions[1..] + [0];
      DeployedAppend(positions[1..]);
    }
  }

  lemma {:induction false} DeployedUpdate(positions: seq<U64>, i: nat, amount: U64)
    requires i < |positions|
    ensures Deployed(positions[i := amount]) == Deployed(positions) - positions[i] + amount
  {
    if i == 0 {
      assert positions[0 := amount][1..] == positions[1..];
    } else {
      assert positions[i := amount][1..] == positions[1..][i - 1 := amount];
      DeployedUpdate(positions[1..], i - 1, amount);
    }
  }

  // ---- The books balance ----

  /**
   The counters agree with the requests, the escrow holds exactly what is owed from it, the total is
   what is in the reserve, at the venues or was withdrawn, and every asset that came in is in the
   escrow, in the reserve, at a venue, or was paid out.
   */
  ghost predicate Balanced(l: Ledger)
  {
    && l.pendingAsyncRequests == SumOf(l.requests, PendingOf)
    && l.pendingDepositAmount == SumOf(l.requests, PendingDepositOf)
    && l.pendingVault == SumOf(l.requests, EscrowOf)
    && l.totalAssetBalance == l.reserve + Deployed(l.positions) + l.flows.withdrawn
    && l.flows.paidIn
       == l.pendingVault + l.reserve + Deployed(l.positions)
          + l.flows.paidOut + l.flows.feeRecipient + l.flows.protocol + l.flows.withdrawn
  }

  /** All shares that exist or are owed. */
  function Committed(l: Ledger): nat
  {
    l.shareSupply + SumOf(l.requests, OwedSharesOf)
  }

  lemma SumsAppend(requests: seq<Request>, r: Request)
    ensures SumOf(requests + [r], PendingOf) == SumOf(requests, PendingOf) + PendingOf(r)
    ensures SumOf(requests + [r], PendingDepositOf) == SumOf(requests, PendingDepositOf) + PendingDepositOf(r)
    ensures SumOf(requests + [r], EscrowOf) == SumOf(requests, EscrowOf) + EscrowOf(r)
    ensures SumOf(requests + [r], OwedSharesOf) == SumOf(requests, OwedSharesOf) + OwedSharesOf(r)
  {
    SumAppend(requests, r, PendingOf);
    SumAppend(requests, r, PendingDepositOf);
    SumAppend(requests, r, EscrowOf);
    SumAppend(requests, r, OwedSharesOf);
  }

  lemma SumsUpdate(requests: seq<Request>, i: nat, r: Request)
    requires i < |requests|
    ensures SumOf(requests[i := r], PendingOf) == SumOf(requests, PendingOf) - PendingOf(requests[i]) + PendingOf(r)
    ensures SumOf(requests[i := r], PendingDepositOf)
         == SumOf(requests, PendingDepositOf) - PendingDepositOf(requests[i]) + PendingDepositOf(r)
    ensures SumOf(requests[i := r], EscrowOf) == SumOf(requests, EscrowOf) - EscrowOf(requests[i]) + EscrowOf(r)
    ensures SumOf(requests[i := r], OwedSharesOf)
         == SumOf(requests, OwedSharesOf) - OwedSharesOf(requests[i]) + OwedSharesOf(r)
    ensures PendingOf(requests[i]) <= SumOf(requests, PendingOf)
    ensures PendingDepositOf(requests[i]) <= SumOf(requests, PendingDepositOf)
    ensures EscrowOf(requests[i]) <= SumOf(requests, EscrowOf)
  {
    SumUpdate(requests, i, r, PendingOf);
    SumUpdate(requests, i, r, PendingDepositOf);
    SumUpdate(requests, i, r, EscrowOf);
    SumUpdate(requests, i, r, OwedSharesOf);
  }

  /** The asset value left over in the vault, per share committed, in units of 10^-decimals; negative if short. */
  function Margin(l: Ledger): int
  {
    l.totalAssetBalance * Pow10(l.decimals) - Committed(l) * l.nav
  }

  lemma CreateBalanced(l: Ledger, a: Action)
    requires a.CreateDepositAction? || a.CreateRedeemAction?
    requires Balanced(l) && Step(l, a).Ok?
    ensures Balanced(After(l, a)) && Margin(After(l, a)) == Margin(l)
  {
    hide SumOf, Pow10, Deployed;
    var r := After(l, a).requests[|l.requests|];
    assert After(l, a).requests == l.requests + [r];
    SumsAppend(l.requests, r);
  }

  lemma ApproveDepositBalanced(l: Ledger, i: nat)
    requires Balanced(l) && i < |l.requests| && l.requests[i].state == Pending && l.requests[i].kind == DepositRequest
    requires l.nav > 0 && ApproveDeposit(l, i).Ok?
    ensures var next := ApproveDeposit(l, i).value;
            Balanced(next) && Margin(next) >= Margin(l)
  {
    hide SumOf, Pow10, Deployed;
    var next := ApproveDeposit(l, i).value;
    SumsUpdate(l.requests, i, next.requests[i]);
    var terms := PriceDeposit(l.config, l.nav, l.decimals, l.requests[i].amount).value;
    var net, shares := terms.net, terms.shares;
    SharesValue(l.nav, l.decimals, net);
    MulSum(l.totalAssetBalance, net, Pow10(l.decimals));
    MulSum(Committed(l), shares, l.nav);
  }

  lemma ApproveRedeemBalanced(l: Ledger, i: nat, slot: U64)
    requires Balanced(l) && i < |l.requests| && l.requests[i].state == Pending && l.requests[i].kind == RedeemRequest
    requires ApproveRedeem(l, i, slot).Ok?
    ensures var next := ApproveRedeem(l, i, slot).value;
            Balanced(next) && Margin(next) >= Margin(l)
  {
    hide SumOf, Pow10, Deployed;
    var next := ApproveRedeem(l, i, slot).value;
    SumsUpdate(l.requests, i, next.requests[i]);
    var shares := l.requests[i].amount;
    var assets := Assets(l.nav, l.decimals, shares).value;
    AssetsValue(l.nav, l.decimals, shares);
    MulDifference(l.totalAssetBalance, assets, Pow10(l.decimals));
    MulDifference(Committed(l), shares, l.nav);
  }

  lemma RefundBalanced(l: Ledger, i: nat, state: RequestState)
    requires Balanced(l) && i < |l.requests| && l.requests[i].state == Pending
    requires state == Closed || state == Canceled
    requires Refund(l, i, state).Ok?
    ensures var next := Refund(l, i, state).value;
            Balanced(next) && Margin(next) == Margin(l)
  {
    hide SumOf, Deployed;
    var next := Refund(l, i, state).value;
    SumsUpdate(l.requests, i, next.requests[i]);
  }

  lemma SkipBalanced(l: Ledger, i: nat)
    requires Balanced(l) && SkipCanceledRequest(l, i).Ok?
    ensures var next := SkipCanceledRequest(l, i).value;
            Balanced(next) && Margin(next) == Margin(l)
  {
    hide SumOf, Pow10, Deployed, CheckAndAdvance;
    SumsUpdate(l.requests, i, SkipCanceledRequest(l, i).value.requests[i]);
  }

  lemma ClaimBalanced(l: Ledger, user: Address, i: nat)
    requires Balanced(l) && Claim(l, user, i).Ok?
    ensures var next := Claim(l, user, i).value;
            Balanced(next) && Margin(next) == Margin(l)
  {
    hide SumOf, Pow10, Deployed, Usable;
    SumsUpdate(l.requests, i, Claim(l, user, i).value.requests[i]);
  }

  lemma SetOperatorBalanced(l: Ledger, user: Address, appointed: Address, i: nat)
    requires Balanced(l) && SetOperator(l, user, appointed, i).Ok?
    ensures var next := SetOperator(l, user, appointed, i).value;
            Balanced(next) && Margin(next) == Margin(l)
  {
    hide SumOf, Pow10, Deployed;
    SumsUpdate(l.requests, i, SetOperator(l, user, appointed, i).value.requests[i]);
  }

  lemma InstantDepositBalanced(l: Ledger, amount: U64, slot: U64, wallet: U64)
    requires Balanced(l) && InstantDeposit(l, amount, slot, wallet).Ok?
    ensures var next := InstantDeposit(l, amount, slot, wallet).value;
            Balanced(next) && Margin(next) >= Margin(l)
  {
    hide SumOf, Pow10, Deployed;
    var terms := PriceDeposit(l.config, l.nav, l.decimals, amount).value;
    var net, shares := terms.net, terms.shares;
    SharesValue(l.nav, l.decimals, net);
    MulSum(l.totalAssetBalance, net, Pow10(l.decimals));
    MulSum(Committed(l), shares, l.nav);
  }

  lemma InstantRedeemBalanced(l: Ledger, shares: U64, slot: U64, wallet: U64)
    requires Balanced(l) && InstantRedeem(l, shares, slot, wallet).Ok?
    ensures var next := InstantRedeem(l, shares, slot, wallet).value;
            Balanced(next) && Margin(next) >= Margin(l)
  {
    hide SumOf, Pow10, Deployed;
    var assets := Assets(l.nav, l.decimals, shares).value;
    AssetsValue(l.nav, l.decimals, shares);
    MulDifference(l.totalAssetBalance, assets, Pow10(l.decimals));
    MulDifference(Committed(l), shares, l.nav);
  }

  lemma OperationBalanced(l: Ledger, a: Action)
    requires a.WithdrawAction? || a.UpdateNavAction? || a.ConfigureAction? || a.PauseAction? || a.AddQueueAction?
             || a.InitializeAction?
    requires Balanced(l) && Step(l, a).Ok?
    ensures Balanced(After(l, a)) && (!a.UpdateNavAction? ==> Margin(After(l, a)) == Margin(l))
  {
    hide SumOf, Pow10, Deployed;
  }

  lemma VenueBalanced(l: Ledger, a: Action)
    requires a.OpenPositionAction? || a.DeployAction? || a.PullAction?
    requires Balanced(l) && Step(l, a).Ok?
    ensures Balanced(After(l, a)) && Margin(After(l, a)) == Margin(l)
  {
    hide SumOf, Pow10, Deployed, ChargeManager, Usable;
    match a {
      case OpenPositionAction(_) => DeployedAppend(l.positions);
      case DeployAction(_, _, i, amount, _) => DeployedUpdate(l.positions, i, l.positions[i] + amount);
      case PullAction(_, _, i, amount, _) => DeployedUpdate(l.positions, i, l.positions[i] - amount);
    }
  }

  lemma QueueMoveBalanced(l: Ledger, kind: RequestType, q: Option<Queue>)
    requires Balanced(l)
    ensures Balanced(WithQueue(l, kind, q)) && Margin(WithQueue(l, kind, q)) == Margin(l)
  {
    hide SumOf, Pow10, Deployed;
  }

  lemma ApproveBalanced(l: Ledger, signer: Address, i: nat, slot: U64)
    requires Balanced(l) && ApproveRequest(l, signer, i, slot).Ok?
    ensures var next := ApproveRequest(l, signer, i, slot).value;
            Balanced(next) && Margin(next) >= Margin(l)
  {
    hide Balanced, Margin, ApproveDeposit, ApproveRedeem;
    var kind := l.requests[i].kind;
    var q :| CheckAndAdvance(QueueOf(l, kind), l.requests[i].queueId) == Ok(q)
             && Approvable(l, signer, i, slot).value == WithQueue(l, kind, q);
    QueueMoveBalanced(l, kind, q);
    if kind == DepositRequest {
      ApproveDepositBalanced(WithQueue(l, kind, q), i);
    } else {
      ApproveRedeemBalanced(WithQueue(l, kind, q), i, slot);
    }
  }

  lemma RejectBalanced(l: Ledger, signer: Address, i: nat)
    requires Balanced(l) && RejectRequest(l, signer, i).Ok?
    ensures var next := RejectRequest(l, signer, i).value;
            Balanced(next) && Margin(next) == Margin(l)
  {
    hide Balanced, Margin, Refund;
    var kind := l.requests[i].kind;
    var q := CheckAndAdvance(QueueOf(l, kind), l.requests[i].queueId).value;
    QueueMoveBalanced(l, kind, q);
    RefundBalanced(WithQueue(l, kind, q), i, Closed);
  }

  /**
   Every instruction keeps the books balanced, and none but a NAV update lowers the margin: at a
   fixed NAV the assets backing the committed shares never shrink relative to them.
   */
  lemma StepBalanced(l: Ledger, a: Action)
    requires Balanced(l)
    ensures Balanced(After(l, a))
    ensures !a.UpdateNavAction? ==> Margin(After(l, a)) >= Margin(l)
  {
    if Step(l, a).Ok? {
      hide Balanced, Margin, ApproveRequest, RejectRequest, Refund, SkipCanceledRequest, Claim, SetOperator, InstantDeposit,
        InstantRedeem, Deploy, Pull;
      match a {
        case CreateDepositAction(_, _, _, _) => CreateBalanced(l, a);
        case CreateRedeemAction(_, _, _, _) => CreateBalanced(l, a);
        case ApproveAction(signer, i, slot) => ApproveBalanced(l, signer, i, slot);
        case RejectAction(signer, i) => RejectBalanced(l, signer, i);
        case CancelAction(_, i) => RefundBalanced(l, i, Closed);
        case CancelQueuedAction(_, i) => RefundBalanced(l, i, Canceled);
        case SkipAction(i) => SkipBalanced(l, i);
        case ClaimAction(user, i) => ClaimBalanced(l, user, i);
        case SetOperatorAction(user, appointed, i) => SetOperatorBalanced(l, user, appointed, i);
        case InstantDepositAction(amount, slot, wallet) => InstantDepositBalanced(l, amount, slot, wallet);
        case InstantRedeemAction(amount, slot, wallet) => InstantRedeemBalanced(l, amount, slot, wallet);
        case WithdrawAction(_, _) => OperationBalanced(l, a);
        case UpdateNavAction(_, _, _) => OperationBalanced(l, a);
        case ConfigureAction(_, _, _) => OperationBalanced(l, a);
        case PauseAction(_) => OperationBalanced(l, a);
        case AddQueueAction(_, _) => OperationBalanced(l, a);
        case InitializeAction(_) => OperationBalanced(l, a);
        case OpenPositionAction(_) => VenueBalanced(l, a);
        case DeployAction(_, _, _, _, _) => VenueBalanced(l, a);
        case PullAction(_, _, _, _, _) => VenueBalanced(l, a);
      }
    }
  }

  lemma {:induction false} RunBalanced(l: Ledger, run: seq<Action>)
    requires Balanced(l)
    ensures Balanced(AfterAll(l, run))
    decreases |run|
  {
    if run != [] {
      StepBalanced(l, run[0]);
      RunBalanced(After(l, run[0]), run[1..]);
    }
  }

  /** So the books of a vault balance whatever has happened to it since it was created. */
  lemma ReachableBalanced(config: Config, decimals: U8, run: seq<Action>)
    ensures Balanced(AfterAll(Created(config, decimals), run))
  {
    RunBalanced(Created(config, decimals), run);
  }

  /** Over any run without a NAV update, whoever deposits, redeems, cancels, claims or withdraws: no dilution. */
  lemma {:induction false} NoDilution(l: Ledger, run: seq<Action>)
    requires Balanced(l) && forall k :: 0 <= k < |run| ==> !run[k].UpdateNavAction?
    ensures Margin(AfterAll(l, run)) >= Margin(l)
    decreases |run|
  {
    if run != [] {
      StepBalanced(l, run[0]);
      NoDilution(After(l, run[0]), run[1..]);
    }
  }

  // ---- Refunds and claims are always covered ----

  /**
   A pending deposit can always be taken back by its owner while the vault is usable: neither the
   escrow nor a counter can run short. A pending redemption can be taken back exactly when the share
   supply has room for the shares burned at its creation.
   */
  lemma RefundCovered(l: Ledger, i: nat)
    requires Balanced(l) && Usable(l).Ok? && i < |l.requests| && l.requests[i].state == Pending
    ensures var r := l.requests[i];
            var canceled := if r.queueId.None? then CancelRequest(l, r.owner, i) else CancelQueuedRequest(l, r.owner, i);
            canceled.Ok? <==> r.kind == DepositRequest || l.shareSupply + r.amount <= MAX_U64
  {
    hide SumOf, Deployed;
    SumsUpdate(l.requests, i, l.requests[i]);
  }

  /** A settled redemption is always paid from the escrow; a settled deposit is minted if the supply has room. */
  lemma ClaimCovered(l: Ledger, i: nat)
    requires Balanced(l) && Usable(l).Ok? && i < |l.requests| && l.requests[i].state == Claimable
    ensures Claim(l, l.requests[i].owner, i).Ok?
       <==> l.requests[i].kind == RedeemRequest || l.shareSupply + l.requests[i].amount <= MAX_U64
  {
    hide SumOf, Deployed;
    SumsUpdate(l.requests, i, l.requests[i]);
  }

  // ---- The deposit cap ----

  /** What is settled and what is pending together stay within the cap, where there is one. */
  predicate WithinCap(l: Ledger)
  {
    l.config.depositCap == 0 || l.totalAssetBalance + l.pendingDepositAmount <= l.config.depositCap
  }

  /** Settlement and refund move no total up, no price stamp and no configuration. */
  ghost predicate Settles(l: Ledger, next: Ledger)
  {
    && next.config == l.config && next.navVersion == l.navVersion && |next.requests| == |l.requests|
    && next.totalAssetBalance + next.pendingDepositAmount <= l.totalAssetBalance + l.pendingDepositAmount
    && forall i :: 0 <= i < |l.requests| ==> next.requests[i].navVersion == l.requests[i].navVersion
  }

  lemma ApproveSettles(l: Ledger, signer: Address, i: nat, slot: U64)
    requires ApproveRequest(l, signer, i, slot).Ok?
    ensures Settles(l, ApproveRequest(l, signer, i, slot).value)
  {
    hide DepositSettlement, RedeemSettlement, PriceDeposit, PriceRedeem, CheckAndAdvance, Usable, NavNotStale;
  }

  lemma RefundSettles(l: Ledger, i: nat, state: RequestState)
    requires i < |l.requests| && Refund(l, i, state).Ok?
    ensures Settles(l, Refund(l, i, state).value)
  {
    hide Refundable;
  }

  lemma SettlementSettles(l: Ledger, a: Action)
    requires a.ApproveAction? || a.RejectAction? || a.CancelAction? || a.CancelQueuedAction?
    ensures Settles(l, After(l, a))
  {
    hide ApproveRequest, Refund, CheckAndAdvance, Usable;
    if Step(l, a).Ok? {
      match a {
        case ApproveAction(signer, i, slot) => ApproveSettles(l, signer, i, slot);
        case RejectAction(_, i) =>
          var kind := l.requests[i].kind;
          RefundSettles(WithQueue(l, kind, CheckAndAdvance(QueueOf(l, kind), l.requests[i].queueId).value), i, Closed);
        case CancelAction(_, i) => RefundSettles(l, i, Closed);
        case CancelQueuedAction(_, i) => RefundSettles(l, i, Canceled);
      }
    }
  }

  /** Every instruction but a change of configuration keeps the vault within its cap. */
  lemma StepWithinCap(l: Ledger, a: Action)
    requires WithinCap(l) && !a.ConfigureAction?
    ensures WithinCap(After(l, a))
  {
    hide PriceDeposit, CheckAndAdvance, Usable, NavNotStale, ExtensionFee, InstantRedeemTerms, DeploymentAccepted, PullAccepted,
      ApproveRequest, RejectRequest, CancelRequest, CancelQueuedRequest;
    if a.ApproveAction? || a.RejectAction? || a.CancelAction? || a.CancelQueuedAction? {
      SettlementSettles(l, a);
    }
  }

  /**
   What the cap is for: from a vault within its cap, over any run that leaves the configuration alone,
   settled and pending deposits together never exceed it, however requests and instant deposits mix.
   */
  lemma {:induction false} RunWithinCap(l: Ledger, run: seq<Action>)
    requires WithinCap(l) && forall k :: 0 <= k < |run| ==> !run[k].ConfigureAction?
    ensures WithinCap(AfterAll(l, run))
    decreases |run|
  {
    if run != [] {
      StepWithinCap(l, run[0]);
      RunWithinCap(After(l, run[0]), run[1..]);
    }
  }

  // ---- Prices ----

  /** Whatever is settled, instantly or not, is settled at a NAV that is set and, where that is limited, recent. */
  lemma SettledAtRecentNav(l: Ledger, a: Action)
    requires (a.ApproveAction? || a.InstantDepositAction? || a.InstantRedeemAction?) && Step(l, a).Ok?
    ensures l.nav > 0
    ensures l.config.maxNavStalenessSlots != 0 ==>
              l.lastNavUpdateSlot <= a.slot <= l.lastNavUpdateSlot + l.config.maxNavStalenessSlots
  {
    hide ApproveDeposit, ApproveRedeem, PriceDeposit, CheckAndAdvance, Usable;
  }

  /** Request `i` was created at the NAV that still stands, and the vault asks for a newer one. */
  ghost predicate AwaitsNav(l: Ledger, i: nat)
  {
    i < |l.requests| && l.requests[i].navVersion == l.navVersion && l.config.requireFreshNav
  }

  lemma StepKeepsStamps(l: Ledger, a: Action, i: nat)
    requires AwaitsNav(l, i) && !a.UpdateNavAction? && !a.ConfigureAction?
    ensures AwaitsNav(After(l, a), i)
  {
    hide DepositAccepted, RedemptionAccepted, InstantDepositTerms, InstantRedeemTerms, CheckAndAdvance, Usable, NextQueueId, DeploymentAccepted,
      PullAccepted, ApproveRequest, RejectRequest, CancelRequest, CancelQueuedRequest;
    if a.ApproveAction? || a.RejectAction? || a.CancelAction? || a.CancelQueuedAction? {
      SettlementSettles(l, a);
    }
  }

  lemma {:induction false} RunKeepsStamps(l: Ledger, run: seq<Action>, i: nat)
    requires AwaitsNav(l, i) && forall k :: 0 <= k < |run| ==> !run[k].UpdateNavAction? && !run[k].ConfigureAction?
    ensures AwaitsNav(AfterAll(l, run), i)
    decreases |run|
  {
    if run != [] {
      StepKeepsStamps(l, run[0], i);
      RunKeepsStamps(After(l, run[0]), run[1..], i);
    }
  }

  lemma CreatedStamped(l: Ledger, create: Action)
    requires (create.CreateDepositAction? || create.CreateRedeemAction?) && Step(l, create).Ok? && l.config.requireFreshNav
    ensures AwaitsNav(After(l, create), |l.requests|)
  {
    hide DepositAccepted, RedemptionAccepted, NextQueueId;
  }

  lemma StampedRefused(l: Ledger, signer: Address, i: nat, slot: U64)
    requires AwaitsNav(l, i)
    ensures Step(l, ApproveAction(signer, i, slot)).Err?
  {
    hide ApproveDeposit, ApproveRedeem, CheckAndAdvance, NavNotStale, Usable;
  }

  /**
   Where fresh prices are required, nobody can trade on a known one: whatever else happens, a request
   cannot be settled before the NAV has been updated after its creation.
   */
  lemma NoSettlementAtKnownNav(l: Ledger, create: Action, run: seq<Action>, signer: Address, slot: U64)
    requires (create.CreateDepositAction? || create.CreateRedeemAction?) && Step(l, create).Ok?
    requires l.config.requireFreshNav
    requires forall k :: 0 <= k < |run| ==> !run[k].UpdateNavAction? && !run[k].ConfigureAction?
    ensures Step(AfterAll(After(l, create), run), ApproveAction(signer, |l.requests|, slot)).Err?
  {
    hide AfterAll, AwaitsNav, After, Step;
    CreatedStamped(l, create);
    RunKeepsStamps(After(l, create), run, |l.requests|);
    StampedRefused(AfterAll(After(l, create), run), signer, |l.requests|, slot);
  }
}

/** The rolling limits over runs of vault instructions: what leaves by redemption, what managers move. */
module VaultLimits {
  import opened Arithmetic
  import opened Bytes
  import opened RollingLimit
  import opened VaultLedger
  import opened VaultMath
  import opened Wrappers

  datatype Limited = Redemptions | ManagerMoves

  function WindowOf(l: Ledger, what: Limited): Window
  {
    if what == Redemptions then l.redemptionWindow else l.managerWindow
  }

  function LimitOf(c: Config, what: Limited): U64
  {
    if what == Redemptions then c.redemptionRollingLimit else c.managerRollingLimit
  }

  /** What an instruction moves, and when: for redemptions, whatever the vault's total drops by. */
  function MovedBy(l: Ledger, a: Action, what: Limited): (moved: seq<Charge>)
    ensures |moved| <= 1
  {
    match what
    case Redemptions =>
      var after := After(l, a).totalAssetBalance;
      if (a.ApproveAction? || a.InstantRedeemAction?) && after < l.totalAssetBalance
      then [Charge(a.slot, l.totalAssetBalance - after)] else []
    case ManagerMoves =>
      if (a.DeployAction? || a.PullAction?) && Step(l, a).Ok? then [Charge(a.slot, a.amount)] else []
  }

  function MovedOver(l: Ledger, run: seq<Action>, what: Limited): seq<Charge>
    decreases |run|
  {
    if run == [] then [] else MovedBy(l, run[0], what) + MovedOver(After(l, run[0]), run[1..], what)
  }

  /** The instructions that may move something come in the order of their slots. */
  ghost predicate TimeOrdered(run: seq<Action>, what: Limited)
  {
    forall i, j :: 0 <= i < j < |run| && MayMove(run[i], what) && MayMove(run[j], what) ==> run[i].slot <= run[j].slot
  }

  predicate MayMove(a: Action, what: Limited)
  {
    match what
    case Redemptions => a.ApproveAction? || a.InstantRedeemAction?
    case ManagerMoves => a.DeployAction? || a.PullAction?
  }

  // ---- One instruction ----

  /** The window after an instruction is the window before, charged with what was moved. */
  ghost predicate Charged(l: Ledger, next: Ledger, moved: seq<Charge>, what: Limited)
  {
    && next.config == l.config
    && (moved == [] ==> WindowOf(next, what) == WindowOf(l, what))
    && (moved != [] ==>
        Consume(WindowOf(l, what), moved[0].amount, moved[0].slot, LimitOf(l.config, what), l.config.rollingLimitWindowSlots)
        == Ok(WindowOf(next, what)))
  }

  /** A redemption is settled with fees that validate exactly if its shares convert and the limit has room. */
  lemma ValidatedRedeemPricedIff(c: Config, nav: U128, decimals: U8, w: Window, shares: U64, slot: U64)
    requires c.protocolFeeBps <= MAX_BPS
    requires c.withdrawalFee.Some? ==> c.withdrawalFee.value.Percentage? && Validate(c.withdrawalFee.value).Ok?
    ensures PriceRedeem(c, nav, decimals, w, shares, slot).Ok?
       <==> && CalculateAssets(nav, decimals, shares).Ok?
            && ChargeRedemption(w, c, CalculateAssets(nav, decimals, shares).value, slot).Ok?
    ensures PriceRedeem(c, nav, decimals, w, shares, slot).Ok? ==>
              var terms := PriceRedeem(c, nav, decimals, w, shares, slot).value;
              && CalculateAssets(nav, decimals, shares) == Ok(terms.gross)
              && terms.net + terms.protocolFee + terms.recipientFee == terms.gross
  {
    hide GetFee, SplitProtocolFee, CalculateAssets, Consume;
    var assets := CalculateAssets(nav, decimals, shares);
    if assets.Ok? {
      var fee: U64 := 0;
      if c.withdrawalFee.Some? {
        ValidatedFee(c.withdrawalFee.value.bps, assets.value);
        fee := GetFee(c.withdrawalFee.value, assets.value).value;
      }
      SplitConserves(fee, c.protocolFeeBps);
    }
  }

  lemma PriceRedeemCharges(c: Config, nav: U128, decimals: U8, w: Window, shares: U64, slot: U64)
    requires PriceRedeem(c, nav, decimals, w, shares, slot).Ok?
    ensures var terms := PriceRedeem(c, nav, decimals, w, shares, slot).value;
            terms.gross > 0 && Consume(w, terms.gross, slot, c.redemptionRollingLimit, c.rollingLimitWindowSlots) == Ok(terms.window)
  {
    hide GetFee, SplitProtocolFee, Consume;
    AssetsValue(nav, decimals, shares);
  }

  lemma ApproveCharged(l: Ledger, signer: Address, i: nat, slot: U64)
    requires ApproveRequest(l, signer, i, slot).Ok?
    ensures Charged(l, ApproveRequest(l, signer, i, slot).value, MovedBy(l, ApproveAction(signer, i, slot), Redemptions), Redemptions)
  {
    hide PriceDeposit, PriceRedeem, DepositSettlement, RedeemSettlement, Approvable, Consume;
    if l.requests[i].kind == RedeemRequest {
      PriceRedeemCharges(l.config, l.nav, l.decimals, l.redemptionWindow, l.requests[i].amount, slot);
    }
  }

  lemma InstantRedeemCharged(l: Ledger, a: Action)
    requires a.InstantRedeemAction? && Step(l, a).Ok?
    ensures Charged(l, After(l, a), MovedBy(l, a, Redemptions), Redemptions)
  {
    hide InstantFeeAndNet, Split, InstantAllowed, Consume;
    AssetsValue(l.nav, l.decimals, a.amount);
  }

  lemma VenueCharged(l: Ledger, a: Action)
    requires (a.DeployAction? || a.PullAction?) && Step(l, a).Ok?
    ensures Charged(l, After(l, a), MovedBy(l, a, ManagerMoves), ManagerMoves)
  {
    hide Usable, ManagerAuthorized, Consume;
  }

  lemma RefundChargesNothing(l: Ledger, a: Action, what: Limited)
    requires (a.RejectAction? || a.CancelAction? || a.CancelQueuedAction?) && Step(l, a).Ok?
    ensures Charged(l, After(l, a), [], what)
  {
    hide Consume, Refundable, CheckAndAdvance, Usable;
  }

  lemma OthersCharged(l: Ledger, a: Action, what: Limited)
    requires !MayMove(a, what) && !a.ConfigureAction? && Step(l, a).Ok?
    ensures Charged(l, After(l, a), [], what)
  {
    hide Consume, DepositAccepted, RedemptionAccepted, InstantDepositTerms, InstantRedeemTerms, CheckAndAdvance, NextQueueId, Usable,
      ApproveRequest, Deploy, Pull, InstantRedeem, RejectRequest, CancelRequest, CancelQueuedRequest;
    if a.RejectAction? || a.CancelAction? || a.CancelQueuedAction? {
      RefundChargesNothing(l, a, what);
    }
    match what {
      case Redemptions =>
        if a.DeployAction? || a.PullAction? {
          VenueKeepsRedemptions(l, a);
        }
      case ManagerMoves =>
        if a.ApproveAction? {
          ApproveKeepsManager(l, a.signer, a.i, a.slot);
        } else if a.InstantRedeemAction? {
          InstantRedeemKeepsManager(l, a);
        }
    }
  }

  lemma VenueKeepsRedemptions(l: Ledger, a: Action)
    requires (a.DeployAction? || a.PullAction?) && Step(l, a).Ok?
    ensures After(l, a).redemptionWindow == l.redemptionWindow && After(l, a).config == l.config
  {
    hide DeploymentAccepted, PullAccepted;
  }

  lemma ApproveKeepsManager(l: Ledger, signer: Address, i: nat, slot: U64)
    requires ApproveRequest(l, signer, i, slot).Ok?
    ensures var next := ApproveRequest(l, signer, i, slot).value;
            next.managerWindow == l.managerWindow && next.config == l.config
  {
    hide DepositSettlement, RedeemSettlement, Approvable;
  }

  lemma InstantRedeemKeepsManager(l: Ledger, a: Action)
    requires a.InstantRedeemAction? && Step(l, a).Ok?
    ensures After(l, a).managerWindow == l.managerWindow && After(l, a).config == l.config
  {
    hide InstantRedeemTerms;
  }

  lemma StepCharged(l: Ledger, a: Action, what: Limited)
    requires !a.ConfigureAction?
    ensures Charged(l, After(l, a), MovedBy(l, a, what), what)
  {
    hide Charged, Consume, ApproveRequest, InstantRedeem, Deploy, Pull, DepositAccepted, InstantDepositTerms;
    if Step(l, a).Err? {
      NothingCharged(l, what);
    } else if !MayMove(a, what) {
      OthersCharged(l, a, what);
    } else {
      match a {
        case ApproveAction(signer, i, slot) => ApproveCharged(l, signer, i, slot);
        case InstantRedeemAction(_, _, _) => InstantRedeemCharged(l, a);
        case DeployAction(_, _, _, _, _) => VenueCharged(l, a);
        case PullAction(_, _, _, _, _) => VenueCharged(l, a);
      }
    }
  }

  lemma NothingCharged(l: Ledger, what: Limited)
    ensures Charged(l, l, [], what)
  {
  }

  lemma MovedWhen(l: Ledger, a: Action, what: Limited)
    ensures MovedBy(l, a, what) != [] ==> MayMove(a, what) && MovedBy(l, a, what)[0].slot == a.slot
    ensures MovedBy(l, a, Redemptions) != [] ==> MovedBy(l, a, Redemptions)[0].amount > 0
  {
    hide After, Step;
  }

  // ---- Runs ----

  /** The bounds of a run so far: what was moved, and that nothing later comes before it. */
  ghost predicate InBounds(l: Ledger, done: seq<Charge>, run: seq<Action>, what: Limited)
  {
    var limit, windowSlots := LimitOf(l.config, what), l.config.rollingLimitWindowSlots;
    var opening := LeastOpening(limit, windowSlots, what == Redemptions);
    && limit > 0 && windowSlots > 0
    && Bounded(WindowOf(l, what), done, limit, windowSlots, opening)
    && Opening(WindowOf(l, what), done, windowSlots, opening)
    && TimeOrdered(run, what)
    && forall k :: 0 <= k < |run| && MayMove(run[k], what) ==>
         WindowOf(l, what).start <= run[k].slot && forall i :: 0 <= i < |done| ==> done[i].slot <= run[k].slot
  }

  lemma StepInBounds(l: Ledger, done: seq<Charge>, run: seq<Action>, what: Limited)
    requires InBounds(l, done, run, what) && run != [] && !run[0].ConfigureAction?
    ensures InBounds(After(l, run[0]), done + MovedBy(l, run[0], what), run[1..], what)
  {
    hide Bounded, Opening, After, MovedBy, Consume;
    var a, moved := run[0], MovedBy(l, run[0], what);
    StepCharged(l, a, what);
    MovedWhen(l, a, what);
    if moved == [] {
      assert done + moved == done;
    } else {
      var limit, windowSlots := LimitOf(l.config, what), l.config.rollingLimitWindowSlots;
      assert moved == [moved[0]];
      ConsumeBounded(WindowOf(l, what), done, moved[0], limit, windowSlots,
                     LeastOpening(limit, windowSlots, what == Redemptions));
    }
  }

  lemma {:induction false} RunInBounds(l: Ledger, done: seq<Charge>, run: seq<Action>, what: Limited, from: int)
    requires InBounds(l, done, run, what) && forall k :: 0 <= k < |run| ==> !run[k].ConfigureAction?
    ensures SpanSpent(done + MovedOver(l, run, what), from, l.config.rollingLimitWindowSlots)
         <= SharpBound(LimitOf(l.config, what), l.config.rollingLimitWindowSlots, what == Redemptions)
    decreases |run|
  {
    hide Bounded, Opening, After, MovedBy, Spent;
    var limit, windowSlots := LimitOf(l.config, what), l.config.rollingLimitWindowSlots;
    if run == [] {
      assert done + [] == done;
      BoundedSpans(WindowOf(l, what), done, limit, windowSlots, LeastOpening(limit, windowSlots, what == Redemptions));
    } else {
      var next, moved := After(l, run[0]), MovedBy(l, run[0], what);
      StepInBounds(l, done, run, what);
      StepCharged(l, run[0], what);
      RunInBounds(next, done + moved, run[1..], what, from);
      assert done + (moved + MovedOver(next, run[1..], what)) == (done + moved) + MovedOver(next, run[1..], what);
    }
  }

  /** Without a window length nothing limited can move at all. */
  lemma {:induction false} NothingMovesWithoutWindow(l: Ledger, run: seq<Action>, what: Limited)
    requires LimitOf(l.config, what) > 0 && l.config.rollingLimitWindowSlots == 0
    requires forall k :: 0 <= k < |run| ==> !run[k].ConfigureAction?
    ensures MovedOver(l, run, what) == []
    decreases |run|
  {
    hide After, MovedBy;
    if run != [] {
      StepCharged(l, run[0], what);
      NothingMovesWithoutWindow(After(l, run[0]), run[1..], what);
    }
  }

  /**
   Over any run from a vault's creation that leaves its configuration alone, any span of one window's
   length sees redemptions of at most twice the limit less one (gross of fees), and deployments and
   pulls of at most twice the limit; just the limit if windows are one slot long. Both are attained by
   charges alone (see `SharpBoundIsLeast`).
   */
  lemma MovesWithinBound(config: Config, decimals: U8, run: seq<Action>, what: Limited, from: int)
    requires LimitOf(config, what) > 0 && TimeOrdered(run, what)
    requires forall k :: 0 <= k < |run| ==> !run[k].ConfigureAction?
    ensures SpanSpent(MovedOver(Created(config, decimals), run, what), from, config.rollingLimitWindowSlots)
         <= SharpBound(LimitOf(config, what), config.rollingLimitWindowSlots, what == Redemptions)
  {
    hide MovedOver;
    var start := Created(config, decimals);
    if config.rollingLimitWindowSlots == 0 {
      NothingMovesWithoutWindow(start, run, what);
    } else {
      RunInBounds(start, [], run, what, from);
      assert [] + MovedOver(start, run, what) == MovedOver(start, run, what);
    }
  }
}

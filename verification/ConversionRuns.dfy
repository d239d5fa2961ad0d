/** What runs of conversions, fees and redemptions add up to. */
module ConversionRuns {
  import opened Arithmetic
  import opened Wrappers
  import opened VaultMath

  // ---- One holder converting back and forth at a fixed NAV ----

  datatype Conversion = Deposit(amount: U64) | Redeem(shares: U64)

  datatype Holdings = Holdings(assets: nat, shares: nat)

  /** One conversion; one that fails or is not covered by the holdings changes nothing. */
  function Convert(nav: U128, decimals: U8, h: Holdings, c: Conversion): Holdings
  {
    match c
    case Deposit(amount) =>
      var shares := CalculateShares(nav, decimals, amount);
      if amount <= h.assets && shares.Ok? then Holdings(h.assets - amount, h.shares + shares.value) else h
    case Redeem(shares) =>
      var assets := CalculateAssets(nav, decimals, shares);
      if shares <= h.shares && assets.Ok? then Holdings(h.assets + assets.value, h.shares - shares) else h
  }

  function ConvertAll(nav: U128, decimals: U8, h: Holdings, run: seq<Conversion>): Holdings
    decreases |run|
  {
    if run == [] then h else ConvertAll(nav, decimals, Convert(nav, decimals, h, run[0]), run[1..])
  }

  /** Holdings valued at the NAV, in units of 10^-decimals of an asset. */
  function Worth(nav: U128, decimals: U8, h: Holdings): nat
  {
    h.assets * Pow10(decimals) + h.shares * nav
  }

  /** One conversion creates nothing and rounds away less than one unit of what it converts into. */
  lemma ConvertBounds(nav: U128, decimals: U8, h: Holdings, c: Conversion)
    requires nav > 0
    ensures var loss := Worth(nav, decimals, h) - Worth(nav, decimals, Convert(nav, decimals, h, c));
            0 <= loss <= (if c.Deposit? then nav else Pow10(decimals)) - 1
  {
    match c {
      case Deposit(amount) =>
        var shares := CalculateShares(nav, decimals, amount);
        if amount <= h.assets && shares.Ok? {
          SharesValue(nav, decimals, amount);
          MulDifference(h.assets, amount, Pow10(decimals));
          MulSum(h.shares, shares.value, nav);
        }
      case Redeem(shares) =>
        var assets := CalculateAssets(nav, decimals, shares);
        if shares <= h.shares && assets.Ok? {
          AssetsValue(nav, decimals, shares);
          MulSum(h.assets, assets.value, Pow10(decimals));
          MulDifference(h.shares, shares, nav);
        }
    }
  }

  /**
   No run of conversions creates value: whatever is interleaved, the holdings' worth never rises, and
   k conversions lose at most k * (max(nav, 10^d) - 1) of it.
   */
  lemma {:induction false} NoValueCreated(nav: U128, decimals: U8, h: Holdings, run: seq<Conversion>)
    requires nav > 0
    ensures var loss := Worth(nav, decimals, h) - Worth(nav, decimals, ConvertAll(nav, decimals, h, run));
            0 <= loss <= |run| * (Max(nav, Pow10(decimals)) - 1)
    decreases |run|
  {
    if run != [] {
      ConvertBounds(nav, decimals, h, run[0]);
      NoValueCreated(nav, decimals, Convert(nav, decimals, h, run[0]), run[1..]);
      MulDifference(|run|, 1, Max(nav, Pow10(decimals)) - 1);
    }
  }

  /** Hence nobody ends a run with more assets and no fewer shares than at its start, nor the other way round. */
  lemma NoFreeAssets(nav: U128, decimals: U8, h: Holdings, run: seq<Conversion>)
    requires nav > 0
    ensures var end := ConvertAll(nav, decimals, h, run);
            && (end.shares >= h.shares ==> end.assets <= h.assets)
            && (end.assets >= h.assets ==> end.shares <= h.shares)
  {
    var end := ConvertAll(nav, decimals, h, run);
    NoValueCreated(nav, decimals, h, run);
    if end.shares >= h.shares {
      MulMonotone(h.shares, end.shares, nav);
      MulLessNext(end.assets, h.assets, Pow10(decimals));
    }
    if end.assets >= h.assets {
      MulMonotone(h.assets, end.assets, Pow10(decimals));
      MulLessNext(end.shares, h.shares, nav);
    }
  }

  // ---- Splitting one conversion into many ----

  function SharesOfAll(nav: U128, decimals: U8, amounts: seq<U64>): nat
  {
    if amounts == [] then 0
    else
      var first := CalculateShares(nav, decimals, amounts[0]);
      (if first.Ok? then first.value else 0) + SharesOfAll(nav, decimals, amounts[1..])
  }

  function AssetsOfAll(nav: U128, decimals: U8, shares: seq<U64>): nat
  {
    if shares == [] then 0
    else
      var first := CalculateAssets(nav, decimals, shares[0]);
      (if first.Ok? then first.value else 0) + AssetsOfAll(nav, decimals, shares[1..])
  }

  function Total(amounts: seq<U64>): nat
  {
    if amounts == [] then 0 else amounts[0] + Total(amounts[1..])
  }

  /** A smaller amount converts whenever a larger one does. */
  lemma SharesDownward(nav: U128, decimals: U8, small: U64, large: U64)
    requires small <= large && CalculateShares(nav, decimals, large).Ok?
    ensures CalculateShares(nav, decimals, small).Ok?
  {
    SharesDomain(nav, decimals, large);
    SharesDomain(nav, decimals, small);
    MulMonotone(small, large, Pow10(decimals));
  }

  lemma SharesOfSum(nav: U128, decimals: U8, a: U64, b: U64)
    requires a + b <= MAX_U64
    requires CalculateShares(nav, decimals, a).Ok? && CalculateShares(nav, decimals, b).Ok?
    requires CalculateShares(nav, decimals, a + b).Ok?
    ensures var parts := CalculateShares(nav, decimals, a).value + CalculateShares(nav, decimals, b).value;
            parts <= CalculateShares(nav, decimals, a + b).value <= parts + 1
  {
    MulSum(a, b, Pow10(decimals));
    DivSum(a * Pow10(decimals), b * Pow10(decimals), nav);
  }

  /**
   Splitting a deposit never helps: if the whole converts then so does every piece, and n pieces
   together give at most the shares of the whole and at least n - 1 fewer.
   */
  lemma {:induction false} SplittingDeposits(nav: U128, decimals: U8, amounts: seq<U64>, total: U64)
    requires amounts != [] && total == Total(amounts) && CalculateShares(nav, decimals, total).Ok?
    ensures forall i :: 0 <= i < |amounts| ==> CalculateShares(nav, decimals, amounts[i]).Ok?
    ensures var whole := CalculateShares(nav, decimals, total).value;
            whole - (|amounts| - 1) <= SharesOfAll(nav, decimals, amounts) <= whole
  {
    SharesDownward(nav, decimals, amounts[0], total);
    if |amounts| == 1 {
      assert Total(amounts[1..]) == 0;
    } else {
      var rest := total - amounts[0];
      SharesDownward(nav, decimals, rest, total);
      SplittingDeposits(nav, decimals, amounts[1..], rest);
      SharesOfSum(nav, decimals, amounts[0], rest);
    }
  }

  /** Splitting a redemption never helps either: the pieces' assets are at most the assets of the whole. */
  lemma SplittingRedemptions(nav: U128, decimals: U8, pieces: seq<U64>, total: U64)
    requires total == Total(pieces) && CalculateAssets(nav, decimals, total).Ok?
    requires forall i :: 0 <= i < |pieces| ==> CalculateAssets(nav, decimals, pieces[i]).Ok?
    ensures AssetsOfAll(nav, decimals, pieces) <= CalculateAssets(nav, decimals, total).value
  {
    AssetsOfAllBound(nav, decimals, pieces);
    var whole: int := CalculateAssets(nav, decimals, total).value;
    AssetsValue(nav, decimals, total);
    MulSum(whole, 1, Pow10(decimals));
    MulCancelLess(AssetsOfAll(nav, decimals, pieces), whole + 1, Pow10(decimals));
  }

  lemma {:induction false} AssetsOfAllBound(nav: U128, decimals: U8, pieces: seq<U64>)
    ensures AssetsOfAll(nav, decimals, pieces) * Pow10(decimals) <= Total(pieces) * nav
  {
    if pieces != [] {
      AssetsOfAllBound(nav, decimals, pieces[1..]);
      var first := CalculateAssets(nav, decimals, pieces[0]);
      MulSum(pieces[0], Total(pieces[1..]), nav);
      MulMonotone(0, pieces[0], nav);
      if first.Ok? {
        AssetsValue(nav, decimals, pieces[0]);
        MulSum(first.value, AssetsOfAll(nav, decimals, pieces[1..]), Pow10(decimals));
      }
    }
  }

  // ---- Runs of fees ----

  function FeesOfAll(bps: U16, amounts: seq<U64>): nat
    requires bps <= MAX_BPS
  {
    if amounts == [] then 0
    else
      ValidatedFee(bps, amounts[0]);
      GetFee(Percentage(bps), amounts[0]).value + FeesOfAll(bps, amounts[1..])
  }

  /** Charging a percentage on n pieces costs at least the fee on the whole and at most n - 1 more. */
  lemma {:induction false} FeesOnPieces(bps: U16, amounts: seq<U64>)
    requires bps <= MAX_BPS && amounts != []
    ensures var whole := CeilDiv(Total(amounts) * bps, 10_000);
            whole <= FeesOfAll(bps, amounts) <= whole + |amounts| - 1
  {
    hide GetFee, CeilDiv;
    if |amounts| == 1 {
      FirstFee(bps, amounts);
      assert FeesOfAll(bps, amounts[1..]) == 0 && Total(amounts) == amounts[0];
    } else {
      FeesOnPieces(bps, amounts[1..]);
      FirstFee(bps, amounts);
      CeilDivSum(amounts[0] * bps, Total(amounts[1..]) * bps, 10_000);
      MulSum(amounts[0], Total(amounts[1..]), bps);
    }
  }

  lemma FirstFee(bps: U16, amounts: seq<U64>)
    requires bps <= MAX_BPS && amounts != []
    ensures FeesOfAll(bps, amounts) == CeilDiv(amounts[0] * bps, 10_000) + FeesOfAll(bps, amounts[1..])
  {
    ValidatedFee(bps, amounts[0]);
    FeeIsCeiling(bps, amounts[0]);
  }

  function ProtocolOfAll(bps: U16, fees: seq<U64>): nat
    requires bps <= MAX_BPS
  {
    if fees == [] then 0
    else
      SplitConserves(fees[0], bps);
      SplitProtocolFee(fees[0], bps).value.0 + ProtocolOfAll(bps, fees[1..])
  }

  /** Over n splits the protocol is ahead of its exact share by less than one unit per split, and never behind. */
  lemma {:induction false} SplitsOverRuns(bps: U16, fees: seq<U64>)
    requires bps <= MAX_BPS
    ensures 0 <= 10_000 * ProtocolOfAll(bps, fees) - Total(fees) * bps <= 9_999 * |fees|
  {
    if fees != [] {
      SplitConserves(fees[0], bps);
      SplitsOverRuns(bps, fees[1..]);
      MulSum(fees[0], Total(fees[1..]), bps);
    }
  }

  // ---- Runs of redemptions ----

  datatype Payout = Payout(user: U64, recipient: U64, protocol: U64)

  /** What a redemption of shares pays to the user, the fee recipient and the protocol. */
  function PayOut(nav: U128, decimals: U8, feeBps: U16, protocolBps: U16, shares: U64): Result<Payout, MathError>
  {
    var gross :- CalculateAssets(nav, decimals, shares);
    var fee :- GetFee(Percentage(feeBps), gross);
    if fee > gross then Err(ArithmeticError)
    else
      var (protocol, recipient) :- SplitProtocolFee(fee, protocolBps);
      Ok(Payout(gross - fee, recipient, protocol))
  }

  function PaidForAll(nav: U128, decimals: U8, feeBps: U16, protocolBps: U16, burned: seq<U64>): nat
  {
    if burned == [] then 0
    else
      (match PayOut(nav, decimals, feeBps, protocolBps, burned[0])
       case Err(_) => 0
       case Ok(p) => p.user + p.recipient + p.protocol)
      + PaidForAll(nav, decimals, feeBps, protocolBps, burned[1..])
  }

  lemma PayOutBounds(nav: U128, decimals: U8, feeBps: U16, protocolBps: U16, shares: U64)
    requires feeBps <= MAX_BPS && protocolBps <= MAX_BPS
    ensures var r := PayOut(nav, decimals, feeBps, protocolBps, shares);
            && (r.Ok? <==> CalculateAssets(nav, decimals, shares).Ok?)
            && (r.Ok? ==> var paid := r.value.user + r.value.recipient + r.value.protocol;
                          && CalculateAssets(nav, decimals, shares) == Ok(paid)
                          && 0 <= shares * nav - paid * Pow10(decimals) < Pow10(decimals))
  {
    hide GetFee, SplitProtocolFee;
    var assets := CalculateAssets(nav, decimals, shares);
    if assets.Ok? {
      AssetsValue(nav, decimals, shares);
      ValidatedFee(feeBps, assets.value);
      SplitConserves(GetFee(Percentage(feeBps), assets.value).value, protocolBps);
    }
  }

  /**
   Over any run of redemptions with percentage fees, user, fee recipient and protocol together get
   the gross assets of the shares burned: never more than their value, and less by under one unit each.
   */
  lemma {:induction false} RedemptionsConserve(nav: U128, decimals: U8, feeBps: U16, protocolBps: U16, burned: seq<U64>)
    requires feeBps <= MAX_BPS && protocolBps <= MAX_BPS
    requires forall i :: 0 <= i < |burned| ==> CalculateAssets(nav, decimals, burned[i]).Ok?
    ensures var paid := PaidForAll(nav, decimals, feeBps, protocolBps, burned);
            && paid == AssetsOfAll(nav, decimals, burned)
            && 0 <= Total(burned) * nav - paid * Pow10(decimals) <= |burned| * (Pow10(decimals) - 1)
  {
    hide PayOut, CalculateAssets;
    if burned != [] {
      var first := PayOut(nav, decimals, feeBps, protocolBps, burned[0]);
      PayOutBounds(nav, decimals, feeBps, protocolBps, burned[0]);
      RedemptionsConserve(nav, decimals, feeBps, protocolBps, burned[1..]);
      var paid := first.value.user + first.value.recipient + first.value.protocol;
      MulSum(burned[0], Total(burned[1..]), nav);
      MulSum(paid, PaidForAll(nav, decimals, feeBps, protocolBps, burned[1..]), Pow10(decimals));
      MulDifference(|burned|, 1, Pow10(decimals) - 1);
    }
  }
}

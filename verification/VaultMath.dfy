/** Share, asset and fee arithmetic: checked u64 / u128 computations, floors on conversions, ceilings on fees. */
module VaultMath {
  import opened Arithmetic
  import opened Wrappers

  datatype MathError = ArithmeticError | FeeBpsLimitReached

  const MAX_BPS: U16 := 10_000

  // ---- Checked steps ----

  function CheckedPow10(decimals: U8): Option<U128>
  {
    if Pow10(decimals) <= MAX_U128 then Some(Pow10(decimals)) else None
  }

  function CheckedMul(a: U128, b: U128): Option<U128>
  {
    if 0 <= a * b <= MAX_U128 then Some(a * b) else None
  }

  function CheckedDiv(a: U128, b: U128): Option<U128>
  {
    if b == 0 then None
    else
      QuotientInRange(a, b);
      Some(a / b)
  }

  lemma QuotientInRange(a: nat, b: nat)
    requires b > 0
    ensures 0 <= a / b <= a
  {
    DivBounds(a, b);
    var q := a / b;
    if q < 0 {
      MulMonotone(q, -1, b);
    } else {
      MulMonotone(1, b, q);
    }
  }

  function ToU64(n: U128): Result<U64, MathError>
  {
    if n <= MAX_U64 then Ok(n) else Err(ArithmeticError)
  }

  // ---- Conversions ----

  /** Assets to shares, floored. */
  function CalculateShares(nav: U128, decimals: U8, netAmount: U64): Result<U64, MathError>
  {
    match CheckedPow10(decimals)
    case None => Err(ArithmeticError)
    case Some(precision) =>
      match CheckedMul(netAmount, precision)
      case None => Err(ArithmeticError)
      case Some(scaled) =>
        match CheckedDiv(scaled, nav)
        case None => Err(ArithmeticError)
        case Some(shares) => ToU64(shares)
  }

  /** Shares to assets, floored; a result of zero is an error. */
  function CalculateAssets(nav: U128, decimals: U8, shareAmount: U64): Result<U64, MathError>
  {
    match CheckedPow10(decimals)
    case None => Err(ArithmeticError)
    case Some(precision) =>
      match CheckedMul(shareAmount, nav)
      case None => Err(ArithmeticError)
      case Some(scaled) =>
        match CheckedDiv(scaled, precision)
        case None => Err(ArithmeticError)
        case Some(assets) => if assets == 0 then Err(ArithmeticError) else ToU64(assets)
  }

  /** The value of shares at a NAV, and of assets, in units of 10^-decimals: what conversions cannot raise. */
  lemma SharesValue(nav: U128, decimals: U8, amount: U64)
    requires CalculateShares(nav, decimals, amount).Ok?
    ensures nav > 0
    ensures var shares := CalculateShares(nav, decimals, amount).value;
            shares * nav <= amount * Pow10(decimals) < shares * nav + nav
  {
    DivBounds(amount * Pow10(decimals), nav);
  }

  lemma AssetsValue(nav: U128, decimals: U8, shares: U64)
    requires CalculateAssets(nav, decimals, shares).Ok?
    ensures nav > 0 && shares > 0
    ensures var assets := CalculateAssets(nav, decimals, shares).value;
            && assets > 0
            && assets * Pow10(decimals) <= shares * nav < assets * Pow10(decimals) + Pow10(decimals)
  {
    DivBounds(shares * nav, Pow10(decimals));
  }

  /** Converting to shares succeeds exactly when the NAV is set and neither the product nor the quotient overflows. */
  lemma SharesDomain(nav: U128, decimals: U8, amount: U64)
    ensures CalculateShares(nav, decimals, amount).Ok?
       <==> && nav > 0
            && Pow10(decimals) <= MAX_U128
            && amount * Pow10(decimals) <= MAX_U128
            && amount * Pow10(decimals) < (MAX_U64 + 1) * nav
  {
    if nav > 0 {
      DivLess(amount * Pow10(decimals), nav, MAX_U64 + 1);
    }
  }

  lemma AssetsDomain(nav: U128, decimals: U8, shares: U64)
    ensures CalculateAssets(nav, decimals, shares).Ok?
       <==> && Pow10(decimals) <= MAX_U128
            && shares * nav <= MAX_U128
            && Pow10(decimals) <= shares * nav < (MAX_U64 + 1) * Pow10(decimals)
  {
    DivLess(shares * nav, Pow10(decimals), MAX_U64 + 1);
    DivLess(shares * nav, Pow10(decimals), 1);
  }

  lemma Pow10Values()
    ensures Pow10(19) == 10_000_000_000_000_000_000
    ensures Pow10(20) == 100_000_000_000_000_000_000
    ensures Pow10(39) > MAX_U128
  {
    assert Pow10(5) == 100_000;
    assert Pow10(10) == 10_000_000_000 by { Pow10Sum(5, 5); }
    assert Pow10(9) == 1_000_000_000 by { Pow10Sum(5, 4); assert Pow10(4) == 10_000; }
    Pow10Sum(10, 9);
    Pow10Sum(10, 10);
    Pow10Sum(20, 19);
  }

  /** Up to 19 decimals no amount overflows before the division; at 20 the largest does; from 39 everything fails. */
  lemma DecimalsThreshold(nav: U128, decimals: U8, amount: U64)
    requires nav > 0
    ensures decimals <= 19 ==>
              (CalculateShares(nav, decimals, amount).Ok? <==> amount * Pow10(decimals) < (MAX_U64 + 1) * nav)
    ensures decimals == 20 ==> CalculateShares(nav, decimals, MAX_U64).Err?
    ensures decimals >= 39 ==> CalculateShares(nav, decimals, amount).Err? && CalculateAssets(nav, decimals, amount).Err?
  {
    Pow10Values();
    SharesDomain(nav, decimals, amount);
    SharesDomain(nav, decimals, MAX_U64);
    AssetsDomain(nav, decimals, amount);
    if decimals <= 19 {
      Pow10Monotone(decimals, 19);
      MulMonotone(Pow10(decimals), Pow10(19), amount);
      MulMonotone(amount, MAX_U64, Pow10(19));
    }
    if decimals >= 39 {
      Pow10Monotone(39, decimals);
    }
  }

  /**
   Assets to shares and back, at any NAV and decimals: never more than was put in, and at most
   ceil((nav - 1) / 10^d) less. The way back never overflows; it fails only on a zero result.
   */
  lemma AssetRoundTrip(nav: U128, decimals: U8, amount: U64)
    requires CalculateShares(nav, decimals, amount).Ok?
    ensures var shares := CalculateShares(nav, decimals, amount).value;
            var back := CalculateAssets(nav, decimals, shares);
            && (back.Err? <==> shares * nav < Pow10(decimals))
            && amount - CeilDiv(nav - 1, Pow10(decimals)) <= (if back.Ok? then back.value else 0) <= amount
  {
    var p := Pow10(decimals);
    var shares := CalculateShares(nav, decimals, amount).value;
    SharesValue(nav, decimals, amount);
    AssetsDomain(nav, decimals, shares);
    MulMonotone(amount, MAX_U64, p);
    assert (MAX_U64 + 1) * p == MAX_U64 * p + p;
    FloorRoundTrip(amount, p, nav);
    DivLess(shares * nav, p, 1);
    QuotientInRange(shares * nav, p);
  }

  /**
   Shares to assets and back: never more shares than before, at most ceil((10^d - 1) / nav) fewer,
   and the way back always succeeds.
   */
  lemma ShareRoundTrip(nav: U128, decimals: U8, shares: U64)
    requires CalculateAssets(nav, decimals, shares).Ok?
    ensures var assets := CalculateAssets(nav, decimals, shares).value;
            && nav > 0
            && CalculateShares(nav, decimals, assets).Ok?
            && shares - CeilDiv(Pow10(decimals) - 1, nav) <= CalculateShares(nav, decimals, assets).value <= shares
  {
    var p := Pow10(decimals);
    var assets := CalculateAssets(nav, decimals, shares).value;
    AssetsValue(nav, decimals, shares);
    SharesDomain(nav, decimals, assets);
    MulMonotone(shares, MAX_U64, nav);
    assert (MAX_U64 + 1) * nav == MAX_U64 * nav + nav;
    FloorRoundTrip(shares, nav, p);
  }

  // ---- Fees ----

  datatype FeeType = FixedAmount(amount: U64) | Percentage(bps: U16)

  function Validate(fee: FeeType): Result<(), MathError>
  {
    if fee.Percentage? && fee.bps > MAX_BPS then Err(FeeBpsLimitReached) else Ok(())
  }

  /** The fee on a fee-inclusive total; percentages are rounded up. */
  function GetFee(fee: FeeType, totalAmount: U64): Result<U64, MathError>
  {
    match fee
    case FixedAmount(amount) => Ok(amount)
    case Percentage(bps) =>
      match CheckedMul(totalAmount, bps)
      case None => Err(ArithmeticError)
      case Some(scaled) =>
        if scaled + 9_999 > MAX_U128 then Err(ArithmeticError)
        else ToU64((scaled + 9_999) / 10_000)
  }

  /** The protocol's and the fee recipient's part of a fee. */
  function SplitProtocolFee(totalFee: U64, protocolFeeBps: U16): Result<(U64, U64), MathError>
  {
    if totalFee == 0 || protocolFeeBps == 0 then Ok((0, totalFee))
    else
      match GetFee(Percentage(protocolFeeBps), totalFee)
      case Err(e) => Err(e)
      case Ok(protocolFee) =>
        if protocolFee > totalFee then Err(ArithmeticError) else Ok((protocolFee, totalFee - protocolFee))
  }

  lemma ScaledFits(total: U64, bps: U16)
    ensures 0 <= total * bps <= MAX_U64 * 0xffff && total * bps + 9_999 <= MAX_U128
  {
    MulMonotone(0, total, bps);
    MulMonotone(total, MAX_U64, bps);
    MulMonotone(bps, 0xffff, MAX_U64);
  }

  /** A percentage fee is the least whole amount that is at least bps / 10000 of the total. */
  lemma FeeIsCeiling(bps: U16, total: U64)
    ensures GetFee(Percentage(bps), total).Ok? <==> total * bps <= MAX_U64 * 10_000
    ensures GetFee(Percentage(bps), total).Ok? ==> GetFee(Percentage(bps), total).value == CeilDiv(total * bps, 10_000)
  {
    ScaledFits(total, bps);
    CeilDivBounds(total * bps, 10_000);
  }

  /**
   A validated percentage never fails and never takes more than the whole: nothing at 0 bps, all at
   10000. Without validation the fee exceeds a non-zero total exactly when it can.
   */
  lemma ValidatedFee(bps: U16, total: U64)
    ensures Validate(Percentage(bps)).Ok? || total == 0
       <==> GetFee(Percentage(bps), total).Ok? && GetFee(Percentage(bps), total).value <= total
    ensures bps == 0 ==> GetFee(Percentage(bps), total) == Ok(0)
    ensures bps == MAX_BPS ==> GetFee(Percentage(bps), total) == Ok(total)
  {
    FeeIsCeiling(bps, total);
    CeilDivBounds(total * bps, 10_000);
    if bps <= MAX_BPS {
      MulMonotone(bps, MAX_BPS, total);
    } else {
      MulMonotone(MAX_BPS + 1, bps, total);
    }
  }

  /**
   Splitting a fee loses nothing: it succeeds exactly when the rate is at most 100% or there is
   nothing to split, the parts add up, and the protocol's part is its exact share rounded up.
   */
  lemma SplitConserves(total: U64, bps: U16)
    ensures SplitProtocolFee(total, bps).Ok? <==> bps <= MAX_BPS || total == 0
    ensures SplitProtocolFee(total, bps).Ok? ==>
              var (protocol, recipient) := SplitProtocolFee(total, bps).value;
              && protocol + recipient == total
              && 0 <= 10_000 * protocol - total * bps < 10_000
  {
    ValidatedFee(bps, total);
    FeeIsCeiling(bps, total);
    CeilDivBounds(total * bps, 10_000);
  }
}

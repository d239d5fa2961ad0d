/** Printing token amounts for people and reading them back. */
module TokenAmount {
  import opened Arithmetic
  import opened Text
  import opened Wrappers

  datatype ParseError = InvalidAmount(input: string)

  const MAX_FRACTION_DIGITS := 6

  /** The fraction digits that are shown: trailing zeros stripped first, then at most six kept. */
  function FractionDigits(frac: nat, decimals: nat): string
  {
    var digits := StripZeros(PadStart(Decimal(frac), decimals));
    if |digits| <= MAX_FRACTION_DIGITS then digits else digits[..MAX_FRACTION_DIGITS]
  }

  function FormatTokenAmount(raw: Option<int>, decimals: nat): string
  {
    if raw.None? then "\U{2014}"
    else
      var n := raw.value;
      var sign := if n < 0 then "-" else "";
      var abs := if n < 0 then -n else n;
      var divisor := Pow10(decimals);
      var whole := Quotient(abs, divisor);
      var frac := abs % divisor;
      if frac == 0 then sign + Grouped(Decimal(whole))
      else
        var fracStr := FractionDigits(frac, decimals);
        sign + Grouped(Decimal(whole)) + if fracStr != "" then "." + fracStr else ""
  }

  function Quotient(a: nat, b: nat): (q: nat)
    requires b > 0
    ensures q == a / b
  {
    DivBounds(a, b);
    MulCancelLess(-1, a / b, b);
    a / b
  }

  /** The index of the first dot, or the length. */
  function DotIndex(s: string): (i: nat)
    ensures i <= |s| && '.' !in s[..i] && (i < |s| ==> s[i] == '.')
  {
    if s == "" then 0
    else if s[0] == '.' then 0
    else
      var i := DotIndex(s[1..]) + 1;
      assert s[..i] == [s[0]] + s[1..][..i - 1];
      i
  }

  /** One or more digits, and then, if anything, a dot and one or more digits. */
  predicate IsAmount(s: string)
  {
    var dot := DotIndex(s);
    && dot > 0 && AllDigits(s[..dot])
    && (dot < |s| ==> dot + 1 < |s| && AllDigits(s[dot + 1..]))
  }

  function ParseTokenAmount(input: string, decimals: nat): Result<nat, ParseError>
  {
    var s := Trim(input);
    if s == "" then Ok(0)
    else if !IsAmount(s) then Err(InvalidAmount(input))
    else
      var dot := DotIndex(s);
      var whole := s[..dot];
      var fracRaw := if dot < |s| then s[dot + 1..] else "";
      var frac := PadEnd(fracRaw, decimals)[..decimals];
      Ok(NatValue(whole + frac))
  }

  // ---- What parsing means ----

  /** The fraction cut or padded to exactly the vault's decimals. */
  function Scaled(frac: string, decimals: nat): (s: string)
    requires AllDigits(frac)
    ensures |s| == decimals && AllDigits(s)
    ensures |frac| >= decimals ==> s == frac[..decimals]
    ensures |frac| < decimals ==> s == frac + Zeros(decimals - |frac|)
  {
    PadEnd(frac, decimals)[..decimals]
  }

  lemma DotAfterDigits(whole: string, rest: string)
    requires AllDigits(whole) && (rest == "" || rest[0] == '.')
    ensures DotIndex(whole + rest) == |whole|
  {
    var s := whole + rest;
    FirstDot(s, |whole|);
  }

  lemma {:induction false} FirstDot(s: string, k: nat)
    requires k <= |s| && '.' !in s[..k] && (k < |s| ==> s[k] == '.')
    ensures DotIndex(s) == k
  {
    if k > 0 {
      assert s[0] == s[..k][0] && s[1..][..k - 1] == s[..k][1..];
      FirstDot(s[1..], k - 1);
    }
  }

  lemma TrimAmount(whole: string, rest: string)
    requires whole != "" && AllDigits(whole) && (rest == "" || IsDigit(rest[|rest| - 1]))
    ensures Trim(whole + rest) == whole + rest
  {
    var s := whole + rest;
    DigitIsNoSpace(s[0]);
    DigitIsNoSpace(s[|s| - 1]);
    TrimNothing(s);
  }

  lemma ParseWholeDigits(whole: string, decimals: nat)
    requires whole != "" && AllDigits(whole)
    ensures ParseTokenAmount(whole, decimals) == Ok(NatValue(whole + Zeros(decimals)))
  {
    assert whole + "" == whole;
    TrimAmount(whole, "");
    DotAfterDigits(whole, "");
    assert whole[..|whole|] == whole;
    assert Scaled("", decimals) == Zeros(decimals);
  }

  /** A whole part alone is scaled by 10^d. */
  lemma ParseWhole(whole: string, decimals: nat)
    requires whole != "" && AllDigits(whole)
    ensures ParseTokenAmount(whole, decimals) == Ok(NatValue(whole) * Pow10(decimals))
  {
    hide ParseTokenAmount, NatValue, Pow10;
    ParseWholeDigits(whole, decimals);
    AppendZeros(whole, decimals);
    ShiftIsProduct(NatValue(whole), decimals);
  }

  lemma ParseDigits(whole: string, frac: string, decimals: nat)
    requires whole != "" && frac != "" && AllDigits(whole) && AllDigits(frac)
    ensures ParseTokenAmount(whole + "." + frac, decimals) == Ok(NatValue(whole + Scaled(frac, decimals)))
  {
    hide NatValue, Trim;
    var s := whole + "." + frac;
    assert s == whole + ("." + frac);
    TrimAmount(whole, "." + frac);
    DotAfterDigits(whole, "." + frac);
    assert s[..|whole|] == whole && s[|whole| + 1..] == frac;
  }

  lemma ParseParts(whole: string, frac: string, decimals: nat)
    requires whole != "" && frac != "" && AllDigits(whole) && AllDigits(frac)
    ensures ParseTokenAmount(whole + "." + frac, decimals)
         == Ok(NatValue(whole) * Pow10(decimals) + NatValue(Scaled(frac, decimals)))
  {
    hide ParseTokenAmount, NatValue, Scaled;
    ParseDigits(whole, frac, decimals);
    NatValueAppend(whole, Scaled(frac, decimals));
    ShiftIsProduct(NatValue(whole), decimals);
  }

  lemma {:induction false} PrefixValue(s: string, k: nat)
    requires AllDigits(s) && k <= |s|
    ensures NatValue(s[..k]) == NatValue(s) / Pow10(|s| - k)
  {
    assert s == s[..k] + s[k..];
    NatValueAppend(s[..k], s[k..]);
    NatValueBound(s[k..]);
    ShiftIsProduct(NatValue(s[..k]), |s| - k);
    DivUnique(NatValue(s), Pow10(|s| - k), NatValue(s[..k]));
  }

  /** Digits past the last decimal are dropped: "w.f" means floor((w + 0.f) * 10^d). */
  lemma ParseTruncates(whole: string, frac: string, decimals: nat)
    requires whole != "" && frac != "" && AllDigits(whole) && AllDigits(frac)
    ensures ParseTokenAmount(whole + "." + frac, decimals)
         == Ok(NatValue(whole) * Pow10(decimals) + Quotient(NatValue(frac) * Pow10(decimals), Pow10(|frac|)))
  {
    hide ParseTokenAmount, NatValue, Scaled, Pow10;
    ParseParts(whole, frac, decimals);
    ScaledValue(frac, decimals);
  }

  lemma ScaledValue(frac: string, decimals: nat)
    requires AllDigits(frac)
    ensures NatValue(Scaled(frac, decimals)) == NatValue(frac) * Pow10(decimals) / Pow10(|frac|)
  {
    var p := NatValue(frac);
    if |frac| >= decimals {
      var k := |frac| - decimals;
      PrefixValue(frac, decimals);
      Pow10Sum(k, decimals);
      DivBounds(p, Pow10(k));
      ScaledQuotient(p, Pow10(k), Pow10(decimals), p / Pow10(k));
    } else {
      var k := decimals - |frac|;
      AppendZeros(frac, k);
      ShiftIsProduct(p, k);
      Pow10Sum(k, |frac|);
      ExactQuotient(p, Pow10(k), Pow10(|frac|));
    }
  }

  lemma ExactQuotient(p: nat, a: nat, b: nat)
    requires a > 0 && b > 0
    ensures p * (a * b) / b == p * a
  {
    assert p * (a * b) == (p * a) * b;
    DivUnique((p * a) * b, b, p * a);
  }

  lemma ScaledQuotient(p: nat, a: nat, b: nat, q: int)
    requires a > 0 && b > 0 && q * a <= p < q * a + a
    ensures p * b / (a * b) == q
  {
    assert q * (a * b) == (q * a) * b;
    MulMonotone(q * a, p, b);
    MulSum(q * a, a, b);
    MulMonotone(p + 1, q * a + a, b);
    MulSum(p, 1, b);
    DivUnique(p * b, a * b, q);
  }

  /** A number is read as a whole part and, after a dot, a fraction part that is not empty. */
  ghost predicate Reads(s: string, whole: string, frac: string)
  {
    whole != "" && AllDigits(whole) && AllDigits(frac) && s == whole + if frac == "" then "" else "." + frac
  }

  lemma AmountIff(s: string)
    ensures IsAmount(s) <==> exists whole, frac :: Reads(s, whole, frac)
  {
    var dot := DotIndex(s);
    if IsAmount(s) {
      assert s == s[..dot] + if dot < |s| then "." + s[dot + 1..] else "";
      assert Reads(s, s[..dot], if dot < |s| then s[dot + 1..] else "");
    }
    forall whole, frac | Reads(s, whole, frac) ensures IsAmount(s) {
      DotAfterDigits(whole, if frac == "" then "" else "." + frac);
    }
  }

  /**
   An input is accepted exactly if, without the spaces around it, it is nothing or digits, or digits, one
   dot and digits. The spaces do not matter, and a refusal names the input.
   */
  lemma ParsedIff(input: string, decimals: nat)
    ensures ParseTokenAmount(input, decimals).Ok? <==> Blank(input) || exists whole, frac :: Reads(Trim(input), whole, frac)
    ensures ParseTokenAmount(input, decimals).Err? ==> ParseTokenAmount(input, decimals) == Err(InvalidAmount(input))
  {
    hide Trim, IsAmount;
    AmountIff(Trim(input));
    BlankIffTrimmed(input);
  }

  lemma BlankIffTrimmed(s: string)
    ensures Blank(s) <==> Trim(s) == ""
  {
    hide Trim, IsSpace;
    var before, after := TrimIsCore(s);
    if Blank(s) {
      assert s + "" + "" == s;
      CoreIsTrim("", s, "");
    }
    assert before + "" + after == before + after;
    BlankJoined(before, after);
  }

  lemma BlankJoined(a: string, b: string)
    requires Blank(a) && Blank(b)
    ensures Blank(a + b)
  {
    hide IsSpace;
  }

  /** Nothing but spaces means zero; otherwise the value is what the digits mean, floored to the decimals. */
  lemma ParsedValue(t: string, before: string, after: string, whole: string, frac: string, decimals: nat)
    requires Blank(before) && Blank(after)
    ensures ParseTokenAmount(before, decimals) == Ok(0)
    ensures Reads(t, whole, frac) ==>
              (ParseTokenAmount(before + t + after, decimals)
               == Ok(NatValue(whole) * Pow10(decimals) + Quotient(NatValue(frac) * Pow10(decimals), Pow10(|frac|))))
  {
    hide NatValue, Pow10, IsSpace, Trim, Quotient;
    BlankIffTrimmed(before);
    if Reads(t, whole, frac) {
      ReadsIsCore(t, whole, frac);
      CoreIsTrim(t, before, after);
      CoreIsTrim(t, "", "");
      hide *;
      assert "" + t + "" == t;
      SameTrimSameValue(before + t + after, t, decimals);
      ReadValue(t, whole, frac, decimals);
    }
  }

  lemma ReadValue(t: string, whole: string, frac: string, decimals: nat)
    requires Reads(t, whole, frac)
    ensures ParseTokenAmount(t, decimals)
         == Ok(NatValue(whole) * Pow10(decimals) + Quotient(NatValue(frac) * Pow10(decimals), Pow10(|frac|)))
  {
    hide NatValue, Pow10, ParseTokenAmount, Quotient;
    if frac == "" {
      assert t == whole;
      ParseWhole(whole, decimals);
      NoFraction(decimals);
    } else {
      assert t == whole + "." + frac;
      ParseTruncates(whole, frac, decimals);
    }
  }

  lemma NoFraction(decimals: nat)
    ensures Quotient(NatValue("") * Pow10(decimals), Pow10(0)) == 0
  {
  }

  lemma ReadsIsCore(t: string, whole: string, frac: string)
    requires Reads(t, whole, frac)
    ensures IsCore(t, "", "")
  {
    DigitIsNoSpace(t[0]);
    DigitIsNoSpace(t[|t| - 1]);
  }

  lemma SameTrimSameValue(a: string, b: string, decimals: nat)
    requires Trim(a) == Trim(b)
    ensures ParseTokenAmount(b, decimals).Ok? ==> ParseTokenAmount(a, decimals) == ParseTokenAmount(b, decimals)
  {
  }

  /** Parts of a number missing, a second dot, a sign and a comma are all refused. */
  lemma Malformed(decimals: nat)
    ensures ParseTokenAmount("1.", decimals).Err? && ParseTokenAmount(".5", decimals).Err?
    ensures ParseTokenAmount("1.2.3", decimals).Err?
    ensures ParseTokenAmount("-1", decimals).Err? && ParseTokenAmount("1,000", decimals).Err?
  {
    hide ParseTokenAmount;
    MalformedDots(decimals);
    BadCharacter("-1", 0, decimals);
    BadCharacter("1,000", 1, decimals);
  }

  lemma MalformedDots(decimals: nat)
    ensures ParseTokenAmount("1.", decimals).Err? && ParseTokenAmount(".5", decimals).Err?
    ensures ParseTokenAmount("1.2.3", decimals).Err?
  {
    hide NatValue, Trim;
    TrimNothing("1.");
    TrimNothing(".5");
    TrimNothing("1.2.3");
    FirstDot("1.", 1);
    FirstDot("1.2.3", 1);
    assert "1.2.3"[2..][1] == '.';
  }

  // ---- Printing and reading back ----

  lemma PaddedFraction(frac: nat, decimals: nat)
    requires 0 < frac < Pow10(decimals)
    ensures var padded := PadStart(Decimal(frac), decimals);
            |padded| == decimals && AllDigits(padded) && NatValue(padded) == frac
  {
    var digits := Decimal(frac);
    DecimalLength(frac, decimals);
    DecimalValue(frac);
    PrependZeros(decimals - |digits|, digits);
    assert Zeros(0) + digits == digits;
  }

  /** The shown digits, padded again, are the leading six (or fewer) digits followed by zeros. */
  lemma ShownDigits(frac: nat, decimals: nat)
    requires 0 < frac < Pow10(decimals)
    ensures var padded, shown, kept := PadStart(Decimal(frac), decimals), FractionDigits(frac, decimals), Min(decimals, 6);
            && |padded| == decimals && AllDigits(padded)
            && shown != "" && AllDigits(shown)
            && Scaled(shown, decimals) == padded[..kept] + Zeros(decimals - kept)
  {
    hide PadStart, Decimal, NatValue, Pow10;
    var padded := PadStart(Decimal(frac), decimals);
    PaddedFraction(frac, decimals);
    NonzeroStrips(padded);
    CutAndPad(padded);
  }

  /**
   The fraction is shown from its first digit on, never with more than six. Where all the rest are zeros
   none of them is shown; otherwise exactly six digits are, zeros at their end included.
   */
  lemma FractionShown(frac: nat, decimals: nat)
    requires 0 < frac < Pow10(decimals)
    ensures var padded, shown := PadStart(Decimal(frac), decimals), FractionDigits(frac, decimals);
            && |padded| == decimals && AllDigits(padded) && NatValue(padded) == frac
            && 0 < |shown| <= 6 && shown <= padded
            && if forall i :: |shown| <= i < decimals ==> padded[i] == '0'
               then shown[|shown| - 1] != '0' else |shown| == 6
  {
    hide PadStart, Decimal, NatValue, Pow10;
    var padded := PadStart(Decimal(frac), decimals);
    PaddedFraction(frac, decimals);
    NonzeroStrips(padded);
    StripZerosRest(padded);
    var stripped := StripZeros(padded);
    assert |stripped| > 6 ==> padded[|stripped| - 1] != '0';
  }

  /** One token and one unit in the seventh decimal is shown with six zeros: stripping comes before cutting. */
  lemma CutLeavesZeros()
    ensures FormatTokenAmount(Some(10_000_001), 7) == "1.000000"
  {
    assert Pow10(7) == 10_000_000 by {
      assert Pow10(3) == 1000 && Pow10(4) == 10_000 && Pow10(7) == 10 * Pow10(6);
    }
    assert Decimal(1) == "1" && Quotient(10_000_001, 10_000_000) == 1;
    assert PadStart("1", 7) == "0000001";
    assert StripZeros("0000001") == "0000001" && "0000001"[..6] == "000000";
    assert "" + "1" + ("." + "000000") == "1.000000";
  }

  lemma WholeParts(whole: nat, unit: nat)
    requires unit > 0
    ensures whole * unit >= 0 && (whole > 0 ==> whole * unit > 0)
    ensures Quotient(whole * unit, unit) == whole && whole * unit % unit == 0
  {
    if whole > 0 {
      MulAtLeast(whole, unit);
    }
    DivUnique(whole * unit, unit, whole);
    RemainderOf(whole * unit, unit);
  }

  /** An amount that is not there is shown as a dash, whole amounts without a dot, and no other sign than a minus. */
  lemma PrintedWhole(whole: nat, decimals: nat)
    ensures FormatTokenAmount(None, decimals) == "\U{2014}"
    ensures FormatTokenAmount(Some(whole * Pow10(decimals)), decimals) == Grouped(Decimal(whole))
    ensures whole > 0 ==> FormatTokenAmount(Some(-(whole * Pow10(decimals))), decimals) == "-" + Grouped(Decimal(whole))
  {
    hide Decimal, Grouped, Pow10;
    WholeParts(whole, Pow10(decimals));
    assert "" + Grouped(Decimal(whole)) == Grouped(Decimal(whole));
  }

  lemma NonzeroStrips(s: string)
    requires AllDigits(s) && NatValue(s) > 0
    ensures StripZeros(s) != ""
  {
    StripZerosRest(s);
    if StripZeros(s) == "" {
      assert s == Zeros(|s|);
      ZerosValue(|s|);
    }
  }

  /** Stripping trailing zeros, keeping six digits and padding again zeroes everything after the sixth. */
  lemma CutAndPad(s: string)
    requires AllDigits(s)
    ensures var stripped, kept := StripZeros(s), Min(|s|, 6);
            var shown := if |stripped| <= 6 then stripped else stripped[..6];
            AllDigits(shown) && Scaled(shown, |s|) == s[..kept] + Zeros(|s| - kept)
  {
    StripZerosRest(s);
  }

  /** What printing keeps of the fraction: everything up to six decimals, the leading six digits beyond. */
  lemma FractionKept(frac: nat, decimals: nat)
    requires 0 < frac < Pow10(decimals)
    ensures var shown := FractionDigits(frac, decimals);
            && shown != "" && AllDigits(shown)
            && NatValue(Scaled(shown, decimals)) == frac - frac % Pow10(Max(0, decimals - 6))
  {
    hide PadStart, Decimal, NatValue, Scaled, FractionDigits, Pow10, Shift;
    var padded := PadStart(Decimal(frac), decimals);
    var kept := Min(decimals, 6);
    PaddedFraction(frac, decimals);
    ShownDigits(frac, decimals);
    AppendZeros(padded[..kept], decimals - kept);
    CutValue(padded, kept);
  }

  lemma CutValue(s: string, k: nat)
    requires AllDigits(s) && k <= |s|
    ensures Shift(NatValue(s[..k]), |s| - k) == NatValue(s) - NatValue(s) % Pow10(|s| - k)
  {
    PrefixValue(s, k);
    ShiftIsProduct(NatValue(s[..k]), |s| - k);
    RemainderOf(NatValue(s), Pow10(|s| - k));
  }

  lemma RemainderOf(n: nat, d: nat)
    requires d > 0
    ensures n - n % d == (n / d) * d
  {
  }

  /** Truncating whole and fraction separately truncates the number, for a unit that divides the divisor. */
  lemma TruncationSplits(n: nat, unit: nat, m: nat)
    requires unit > 0 && m > 0
    ensures unit * m > 0
    ensures var p := unit * m; (n / p) * p + (n % p - n % p % unit) == n - n % unit
  {
    MulAtLeast(m, unit);
    var p := unit * m;
    var w, f := n / p, n % p;
    var q := f / unit;
    RemainderOf(n, p);
    RemainderOf(f, unit);
    RemainderOf(n, unit);
    DivBounds(f, unit);
    assert w * (unit * m) == (w * m) * unit;
    MulSum(w * m, q, unit);
    DivUnique(n, unit, w * m + q);
  }

  /**
   Printing and parsing undo each other up to the shown precision: reading a printed amount with its
   grouping commas removed gives the amount with everything below 10^max(0, d - 6) cut off.
   */
  lemma PrintParse(n: nat, decimals: nat)
    ensures ParseTokenAmount(RemoveCommas(FormatTokenAmount(Some(n), decimals)), decimals)
         == Ok(n - n % Pow10(Max(0, decimals - 6)))
  {
    hide ParseTokenAmount, RemoveCommas, FormatTokenAmount, Pow10, Quotient;
    PrintedValue(n, decimals);
    TruncatedParts(n, decimals);
  }

  lemma TruncatedParts(n: nat, decimals: nat)
    ensures var p, unit := Pow10(decimals), Pow10(Max(0, decimals - 6));
            Quotient(n, p) * p + (n % p - n % p % unit) == n - n % unit
  {
    var unit, m := Pow10(Max(0, decimals - 6)), Pow10(Min(decimals, 6));
    Pow10Sum(Max(0, decimals - 6), Min(decimals, 6));
    TruncationSplits(n, unit, m);
  }

  /** What is read back: the whole part scaled, and the kept part of the fraction. */
  lemma PrintedValue(n: nat, decimals: nat)
    ensures ParseTokenAmount(RemoveCommas(FormatTokenAmount(Some(n), decimals)), decimals)
         == Ok(Quotient(n, Pow10(decimals)) * Pow10(decimals)
               + (n % Pow10(decimals) - n % Pow10(decimals) % Pow10(Max(0, decimals - 6))))
  {
    hide ParseTokenAmount, RemoveCommas, FormatTokenAmount, Pow10, Quotient, FractionPart, Decimal;
    Printed(n, decimals);
    ReadBack(Quotient(n, Pow10(decimals)), n % Pow10(decimals), decimals);
  }

  lemma ReadBack(whole: nat, frac: nat, decimals: nat)
    requires frac < Pow10(decimals)
    ensures ParseTokenAmount(Decimal(whole) + FractionPart(frac, decimals), decimals)
         == Ok(whole * Pow10(decimals) + (frac - frac % Pow10(Max(0, decimals - 6))))
  {
    hide ParseTokenAmount, Decimal, NatValue, Scaled, FractionDigits, Pow10;
    var digits := Decimal(whole);
    DecimalValue(whole);
    if frac == 0 {
      assert digits + "" == digits;
      ParseWhole(digits, decimals);
    } else {
      var shown := FractionDigits(frac, decimals);
      FractionKept(frac, decimals);
      PartsJoined(digits, shown);
      ParseParts(digits, shown, decimals);
    }
  }

  lemma PartsJoined(whole: string, frac: string)
    ensures whole + ("." + frac) == whole + "." + frac
  {
  }

  /** The dot and the shown digits, or nothing for a whole amount. */
  function FractionPart(frac: nat, decimals: nat): string
  {
    if frac == 0 then "" else "." + FractionDigits(frac, decimals)
  }

  /** The printed form without its commas. */
  lemma Printed(n: nat, decimals: nat)
    ensures RemoveCommas(FormatTokenAmount(Some(n), decimals))
         == Decimal(Quotient(n, Pow10(decimals))) + FractionPart(n % Pow10(decimals), decimals)
  {
    var whole, part := Decimal(Quotient(n, Pow10(decimals))), FractionPart(n % Pow10(decimals), decimals);
    hide Decimal, Grouped, FractionPart, Pow10, Quotient, RemoveCommas, FormatTokenAmount;
    PrintedForm(n, decimals);
    RemoveCommasGrouped(whole);
    RemoveCommasAppend(Grouped(whole), part);
    RemoveCommasNone(part);
  }

  lemma PrintedForm(n: nat, decimals: nat)
    ensures var part := FractionPart(n % Pow10(decimals), decimals);
            && FormatTokenAmount(Some(n), decimals) == Grouped(Decimal(Quotient(n, Pow10(decimals)))) + part
            && ',' !in part && (part != "" ==> IsDigit(part[|part| - 1]))
  {
    hide Decimal, Grouped, FractionDigits, Pow10, Quotient;
    var frac := n % Pow10(decimals);
    var grouped := Grouped(Decimal(Quotient(n, Pow10(decimals))));
    if frac == 0 {
      assert grouped + "" == grouped && "" + grouped == grouped;
    } else {
      ShownDigits(frac, decimals);
      assert "" + grouped + ("." + FractionDigits(frac, decimals)) == grouped + ("." + FractionDigits(frac, decimals));
    }
  }

  /** Up to six decimals nothing is lost. */
  lemma PrintParseExact(n: nat, decimals: nat)
    requires decimals <= 6
    ensures ParseTokenAmount(RemoveCommas(FormatTokenAmount(Some(n), decimals)), decimals) == Ok(n)
  {
    hide ParseTokenAmount, RemoveCommas, FormatTokenAmount;
    PrintParse(n, decimals);
    assert Max(0, decimals - 6) == 0 && Pow10(0) == 1;
    assert n % 1 == 0;
  }

  /** A character that is neither a digit nor a dot makes the input unreadable. */
  lemma BadCharacter(s: string, i: nat, decimals: nat)
    requires i < |s| && !IsDigit(s[i]) && s[i] != '.'
    requires !IsSpace(s[0]) && !IsSpace(s[|s| - 1])
    ensures ParseTokenAmount(s, decimals).Err?
  {
    TrimNothing(s);
    var dot := DotIndex(s);
    assert i < dot ==> s[..dot][i] == s[i];
    assert i > dot ==> s[dot + 1..][i - dot - 1] == s[i];
  }

  lemma PrintedNegative(n: int, decimals: nat)
    requires n < 0
    ensures FormatTokenAmount(Some(n), decimals) == "-" + FormatTokenAmount(Some(-n), decimals)
  {
    hide Decimal, Grouped, FractionDigits, Pow10;
    var whole, frac := Decimal(Quotient(-n, Pow10(decimals))), -n % Pow10(decimals);
    SignedJoined(Grouped(whole), if frac == 0 then "" else FractionPart(frac, decimals));
  }

  lemma SignedJoined(whole: string, part: string)
    ensures "-" + whole + part == "-" + ("" + whole + part)
    ensures "-" + whole == "-" + ("" + whole)
  {
  }

  lemma MinusIsNoSpace()
    ensures !IsSpace('-')
  {
  }

  lemma PrintedEnds(n: nat, decimals: nat)
    ensures var printed := FormatTokenAmount(Some(n), decimals);
            printed != "" && IsDigit(printed[0]) && IsDigit(printed[|printed| - 1])
  {
    hide Decimal, Grouped, FractionPart, Pow10, Quotient, RemoveCommas, FormatTokenAmount;
    PrintedForm(n, decimals);
    RemoveCommasGrouped(Decimal(Quotient(n, Pow10(decimals))));
  }

  /**
   Without removing the commas the printed form is readable exactly for amounts from zero to below a
   thousand whole tokens: a minus sign and a grouping comma are both refused.
   */
  lemma PrintedReadableIff(n: int, decimals: nat)
    ensures ParseTokenAmount(FormatTokenAmount(Some(n), decimals), decimals).Ok? <==> 0 <= n < 1000 * Pow10(decimals)
  {
    hide ParseTokenAmount, FormatTokenAmount, Decimal, Grouped, FractionPart, Pow10, RemoveCommas, IsSpace;
    var printed := FormatTokenAmount(Some(n), decimals);
    if n < 0 {
      PrintedNegative(n, decimals);
      PrintedEnds(-n, decimals);
      DigitIsNoSpace(printed[|printed| - 1]);
      MinusIsNoSpace();
      BadCharacter(printed, 0, decimals);
    } else {
      var digits := Decimal(Quotient(n, Pow10(decimals)));
      ThousandHasFourDigits(n, decimals);
      RemoveCommasGrouped(digits);
      PrintedForm(n, decimals);
      if |digits| <= 3 {
        RemoveCommasNone(printed);
        PrintParse(n, decimals);
      } else {
        PrintedEnds(n, decimals);
        DigitIsNoSpace(printed[0]);
        DigitIsNoSpace(printed[|printed| - 1]);
        var i :| 0 <= i < |Grouped(digits)| && Grouped(digits)[i] == ',';
        assert printed[i] == ',';
        BadCharacter(printed, i, decimals);
      }
    }
  }

  lemma ThousandHasFourDigits(n: nat, decimals: nat)
    ensures |Decimal(Quotient(n, Pow10(decimals)))| <= 3 <==> n < 1000 * Pow10(decimals)
  {
    hide Decimal;
    var whole := Quotient(n, Pow10(decimals));
    DivLess(n, Pow10(decimals), 1000);
    assert Pow10(3) == 1000;
    if whole < 1000 {
      DecimalLength(whole, 3);
    } else {
      DecimalLonger(whole, 3);
    }
  }
}

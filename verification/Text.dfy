/** The string operations of the web library: trimming, padding, decimal digits. */
module Text {
  import opened Arithmetic

  /** White space as `String.prototype.trim` removes it. */
  predicate IsSpace(c: char)
  {
    var n := c as int;
    9 <= n <= 13 || n == 32 || n == 0xa0 || n == 0x1680 || 0x2000 <= n <= 0x200a || n == 0x2028 || n == 0x2029
    || n == 0x202f || n == 0x205f || n == 0x3000 || n == 0xfeff
  }

  predicate Blank(line: string)
  {
    forall i :: 0 <= i < |line| ==> IsSpace(line[i])
  }

  function TrimStart(s: string): string
  {
    if s != "" && IsSpace(s[0]) then TrimStart(s[1..]) else s
  }

  function TrimEnd(s: string): string
  {
    if s != "" && IsSpace(s[|s| - 1]) then TrimEnd(s[..|s| - 1]) else s
  }

  function Trim(s: string): string
  {
    TrimEnd(TrimStart(s))
  }

  lemma TrimNothing(s: string)
    requires s != "" && !IsSpace(s[0]) && !IsSpace(s[|s| - 1])
    ensures Trim(s) == s
  {
  }

  /** Trimming cuts off blank ends and nothing else, until a character that is no space starts and ends the rest. */
  lemma {:induction false} TrimStartCuts(s: string) returns (k: nat)
    ensures k <= |s| && TrimStart(s) == s[k..] && Blank(s[..k])
    ensures k < |s| ==> !IsSpace(s[k])
  {
    hide IsSpace;
    k := 0;
    if s != "" && IsSpace(s[0]) {
      var j := TrimStartCuts(s[1..]);
      k := j + 1;
      assert s[1..][j..] == s[k..];
      forall i | 0 <= i < k ensures IsSpace(s[..k][i]) {
        assert i > 0 ==> s[..k][i] == s[1..][..j][i - 1];
      }
    }
  }

  lemma {:induction false} TrimEndCuts(s: string)
    ensures TrimEnd(s) <= s && Blank(s[|TrimEnd(s)|..])
    ensures TrimEnd(s) == "" || !IsSpace(TrimEnd(s)[|TrimEnd(s)| - 1])
  {
    hide IsSpace;
    if s != "" && IsSpace(s[|s| - 1]) {
      TrimEndCuts(s[..|s| - 1]);
    }
  }

  /** What `Trim` leaves of a string is the middle `t` of it: blank ends are gone, and all of them. */
  predicate IsCore(t: string, before: string, after: string)
  {
    Blank(before) && Blank(after) && (t == "" || (!IsSpace(t[0]) && !IsSpace(t[|t| - 1])))
  }

  lemma TrimIsCore(s: string) returns (before: string, after: string)
    ensures s == before + Trim(s) + after && IsCore(Trim(s), before, after)
  {
    hide IsSpace;
    var k := TrimStartCuts(s);
    var rest := TrimStart(s);
    TrimEndCuts(rest);
    before, after := s[..k], rest[|Trim(s)|..];
    assert rest == Trim(s) + after;
    assert Trim(s) != "" ==> Trim(s)[0] == rest[0];
  }

  lemma {:induction false} TrimStartSkips(before: string, s: string)
    requires Blank(before)
    ensures TrimStart(before + s) == TrimStart(s)
  {
    hide IsSpace;
    if before == "" {
      assert before + s == s;
    } else {
      assert (before + s)[1..] == before[1..] + s;
      TrimStartSkips(before[1..], s);
    }
  }

  lemma {:induction false} TrimEndSkips(s: string, after: string)
    requires Blank(after)
    ensures TrimEnd(s + after) == TrimEnd(s)
  {
    hide IsSpace;
    if after == "" {
      assert s + after == s;
    } else {
      var n := |after| - 1;
      assert (s + after)[..|s| + n] == s + after[..n];
      TrimEndSkips(s, after[..n]);
    }
  }

  /** Trimming finds exactly the core, whatever blanks surround it. */
  lemma CoreIsTrim(t: string, before: string, after: string)
    requires IsCore(t, before, after)
    ensures Trim(before + t + after) == t
  {
    hide IsSpace;
    assert before + t + after == before + (t + after);
    TrimStartSkips(before, t + after);
    if t == "" {
      assert t + after == after && after + "" == after;
      TrimStartSkips(after, "");
    } else {
      TrimEndSkips(t, after);
    }
  }

  lemma DigitIsNoSpace(c: char)
    requires IsDigit(c)
    ensures !IsSpace(c)
  {
  }

  // ---- Decimal digits ----

  predicate IsDigit(c: char)
  {
    '0' <= c <= '9'
  }

  predicate AllDigits(s: string)
  {
    forall i :: 0 <= i < |s| ==> IsDigit(s[i])
  }

  function Digit(n: nat): (c: char)
    requires n < 10
    ensures IsDigit(c)
  {
    ('0' as int + n) as char
  }

  function DigitValue(c: char): (n: nat)
    requires IsDigit(c)
    ensures n < 10
  {
    c as int - '0' as int
  }

  /** `n.toString()`. */
  function Decimal(n: nat): (s: string)
    ensures s != "" && AllDigits(s)
  {
    if n < 10 then [Digit(n)] else Decimal(n / 10) + [Digit(n % 10)]
  }

  /** The number a digit string denotes. */
  function NatValue(s: string): (n: nat)
    requires AllDigits(s)
  {
    if s == "" then 0 else 10 * NatValue(s[..|s| - 1]) + DigitValue(s[|s| - 1])
  }

  lemma {:induction false} DecimalValue(n: nat)
    ensures NatValue(Decimal(n)) == n
  {
    var s := Decimal(n);
    if n >= 10 {
      DecimalValue(n / 10);
      assert s[..|s| - 1] == Decimal(n / 10);
    } else {
      assert s[..0] == "";
    }
  }

  /** A number below 10^d has at most d digits (one at least). */
  lemma {:induction false} DecimalLength(n: nat, d: nat)
    requires n < Pow10(d)
    ensures |Decimal(n)| <= Max(d, 1)
  {
    if n >= 10 {
      DecimalLength(n / 10, d - 1);
    }
  }

  /** A number of at least 10^d has more than d digits. */
  lemma {:induction false} DecimalLonger(n: nat, d: nat)
    requires n >= Pow10(d)
    ensures |Decimal(n)| > d
  {
    if d > 0 {
      DecimalLonger(n / 10, d - 1);
    }
  }

  /** `a` followed by `k` zero digits: a * 10^k, without the product. */
  function Shift(a: nat, k: nat): nat
  {
    if k == 0 then a else 10 * Shift(a, k - 1)
  }

  lemma {:induction false} ShiftIsProduct(a: nat, k: nat)
    ensures Shift(a, k) == a * Pow10(k)
  {
    if k > 0 {
      ShiftIsProduct(a, k - 1);
      TenTimes(a, Pow10(k - 1));
    }
  }

  lemma TenTimes(a: int, p: int)
    ensures 10 * (a * p) == a * (10 * p)
  {
  }

  lemma {:induction false} ShiftZero(k: nat)
    ensures Shift(0, k) == 0
  {
    if k > 0 {
      ShiftZero(k - 1);
    }
  }

  lemma {:induction false} NatValueAppend(a: string, b: string)
    requires AllDigits(a) && AllDigits(b)
    ensures AllDigits(a + b) && NatValue(a + b) == Shift(NatValue(a), |b|) + NatValue(b)
  {
    if b == "" {
      assert a + b == a;
    } else {
      var n := |b| - 1;
      var s := a + b;
      assert s[..|s| - 1] == a + b[..n] && s[|s| - 1] == b[n];
      NatValueAppend(a, b[..n]);
    }
  }

  lemma {:induction false} NatValueBound(s: string)
    requires AllDigits(s)
    ensures NatValue(s) < Pow10(|s|)
  {
    if s != "" {
      NatValueBound(s[..|s| - 1]);
    }
  }

  function Zeros(k: nat): (s: string)
    ensures |s| == k && AllDigits(s)
    ensures forall i :: 0 <= i < k ==> s[i] == '0'
  {
    if k == 0 then "" else Zeros(k - 1) + "0"
  }

  lemma {:induction false} ZerosValue(k: nat)
    ensures NatValue(Zeros(k)) == 0
  {
    if k > 0 {
      ZerosValue(k - 1);
      assert Zeros(k)[..k - 1] == Zeros(k - 1);
    }
  }

  function PadStart(s: string, width: nat): string
  {
    if |s| >= width then s else Zeros(width - |s|) + s
  }

  function PadEnd(s: string, width: nat): string
  {
    if |s| >= width then s else s + Zeros(width - |s|)
  }

  lemma AppendZeros(a: string, k: nat)
    requires AllDigits(a)
    ensures AllDigits(a + Zeros(k)) && NatValue(a + Zeros(k)) == Shift(NatValue(a), k)
  {
    NatValueAppend(a, Zeros(k));
    ZerosValue(k);
  }

  lemma PrependZeros(k: nat, a: string)
    requires AllDigits(a)
    ensures AllDigits(Zeros(k) + a) && NatValue(Zeros(k) + a) == NatValue(a)
  {
    NatValueAppend(Zeros(k), a);
    ZerosValue(k);
    ShiftZero(|a|);
  }

  /** `replace(/0+$/, '')`. */
  function StripZeros(s: string): (r: string)
    ensures |r| <= |s| && r == s[..|r|]
    ensures r != "" ==> r[|r| - 1] != '0'
  {
    if s != "" && s[|s| - 1] == '0' then StripZeros(s[..|s| - 1]) else s
  }

  lemma {:induction false} StripZerosRest(s: string)
    ensures forall i :: |StripZeros(s)| <= i < |s| ==> s[i] == '0'
  {
    if s != "" && s[|s| - 1] == '0' {
      StripZerosRest(s[..|s| - 1]);
    }
  }

  /** `toLocaleString('en-US')` of a whole number: a comma before every third digit from the right. */
  function Grouped(digits: string): string
  {
    if |digits| <= 3 then digits else Grouped(digits[..|digits| - 3]) + "," + digits[|digits| - 3..]
  }

  lemma {:induction false} GroupedLength(digits: string)
    requires digits != ""
    ensures |Grouped(digits)| == |digits| + (|digits| - 1) / 3
  {
    if |digits| > 3 {
      GroupedLength(digits[..|digits| - 3]);
    }
  }

  /** The commas of a grouped number stand at every fourth place from the right, and nowhere else. */
  lemma {:induction false} CommaPlaces(digits: string, i: nat)
    requires AllDigits(digits) && i < |Grouped(digits)|
    ensures Grouped(digits)[i] == ',' <==> (|Grouped(digits)| - i) % 4 == 0
  {
    if |digits| > 3 {
      var n := |digits| - 3;
      var left := Grouped(digits[..n]);
      assert Grouped(digits) == left + ("," + digits[n..]);
      if i < |left| {
        CommaPlaces(digits[..n], i);
        assert Grouped(digits)[i] == left[i] && |Grouped(digits)| - i == |left| - i + 4;
      } else if i > |left| {
        assert Grouped(digits)[i] == digits[n + i - |left| - 1];
      }
    }
  }

  function RemoveCommas(s: string): string
  {
    if s == "" then ""
    else RemoveCommas(s[..|s| - 1]) + if s[|s| - 1] == ',' then "" else [s[|s| - 1]]
  }

  lemma {:induction false} RemoveCommasAppend(a: string, b: string)
    ensures RemoveCommas(a + b) == RemoveCommas(a) + RemoveCommas(b)
  {
    var s := a + b;
    if b == "" {
      assert s == a;
    } else {
      assert s[..|s| - 1] == a + b[..|b| - 1] && s[|s| - 1] == b[|b| - 1];
      RemoveCommasAppend(a, b[..|b| - 1]);
    }
  }

  lemma {:induction false} RemoveCommasNone(s: string)
    requires ',' !in s
    ensures RemoveCommas(s) == s
  {
    if s != "" {
      RemoveCommasNone(s[..|s| - 1]);
      assert s == s[..|s| - 1] + [s[|s| - 1]];
    }
  }

  lemma {:induction false} RemoveCommasGrouped(digits: string)
    requires AllDigits(digits)
    ensures RemoveCommas(Grouped(digits)) == digits
    ensures ',' in Grouped(digits) <==> |digits| > 3
    ensures Grouped(digits) == "" <==> digits == ""
    ensures digits != "" ==> Grouped(digits)[0] == digits[0]
    ensures digits != "" ==> Grouped(digits)[|Grouped(digits)| - 1] == digits[|digits| - 1]
  {
    if |digits| <= 3 {
      RemoveCommasNone(digits);
    } else {
      var n := |digits| - 3;
      var left, right := Grouped(digits[..n]), digits[n..];
      RemoveCommasGrouped(digits[..n]);
      RemoveCommasNone(right);
      RemoveCommasAppend(left + ",", right);
      RemoveCommasAppend(left, ",");
      assert RemoveCommas(",") == "";
      assert Grouped(digits)[|left|] == ',';
      RejoinWithoutComma(digits, n);
    }
  }

  lemma RejoinWithoutComma(digits: string, n: nat)
    requires n <= |digits|
    ensures digits[..n] + "" + digits[n..] == digits
  {
  }
}

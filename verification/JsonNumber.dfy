/** The bytes parse_number collects and what strtod reads from them, with doubles as exact reals. */
module JsonNumber {
  import opened Bytes
  import opened Json
  import opened JsonText

  const PLUS: byte := 43
  const POINT: byte := 46

  /** number_c_string holds 63 bytes and a NUL. */
  const NUMBER_MAX: nat := 63

  predicate IsDigit(b: byte) {
    48 <= b <= 57
  }

  predicate NumberByte(b: byte) {
    IsDigit(b) || b == PLUS || b == MINUS || b == POINT || b == 69 || b == 101
  }

  /** How many bytes the copy loop takes from o, up to limit. */
  function NumberSpan(c: bytes, o: nat, limit: nat): (n: nat)
    requires o <= |c|
    ensures o + n <= |c| && n <= limit
    decreases limit
  {
    if limit == 0 || o == |c| || !NumberByte(c[o]) then 0 else 1 + NumberSpan(c, o + 1, limit - 1)
  }

  function DigitRun(t: bytes, i: nat): (n: nat)
    requires i <= |t|
    ensures i + n <= |t|
    decreases |t| - i
  {
    if i == |t| || !IsDigit(t[i]) then 0 else 1 + DigitRun(t, i + 1)
  }

  function DigitsValue(t: bytes): nat {
    if t == [] then 0
    else DigitsValue(t[..|t| - 1]) * 10 + (if t[|t| - 1] >= 48 then t[|t| - 1] - 48 else 0)
  }

  function Pow10(k: int): real
    decreases if k < 0 then -k else k
  {
    if k == 0 then 1.0 else if k > 0 then 10.0 * Pow10(k - 1) else Pow10(k + 1) / 10.0
  }

  function SignLength(t: bytes, i: nat): (n: nat)
    ensures n <= 1 && (i <= |t| ==> i + n <= |t|)
  {
    if i < |t| && (t[i] == MINUS || t[i] == PLUS) then 1 else 0
  }

  /** Length of the exponent part at m: 'e', an optional sign and at least one digit, else nothing. */
  function ExponentLength(t: bytes, m: nat): (n: nat)
    requires m <= |t|
    ensures m + n <= |t|
  {
    if m < |t| && (t[m] == 69 || t[m] == 101) then
      var s := SignLength(t, m + 1);
      var n := DigitRun(t, m + 1 + s);
      if n == 0 then 0 else 1 + s + n
    else 0
  }

  function ExponentValue(t: bytes, m: nat): int
    requires m <= |t|
  {
    var n := ExponentLength(t, m);
    if n == 0 then 0
    else
      var digits: int := DigitsValue(t[m + 1 + SignLength(t, m + 1)..m + n]);
      if t[m + 1] == MINUS then -digits else digits
  }

  datatype Read = Read(value: real, length: nat)

  /** Length of the fraction at k: a point and the digits behind it, if any. */
  function FractionLength(t: bytes, k: nat): (n: nat)
    requires k <= |t|
    ensures k + n <= |t|
  {
    if k < |t| && t[k] == POINT then 1 + DigitRun(t, k + 1) else 0
  }

  /** The value of n digits from i, a fraction of f bytes and the exponent behind it. */
  function Unsigned(t: bytes, i: nat, n: nat, f: nat): real
    requires i + n + f <= |t|
  {
    var m := i + n + f;
    if f == 0 then DigitsValue(t[i..m]) as real * Pow10(ExponentValue(t, m))
    else DigitsValue(t[i..i + n] + t[i + n + 1..m]) as real * Pow10(ExponentValue(t, m) - (f - 1))
  }

  /** The number strtod reads at the start of t; length 0 when there is none. */
  function Strtod(t: bytes): (r: Read)
    ensures r.length <= |t|
  {
    var i := SignLength(t, 0);
    var n := DigitRun(t, i);
    var f := FractionLength(t, i + n);
    if n == 0 && f <= 1 then Read(0.0, 0)
    else
      var m := i + n + f;
      var value := Unsigned(t, i, n, f);
      Read(if t[0] == MINUS then -value else value, m + ExponentLength(t, m))
  }

  /** valueint: truncation toward zero, saturated at the 32-bit bounds. */
  function ValueInt(d: real): (n: int)
    ensures INT_MIN <= n <= INT_MAX
    ensures IsInt32(d) ==> n as real == d
  {
    if d >= INT_MAX as real then INT_MAX
    else if d <= INT_MIN as real then INT_MIN
    else if d < 0.0 then -((-d).Floor) else d.Floor
  }

  // ------------------------------------------------------------- printed integers

  lemma {:induction false} DecimalDigits(n: nat)
    ensures forall i :: 0 <= i < |Decimal(n)| ==> IsDigit(Decimal(n)[i])
    ensures DigitsValue(Decimal(n)) == n
    ensures |Decimal(n)| > 0
  {
    if n >= 10 {
      DecimalDigits(n / 10);
      var t := Decimal(n);
      assert t[..|t| - 1] == Decimal(n / 10);
    } else {
      var t := Decimal(n);
      assert t[..|t| - 1] == [];
    }
  }

  lemma {:induction false} DecimalLength(n: nat, k: nat, bound: nat)
    requires n < bound && bound == TenTo(k) && k > 0
    ensures |Decimal(n)| <= k
    decreases k
  {
    if n >= 10 {
      assert k > 1;
      DecimalLength(n / 10, k - 1, TenTo(k - 1));
    }
  }

  function TenTo(k: nat): nat {
    if k == 0 then 1 else 10 * TenTo(k - 1)
  }

  lemma {:induction false} DigitRunAll(t: bytes, i: nat)
    requires i <= |t| && forall j :: i <= j < |t| ==> IsDigit(t[j])
    ensures DigitRun(t, i) == |t| - i
    decreases |t| - i
  {
    if i < |t| {
      DigitRunAll(t, i + 1);
    }
  }

  /** What "%d" prints, strtod reads back whole, and parse_number's copy buffer holds it. */
  lemma IntTextReads(n: int)
    requires INT_MIN <= n <= INT_MAX
    ensures Strtod(IntText(n)) == Read(n as real, |IntText(n)|)
    ensures 0 < |IntText(n)| <= 11
    ensures forall i :: 0 <= i < |IntText(n)| ==> NumberByte(IntText(n)[i])
    ensures IntText(n)[0] == MINUS || IsDigit(IntText(n)[0])
  {
    var t := IntText(n);
    var a := if n < 0 then -n else n;
    DecimalDigits(a);
    assert TenTo(10) == 10_000_000_000 by {
      assert TenTo(2) == 100;
      assert TenTo(4) == 10_000;
      assert TenTo(6) == 1_000_000;
      assert TenTo(8) == 100_000_000;
    }
    DecimalLength(a, 10, TenTo(10));
    var i := if n < 0 then 1 else 0;
    assert t[i..] == Decimal(a);
    assert IsDigit(Decimal(a)[0]);
    DigitRunAll(t, i);
    assert t[i..|t|] == Decimal(a) && ExponentValue(t, |t|) == 0;
    assert Unsigned(t, i, |t| - i, 0) == a as real by {
      assert Pow10(0) == 1.0;
    }
  }
}

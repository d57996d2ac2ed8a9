/** Decimal text and decimal rounding: `%d` and its bounded reader `strconv.ParseInt(s, 10, 32)`,
    which carry the replica count through an annotation, and the `%.6f` store that carries the ledger. */
module Decimal {
  import opened Options

  type Int32 = x: int | -0x8000_0000 <= x <= 0x7fff_ffff

  function Digit(d: nat): char
    requires d < 10
  {
    ['0', '1', '2', '3', '4', '5', '6', '7', '8', '9'][d]
  }

  function DigitValue(c: char): (r: Option<nat>)
    ensures r.Some? ==> r.value < 10
  {
    if '0' <= c <= '9' then Some(c as int - '0' as int) else None
  }

  function FormatNat(n: nat): string {
    if n < 10 then [Digit(n)] else FormatNat(n / 10) + [Digit(n % 10)]
  }

  /** `fmt.Sprintf("%d", n)` */
  function FormatInt(n: int): string {
    if n < 0 then "-" + FormatNat(-n) else FormatNat(n)
  }

  /** The value of a string of digits; None for the empty string or any other character. */
  function ParseNat(s: string): Option<nat> {
    if s == [] then None
    else
      var last := DigitValue(s[|s| - 1]);
      if last.None? then None
      else if |s| == 1 then last
      else
        var front := ParseNat(s[..|s| - 1]);
        if front.None? then None else Some(10 * front.value + last.value)
  }

  /** `strconv.ParseInt(s, 10, 32)`: an optional sign, then digits, within 32 bits. */
  function ParseInt32(s: string): Option<Int32> {
    if s == [] then None
    else if s[0] == '-' then
      var n := ParseNat(s[1..]);
      if n.Some? && n.value <= 0x8000_0000 then (var negated: Int32 := 0 - n.value; Some(negated)) else None
    else
      var n := ParseNat(if s[0] == '+' then s[1..] else s);
      if n.Some? && n.value < 0x8000_0000 then Some(n.value) else None
  }

  lemma {:induction false} ParseFormatNat(n: nat)
    ensures |FormatNat(n)| > 0
    ensures '0' <= FormatNat(n)[0] <= '9'
    ensures ParseNat(FormatNat(n)) == Some(n)
  {
    if n >= 10 {
      ParseFormatNat(n / 10);
      var s := FormatNat(n);
      assert s[..|s| - 1] == FormatNat(n / 10);
    }
  }

  lemma ParseSigned(digits: string, n: nat)
    requires digits != [] && '0' <= digits[0] <= '9' && ParseNat(digits) == Some(n)
    ensures n <= 0x8000_0000 ==> ParseInt32("-" + digits).Some? && ParseInt32("-" + digits).value == 0 - n
    ensures n < 0x8000_0000 ==> ParseInt32(digits).Some? && ParseInt32(digits).value == n
    ensures n == 0x8000_0000 ==> ParseInt32(digits).None?
  {
    assert ("-" + digits)[1..] == digits;
  }

  predicate Digits(s: string) {
    s != "" && forall i :: 0 <= i < |s| ==> '0' <= s[i] <= '9'
  }

  lemma {:induction false} ParseNatDigits(s: string)
    ensures ParseNat(s).Some? <==> Digits(s)
    decreases |s|
  {
    if |s| > 1 {
      ParseNatDigits(s[..|s| - 1]);
      assert forall i :: 0 <= i < |s| - 1 ==> s[..|s| - 1][i] == s[i];
    }
  }

  /** What the reader accepts: an optional sign and digits, whatever zeros lead, within 32 bits; a plus sign
      changes nothing. */
  lemma ParseAccepts(digits: string)
    requires Digits(digits)
    ensures ParseNat(digits).Some?
    ensures ParseInt32(digits).Some? <==> ParseNat(digits).value <= 0x7fff_ffff
    ensures ParseInt32("-" + digits).Some? <==> ParseNat(digits).value <= 0x8000_0000
    ensures ParseInt32("+" + digits) == ParseInt32(digits)
  {
    ParseNatDigits(digits);
    assert ("-" + digits)[1..] == digits && ("+" + digits)[1..] == digits;
  }

  /** And nothing else. */
  lemma ParseRefuses(s: string)
    requires !Digits(s) && (s == "" || ((s[0] == '-' || s[0] == '+') ==> !Digits(s[1..])))
    ensures ParseInt32(s).None?
  {
    ParseNatDigits(s);
    if s != "" {
      ParseNatDigits(s[1..]);
    }
  }

  /** Every replica count written into the annotation is read back unchanged. */
  lemma ParseFormat(n: Int32)
    ensures ParseInt32(FormatInt(n)) == Some(n)
  {
    var m: int := n;
    var magnitude: nat := if m < 0 then 0 - m else m;
    ParseFormatNat(magnitude);
    ParseSigned(FormatNat(magnitude), magnitude);
  }

  /** `fmt.Sprintf("%.6f", x)` as a number of millionths: the nearest one, ties to even. */
  function ToMicros(x: real): int {
    var scaled := x * 1000000.0;
    var below := scaled.Floor;
    var fraction := scaled - below as real;
    if fraction < 0.5 || (fraction == 0.5 && below % 2 == 0) then below else below + 1
  }

  /** `strconv.ParseFloat` on such text. */
  function FromMicros(n: int): real {
    n as real / 1000000.0
  }

  lemma ToMicrosNearest(x: real)
    ensures -0.0000005 <= FromMicros(ToMicros(x)) - x <= 0.0000005
  {
    var scaled := x * 1000000.0;
    assert -0.5 <= ToMicros(x) as real - scaled <= 0.5;
  }

  /** Halfway between two millionths, the even one is stored. */
  lemma ToMicrosTie(n: int)
    ensures ToMicros((n as real + 0.5) / 1000000.0) == if n % 2 == 0 then n else n + 1
  {
    assert (n as real + 0.5) / 1000000.0 * 1000000.0 == n as real + 0.5;
  }

  /** What is stored survives being read and stored again. */
  lemma ToMicrosFromMicros(n: int)
    ensures ToMicros(FromMicros(n)) == n
  {
    assert FromMicros(n) * 1000000.0 == n as real;
  }

  lemma ToMicrosMonotone(x: real, y: real)
    requires x <= y
    ensures ToMicros(x) <= ToMicros(y)
  {
    var a, b := x * 1000000.0, y * 1000000.0;
    assert a <= b;
    assert a.Floor <= b.Floor;
  }
}

/** The two conversions of Go's strconv package that the codec relies on:
    Itoa renders a Go int in base 10, ParseInt(s, 10, 64) reads one back. */
module Strconv {
  import opened GoTypes

  predicate IsDigit(c: Byte) {
    '0' <= c <= '9'
  }

  predicate AllDigits(s: Bytes) {
    forall i :: 0 <= i < |s| ==> IsDigit(s[i])
  }

  function DigitValue(c: Byte): nat
    requires IsDigit(c)
  {
    c as int - '0' as int
  }

  function DigitByte(d: nat): (c: Byte)
    requires d < 10
    ensures IsDigit(c) && DigitValue(c) == d
  {
    (d + '0' as int) as char
  }

  /** The decimal digits of n, most significant first, with no leading zero. */
  function Digits(n: nat): (s: Bytes)
    ensures |s| > 0 && AllDigits(s)
    ensures |s| > 1 ==> s[0] != '0'
    decreases n
  {
    if n < 10 then [DigitByte(n)] else Digits(n / 10) + [DigitByte(n % 10)]
  }

  /** The number a run of decimal digits denotes (leading zeros allowed). */
  function DigitsValue(s: Bytes): nat
    requires AllDigits(s)
    decreases |s|
  {
    if |s| == 0 then 0 else DigitsValue(s[..|s| - 1]) * 10 + DigitValue(s[|s| - 1])
  }

  /** strconv.Itoa: an optional minus sign followed by the digits of |n|. */
  function Itoa(n: int): (s: Bytes)
    ensures |s| > 0
    ensures forall i :: 0 <= i < |s| ==> s[i] == '-' || IsDigit(s[i])
  {
    if n < 0 then ['-'] + Digits(-n) else Digits(n)
  }

  /** strconv.ParseInt(s, 10, 64): an optional '+' or '-', then at least one
      decimal digit and nothing else, denoting a value that fits in int64.
      Go distinguishes a syntax error from a range error; every caller in
      the codec treats both alike, so both are None here. */
  function ParseInt64(s: Bytes): (r: Option<int>)
    ensures r.Some? ==> IsInt64(r.value)
  {
    var neg := |s| > 0 && s[0] == '-';
    var body := if |s| > 0 && (s[0] == '+' || s[0] == '-') then s[1..] else s;
    if |body| == 0 || !AllDigits(body) then None
    else
      var m: int := DigitsValue(body);
      var n := if neg then -m else m;
      if IsInt64(n) then Some(n) else None
  }

  lemma {:induction false} DigitsValueOfDigits(n: nat)
    ensures DigitsValue(Digits(n)) == n
    decreases n
  {
    if n >= 10 {
      var s := Digits(n);
      assert s[..|s| - 1] == Digits(n / 10);
      DigitsValueOfDigits(n / 10);
    }
  }

  /** Reading back what Itoa wrote gives the same number when it is
      within int64, and fails for any number outside that range. */
  lemma ParseItoa(n: int)
    ensures ParseInt64(Itoa(n)) == if IsInt64(n) then Some(n) else None
  {
    if n < 0 {
      DigitsValueOfDigits(-n);
      assert Itoa(n)[1..] == Digits(-n);
    } else {
      DigitsValueOfDigits(n);
    }
  }

  /** Itoa never writes a carriage return, so a line reader stops right
      after the number. */
  lemma ItoaHasNoCR(n: int)
    ensures CR !in Itoa(n)
  {
  }
}

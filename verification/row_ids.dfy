/** Identifiers of user-added rows.

    `addRow` turns a random draw n with 0 <= n < 1000000 into the key
    `("00000" + n.toString()).slice(-6)`: six decimal digits, left-padded with
    zeros.  The floating-point draw `Math.floor(Math.random() * 1_000_000)` is
    replaced by the integer it yields; the retry on collision becomes a loop
    over a finite sequence of such draws. */
module RowIds {

  /** The integers `Math.floor(Math.random() * 1_000_000)` can yield. */
  type Draw = n: int | 0 <= n < 1000000

  predicate IsDigit(c: char) {
    '0' <= c <= '9'
  }

  predicate AllDigits(s: string) {
    forall i :: 0 <= i < |s| ==> IsDigit(s[i])
  }

  /** A key `addRow` can produce: exactly six decimal digits. */
  predicate IsNumericKey(s: string) {
    |s| == 6 && AllDigits(s)
  }

  function DigitChar(d: nat): (c: char)
    requires d < 10
    ensures IsDigit(c) && c as int - '0' as int == d
  {
    (d + '0' as int) as char
  }

  function DigitValue(c: char): nat
    requires IsDigit(c)
  {
    c as int - '0' as int
  }

  function Pow10(k: nat): nat {
    if k == 0 then 1 else 10 * Pow10(k - 1)
  }

  /** `n.toString()` for a non-negative integer: decimal digits, no sign, no
      leading zero except for 0 itself. */
  function Decimal(n: nat): (s: string)
    ensures 1 <= |s| && AllDigits(s)
    ensures |s| > 1 ==> s[0] != '0'
  {
    if n < 10 then [DigitChar(n)] else Decimal(n / 10) + [DigitChar(n % 10)]
  }

  /** The number a string of decimal digits denotes, leading zeros allowed. */
  function Value(s: string): nat
    requires AllDigits(s)
  {
    if s == [] then 0 else 10 * Value(s[..|s| - 1]) + DigitValue(s[|s| - 1])
  }

  /** JavaScript's `s.slice(-k)`: the last k characters, or all of s when it
      is shorter than k. */
  function TakeLast(s: string, k: nat): (r: string)
    ensures |r| == if |s| <= k then |s| else k
    ensures r == s[|s| - |r|..]
  {
    if |s| <= k then s else s[|s| - k..]
  }

  /** The candidate key `addRow` derives from a draw. */
  function PadKey(n: Draw): (k: string)
    ensures IsNumericKey(k)
  {
    var s := "00000" + Decimal(n);
    assert AllDigits(s) by {
      forall i | 0 <= i < |s| ensures IsDigit(s[i]) {
        if i >= 5 { assert s[i] == Decimal(n)[i - 5]; }
      }
    }
    var k := TakeLast(s, 6);
    assert forall i :: 0 <= i < |k| ==> k[i] == s[|s| - 6 + i];
    k
  }

  /** Decimal notation reads back as the number it was made from. */
  lemma {:induction false} ValueOfDecimal(n: nat)
    ensures Value(Decimal(n)) == n
  {
    if n >= 10 {
      var s := Decimal(n);
      assert s[..|s| - 1] == Decimal(n / 10);
      ValueOfDecimal(n / 10);
    }
  }

  /** A number below 10^k has at most k decimal digits. */
  lemma {:induction false} DecimalLength(n: nat, k: nat)
    requires 1 <= k && n < Pow10(k)
    ensures |Decimal(n)| <= k
  {
    if n >= 10 {
      assert Pow10(1) == 10;
      DecimalLength(n / 10, k - 1);
    }
  }

  /** A run of zeros denotes 0. */
  lemma {:induction false} ValueOfZeros(z: string)
    requires forall i :: 0 <= i < |z| ==> z[i] == '0'
    ensures AllDigits(z) && Value(z) == 0
  {
    if z != [] {
      ValueOfZeros(z[..|z| - 1]);
    }
  }

  /** Leading zeros do not change the number a digit string denotes. */
  lemma {:induction false} ValueIgnoresLeadingZeros(z: string, s: string)
    requires forall i :: 0 <= i < |z| ==> z[i] == '0'
    requires AllDigits(s)
    ensures AllDigits(z + s) && Value(z + s) == Value(s)
  {
    if s == [] {
      assert z + s == z;
      ValueOfZeros(z);
    } else {
      ValueOfZeros(z);
      var t := z + s;
      assert t[..|t| - 1] == z + s[..|s| - 1];
      assert t[|t| - 1] == s[|s| - 1];
      ValueIgnoresLeadingZeros(z, s[..|s| - 1]);
    }
  }

  /** The padded key of every draw is six decimal digits and denotes the
      draw. */
  lemma PadKeyDenotesDraw(n: Draw)
    ensures IsNumericKey(PadKey(n))
    ensures Value(PadKey(n)) == n
  {
    var d := Decimal(n);
    assert Pow10(6) == 1000000 by {
      assert Pow10(1) == 10;
      assert Pow10(2) == 100;
      assert Pow10(3) == 1000;
      assert Pow10(4) == 10000;
      assert Pow10(5) == 100000;
    }
    DecimalLength(n, 6);
    var zeros := "00000"[|d| - 1..];
    assert PadKey(n) == zeros + d;
    ValueIgnoresLeadingZeros(zeros, d);
    ValueOfDecimal(n);
  }

  /** Distinct draws give distinct keys. */
  lemma PadKeyInjective(m: Draw, n: Draw)
    ensures PadKey(m) == PadKey(n) <==> m == n
  {
    PadKeyDenotesDraw(m);
    PadKeyDenotesDraw(n);
  }

  /** The retry of `addRow`: the index of the first draw whose key is not
      among `existing`, or |draws| when every draw collides. */
  method FirstFreshDraw(existing: seq<string>, draws: seq<Draw>) returns (i: nat)
    ensures i <= |draws|
    ensures forall j :: 0 <= j < i ==> PadKey(draws[j]) in existing
    ensures i < |draws| ==> PadKey(draws[i]) !in existing
  {
    i := 0;
    while i < |draws| && PadKey(draws[i]) in existing
      invariant i <= |draws|
      invariant forall j :: 0 <= j < i ==> PadKey(draws[j]) in existing
    {
      i := i + 1;
    }
  }
}

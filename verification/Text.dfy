/** Characters, decimal numerals and "what stands at a position", shared by the readers and printers.
    Characters outside ASCII are never inspected, so everything here holds of bytes too. */
module Text {
  import opened Arithmetic

  predicate IsSpace(c: char) {
    c == ' ' || '\t' <= c <= '\r'
  }

  predicate IsDigit(c: char) {
    '0' <= c <= '9'
  }

  function LowerChar(c: char): char {
    if 'A' <= c <= 'Z' then c - 'A' + 'a' else c
  }

  function Lower(s: string): (r: string)
    ensures |r| == |s|
  {
    seq(|s|, i requires 0 <= i < |s| => LowerChar(s[i]))
  }

  predicate Blank(s: string) {
    forall i :: 0 <= i < |s| ==> IsSpace(s[i])
  }

  predicate AllDigits(s: string) {
    forall i :: 0 <= i < |s| ==> IsDigit(s[i])
  }

  /** The text `s` stands in `data` at `pos`. */
  predicate At(data: string, pos: nat, s: string) {
    pos + |s| <= |data| && data[pos..pos + |s|] == s
  }

  lemma AtSplit(data: string, pos: nat, a: string, b: string)
    ensures At(data, pos, a + b) <==> At(data, pos, a) && At(data, pos + |a|, b)
  {
    if pos + |a| + |b| <= |data| {
      var whole := data[pos..pos + |a| + |b|];
      assert whole[..|a|] == data[pos..pos + |a|];
      assert whole[|a|..] == data[pos + |a|..pos + |a| + |b|];
      assert whole == whole[..|a|] + whole[|a|..];
      assert (a + b)[..|a|] == a && (a + b)[|a|..] == b;
    }
  }

  lemma AtChar(data: string, pos: nat, s: string, i: nat)
    requires At(data, pos, s) && i < |s|
    ensures pos + i < |data| && data[pos + i] == s[i]
  {
    assert data[pos..pos + |s|][i] == s[i];
  }

  lemma AtWhole(data: string)
    ensures At(data, 0, data)
  {}

  // ----- Decimal numerals -----

  function DigitChar(d: nat): (c: char)
    requires d < 10
    ensures IsDigit(c)
  {
    '0' + d as char
  }

  function DigitValue(c: char): (d: nat)
    requires IsDigit(c)
    ensures d < 10
  {
    (c - '0') as nat
  }

  function NatToString(n: nat): (r: string)
    ensures |r| > 0 && AllDigits(r)
  {
    if n < 10 then [DigitChar(n)] else NatToString(n / 10) + [DigitChar(n % 10)]
  }

  function DigitsValue(s: string): nat
    requires AllDigits(s)
  {
    if s == [] then 0 else 10 * DigitsValue(s[..|s| - 1]) + DigitValue(s[|s| - 1])
  }

  lemma {:induction false} NumeralValue(n: nat)
    ensures DigitsValue(NatToString(n)) == n
  {
    var s := NatToString(n);
    if n >= 10 {
      assert s[..|s| - 1] == NatToString(n / 10);
      NumeralValue(n / 10);
    } else {
      assert s[..0] == [];
    }
  }

  function Zeros(n: nat): (r: string)
    ensures |r| == n && AllDigits(r)
  {
    seq(n, i => '0')
  }

  function Pow10(n: nat): (p: nat)
    ensures p > 0
  {
    if n == 0 then 1 else 10 * Pow10(n - 1)
  }

  lemma NextPower(n: nat)
    ensures Pow10(0) == 1 && Pow10(n + 1) == 10 * Pow10(n)
  {}

  lemma NoDigits(s: string)
    requires s == ""
    ensures AllDigits(s) && DigitsValue(s) == 0
  {}

  lemma LastDigit(s: string)
    requires AllDigits(s) && s != ""
    ensures var n := |s| - 1; AllDigits(s[..n]) && DigitsValue(s) == 10 * DigitsValue(s[..n]) + DigitValue(s[n])
  {}

  /** Digits in front count for as many powers of ten as digits follow. */
  lemma {:induction false} DigitsConcat(a: string, b: string)
    requires AllDigits(a) && AllDigits(b)
    ensures AllDigits(a + b) && DigitsValue(a + b) == DigitsValue(a) * Pow10(|b|) + DigitsValue(b)
    decreases |b|
  {
    hide DigitsValue, Pow10;
    if b == [] {
      assert a + b == a;
      NoDigits(b);
      NextPower(0);
    } else {
      var n := |b| - 1;
      assert (a + b)[..|a| + n] == a + b[..n] && (a + b)[|a| + n] == b[n];
      LastDigit(b);
      DigitsConcat(a, b[..n]);
      LastDigit(a + b);
      NextPower(n);
      TenTimes(DigitsValue(a), Pow10(n));
    }
  }

  lemma {:induction false} ZerosValue(n: nat)
    ensures DigitsValue(Zeros(n)) == 0
  {
    if n > 0 {
      assert Zeros(n)[..n - 1] == Zeros(n - 1);
      ZerosValue(n - 1);
    }
  }

  lemma {:induction false} NumeralLength(n: nat, k: nat)
    requires k > 0
    ensures |NatToString(n)| <= k <==> n < Pow10(k)
    decreases n
  {
    if n >= 10 {
      if k > 1 {
        NumeralLength(n / 10, k - 1);
        assert n / 10 < Pow10(k - 1) <==> n < 10 * Pow10(k - 1);
      } else {
        assert Pow10(1) == 10 by { assert Pow10(0) == 1; }
      }
    } else {
      Pow10AtLeastTen(k);
    }
  }

  lemma {:induction false} Pow10AtLeastTen(k: nat)
    requires k > 0
    ensures Pow10(k) >= 10
  {
    if k > 1 {
      Pow10AtLeastTen(k - 1);
    }
  }

  /** The position behind the blanks, and behind the digits, from `pos` on. */
  function SkipBlanks(data: string, pos: nat): (r: nat)
    ensures pos <= r && (pos <= |data| ==> r <= |data|)
    ensures r < |data| ==> !IsSpace(data[r])
    decreases |data| - pos
  {
    if pos < |data| && IsSpace(data[pos]) then SkipBlanks(data, pos + 1) else pos
  }

  function SkipDigits(data: string, pos: nat): (r: nat)
    ensures pos <= r && (pos <= |data| ==> r <= |data|)
    ensures r < |data| ==> !IsDigit(data[r])
    ensures pos <= |data| ==> AllDigits(data[pos..r])
    decreases |data| - pos
  {
    if pos < |data| && IsDigit(data[pos]) then
      var r := SkipDigits(data, pos + 1);
      assert data[pos..r] == [data[pos]] + data[pos + 1..r];
      r
    else
      assert pos <= |data| ==> data[pos..pos] == [];
      pos
  }

  lemma NoBlanks(data: string, p: nat)
    requires p < |data| && !IsSpace(data[p])
    ensures SkipBlanks(data, p) == p
  {}

  lemma {:induction false} SkipBlanksAt(data: string, pos: nat, w: string)
    requires At(data, pos, w) && Blank(w)
    requires pos + |w| < |data| ==> !IsSpace(data[pos + |w|])
    ensures SkipBlanks(data, pos) == pos + |w|
    decreases |w|
  {
    if w != [] {
      AtChar(data, pos, w, 0);
      assert data[pos + 1..pos + |w|] == data[pos..pos + |w|][1..];
      SkipBlanksAt(data, pos + 1, w[1..]);
    }
  }

  lemma {:induction false} SkipDigitsAt(data: string, pos: nat, s: string)
    requires At(data, pos, s) && AllDigits(s)
    requires pos + |s| < |data| ==> !IsDigit(data[pos + |s|])
    ensures SkipDigits(data, pos) == pos + |s|
    decreases |s|
  {
    if s != [] {
      AtChar(data, pos, s, 0);
      assert data[pos + 1..pos + |s|] == data[pos..pos + |s|][1..];
      SkipDigitsAt(data, pos + 1, s[1..]);
    }
  }
}

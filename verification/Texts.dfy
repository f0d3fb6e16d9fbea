// Numbers as text (stdlib/Texts.Mod:41-74).
module Texts {
  import opened Numbers
  import opened Words

  // ---------- decimal ----------

  function DigitChar(d: int): char
    requires 0 <= d < 16
  {
    "0123456789ABCDEF"[d]
  }

  function DigitValue(c: char): int {
    if '0' <= c <= '9' then c as int - '0' as int else c as int - 'A' as int + 10
  }

  lemma {:induction false} DigitRoundTrip(d: int)
    requires 0 <= d < 16
    ensures DigitValue(DigitChar(d)) == d
    ensures d < 10 ==> DigitChar(d) as int == d + 0x30
    ensures d >= 10 ==> DigitChar(d) as int == d + 0x37
  {
  }

  function Digits(k: nat): (s: string)
    ensures |s| > 0
  {
    if k < 10 then [DigitChar(k)] else Digits(k / 10) + [DigitChar(k % 10)]
  }

  function Numeral(x: int): string {
    if x < 0 then "-" + Digits(-x) else Digits(x)
  }

  function Spaces(k: nat): (s: string)
    ensures |s| == k && forall i :: 0 <= i < k ==> s[i] == ' '
  {
    if k == 0 then "" else " " + Spaces(k - 1)
  }

  lemma {:induction false} OneMoreSpace(k: nat)
    ensures Spaces(k + 1) == Spaces(k) + " "
  {
    if k > 0 {
      OneMoreSpace(k - 1);
    }
  }

  // The least width at which a text takes n characters.
  function Padding(n: int, text: string): (k: nat)
    ensures k + |text| == if n > |text| then n else |text|
  {
    if n > |text| then n - |text| else 0
  }

  // A text in a field of n characters has that width, or its own, and blanks in front.
  lemma {:induction false} RightJustified(before: string, n: int, text: string)
    ensures var out := before + Spaces(Padding(n, text)) + text;
      && |out| == |before| + (if n > |text| then n else |text|)
      && forall i :: |before| <= i < |out| - |text| ==> out[i] == ' '
  {
  }

  // ---------- reading a numeral ----------

  function ValueOf(digits: string): int {
    if digits == "" then 0 else 10 * ValueOf(digits[..|digits| - 1]) + DigitValue(digits[|digits| - 1])
  }

  function Parse(s: string): int {
    if s != "" && s[0] == ' ' then Parse(s[1..])
    else if s != "" && s[0] == '-' then -ValueOf(s[1..])
    else ValueOf(s)
  }

  lemma {:induction false} DigitsParse(k: nat)
    ensures ValueOf(Digits(k)) == k && Digits(k)[0] != ' ' && Digits(k)[0] != '-'
  {
    DigitRoundTrip(k % 10);
    if k < 10 {
      DigitRoundTrip(k);
      assert [DigitChar(k)][..0] == "";
    } else {
      DigitsParse(k / 10);
      assert Digits(k)[..|Digits(k)| - 1] == Digits(k / 10);
    }
  }

  // Whatever the width, the text reads as the number.
  lemma {:induction false} NumeralParses(x: int)
    ensures Parse(Numeral(x)) == x && Numeral(x) != ""
  {
    DigitsParse(if x < 0 then -x else x);
    hide Digits, ValueOf;
    if x < 0 {
      assert Numeral(x)[1..] == Digits(-x);
    }
  }

  lemma {:induction false} PaddedParses(x: int, k: nat)
    ensures Parse(Spaces(k) + Numeral(x)) == x
  {
    NumeralParses(x);
    hide Numeral, ValueOf;
    if k == 0 {
      assert Spaces(0) + Numeral(x) == Numeral(x);
    } else {
      assert (Spaces(k) + Numeral(x))[1..] == Spaces(k - 1) + Numeral(x);
      PaddedParses(x, k - 1);
    }
  }

  function Pow10(n: nat): (p: int)
    ensures p > 0
  {
    if n == 0 then 1 else 10 * Pow10(n - 1)
  }

  lemma {:induction false} DigitCount(k: nat, n: nat)
    requires n > 0 && k < Pow10(n)
    ensures |Digits(k)| <= n
    decreases n
  {
    if k >= 10 {
      DigitCount(k / 10, n - 1);
    }
  }

  // A 64-bit number has at most 19 digits.
  lemma {:induction false} LongDigits(k: nat)
    requires k <= 0x7fff_ffff_ffff_ffff
    ensures |Digits(k)| <= 19
  {
    assert Pow10(4) == 10000;
    assert Pow10(8) == 1_0000_0000;
    assert Pow10(12) == 1_0000_0000_0000;
    assert Pow10(16) == 1_0000_0000_0000_0000;
    assert Pow10(19) == 1000_0000_0000_0000_0000;
    DigitCount(k, 19);
  }

  const LEAST := "-9223372036854775808"

  lemma {:induction false} OneMoreDigit(k: nat, d: nat, s: string)
    requires k > 0 && d < 10 && Digits(k) == s
    ensures Digits(10 * k + d) == s + [DigitChar(d)]
  {
  }

  lemma {:induction false} LeastTo4()
    ensures Digits(9223) == "9223"
  {
  }

  lemma {:induction false} LeastTo7()
    ensures Digits(9223372) == "9223372"
  {
    LeastTo4();
    hide Digits;
    OneMoreDigit(9223, 3, "9223");
    OneMoreDigit(92233, 7, "92233");
    OneMoreDigit(922337, 2, "922337");
  }

  lemma {:induction false} LeastTo10()
    ensures Digits(9223372036) == "9223372036"
  {
    LeastTo7();
    hide Digits;
    OneMoreDigit(9223372, 0, "9223372");
    OneMoreDigit(92233720, 3, "92233720");
    OneMoreDigit(922337203, 6, "922337203");
  }

  lemma {:induction false} LeastTo13()
    ensures Digits(9223372036854) == "9223372036854"
  {
    LeastTo10();
    hide Digits;
    OneMoreDigit(9223372036, 8, "9223372036");
    OneMoreDigit(92233720368, 5, "92233720368");
    OneMoreDigit(922337203685, 4, "922337203685");
  }

  lemma {:induction false} LeastTo16()
    ensures Digits(9223372036854775) == "9223372036854775"
  {
    LeastTo13();
    hide Digits;
    OneMoreDigit(9223372036854, 7, "9223372036854");
    OneMoreDigit(92233720368547, 7, "92233720368547");
    OneMoreDigit(922337203685477, 5, "922337203685477");
  }

  lemma {:induction false} LeastTo19()
    ensures Digits(9223372036854775808) == "9223372036854775808"
  {
    LeastTo16();
    hide Digits;
    OneMoreDigit(9223372036854775, 8, "9223372036854775");
    OneMoreDigit(92233720368547758, 0, "92233720368547758");
    OneMoreDigit(922337203685477580, 8, "922337203685477580");
  }

  lemma {:induction false} LeastNumeral()
    ensures Numeral(-0x8000_0000_0000_0000) == LEAST
  {
    LeastTo19();
    hide Digits;
  }

  // ---------- hexadecimal ----------

  // The last n digits, in two's complement.
  function Hex(x: int, n: nat): (s: string)
    ensures |s| == n
    decreases n
  {
    if n == 0 then "" else Hex(x / 16, n - 1) + [DigitChar(x % 16)]
  }

  function HexValue(s: string): int {
    if s == "" then 0 else 16 * HexValue(s[..|s| - 1]) + DigitValue(s[|s| - 1])
  }

  lemma {:induction false} HexParses(x: int, n: nat)
    ensures HexValue(Hex(x, n)) == x % Pow2(4 * n)
    decreases n
  {
    if n > 0 {
      HexParses(x / 16, n - 1);
      DigitRoundTrip(x % 16);
      assert Hex(x, n)[..n - 1] == Hex(x / 16, n - 1);
      assert Pow2(4) == 16;
      Pow2Add(4, 4 * (n - 1));
      var p := Pow2(4 * (n - 1));
      hide Pow2, Hex;
      ModTwice(x, 16, p);
    }
  }

  // All digits of a word: the number is read back by taking them as a signed word.
  lemma {:induction false} HexRoundTrip(x: int, n: nat)
    requires n > 0 && InWidth(x, 4 * n)
    ensures Wrap(HexValue(Hex(x, n)), 4 * n) == x
  {
    HexParses(x, n);
    WrapMod(x, 4 * n);
    WrapFits(x, 4 * n);
  }

  class Writer {
    var out: string

    constructor ()
      ensures out == ""
    {
      out := "";
    }

    method Write(ch: char)
      modifies this
      ensures out == old(out) + [ch]
    {
      out := out + [ch];
    }

    method WriteString(s: string)
      modifies this
      ensures out == old(out) + s
    {
      var i := 0;
      while i < |s|
        invariant 0 <= i <= |s| && out == old(out) + s[..i]
      {
        Write(s[i]);
        i := i + 1;
      }
    }

    method Pad(width: int, length: nat)
      modifies this
      ensures out == old(out) + Spaces(if width > length then width - length else 0)
    {
      var n := width;
      ghost var k: nat := 0;
      while n > length
        invariant out == old(out) + Spaces(k) && n + k == width && (k > 0 ==> n >= length)
      {
        OneMoreSpace(k);
        Write(' ');
        n := n - 1;
        k := k + 1;
      }
    }

    // The numeral of x, to the right of a field of n characters.
    method WriteInt(x: int, n: int)
      requires InWidth(x, 64)
      modifies this
      ensures out == old(out) + Spaces(Padding(n, Numeral(x))) + Numeral(x)
      ensures |out| == |old(out)| + (if n > |Numeral(x)| then n else |Numeral(x)|)
      ensures forall i :: |old(out)| <= i < |out| - |Numeral(x)| ==> out[i] == ' '
    {
      hide Digits, Spaces, Padding;
      Powers();
      HalfIs(64);
      if x == -0x8000_0000_0000_0000 {
        LeastNumeral();
        Pad(n, 20);
        WriteString(LEAST);
      } else {
        hide Pow2, InWidth;
        WriteDigits(if x < 0 then -x else x, x < 0, n);
      }
      RightJustified(old(out), n, Numeral(x));
    }

    // The digits go through an array of 20 characters (Texts.Mod:50-57).
    method WriteDigits(k: nat, negative: bool, n: int)
      requires k <= 0x7fff_ffff_ffff_ffff
      modifies this
      ensures var s := (if negative then "-" else "") + Digits(k); out == old(out) + Spaces(Padding(n, s)) + s
    {
      hide Digits, Spaces;
      var a := new char[20];
      LongDigits(k);
      var i := FillDigits(a, k);
      Pad(if negative then n - 1 else n, i);
      ghost var padded := out;
      if negative {
        Write('-');
      }
      assert out == padded + (if negative then "-" else "");
      WriteBackwards(a, i, Digits(k));
      assert out == padded + ((if negative then "-" else "") + Digits(k));
    }

    // Digits from the last one on (Texts.Mod:51-53).
    method FillDigits(a: array<char>, k: nat) returns (i: nat)
      requires |Digits(k)| <= a.Length
      modifies a
      ensures i == |Digits(k)| && forall m :: 0 <= m < i ==> a[m] == Digits(k)[i - 1 - m]
    {
      var x0 := k;
      ghost var all, done := Digits(k), "";
      i := 0;
      var more := true;
      while more
        invariant i <= |all| && |done| == i
        invariant more ==> all == Digits(x0) + done
        invariant !more ==> all == done
        invariant forall m :: 0 <= m < i ==> a[m] == done[i - 1 - m]
        decreases more, x0
      {
        DigitRoundTrip(x0 % 10);
        a[i] := (x0 % 10 + 0x30) as char;
        done := [a[i]] + done;
        assert x0 >= 10 ==> Digits(x0) == Digits(x0 / 10) + [a[i]];
        more := x0 / 10 != 0;
        x0 := x0 / 10;
        i := i + 1;
      }
    }

    method WriteBackwards(a: array<char>, n: nat, ghost s: string)
      requires 0 < n <= a.Length && |s| == n && forall k :: 0 <= k < n ==> a[n - 1 - k] == s[k]
      modifies this
      ensures out == old(out) + s
    {
      var i := n;
      while i > 0
        invariant 0 <= i <= n && out == old(out) + s[..n - i]
      {
        i := i - 1;
        assert s[..n - i] == s[..n - i - 1] + [s[n - 1 - i]];
        Write(a[i]);
      }
      assert s[..n] == s;
    }

    // WriteHexHelper
    method WriteHex(x: int, n: nat)
      requires 0 < n <= 16
      modifies this
      ensures out == old(out) + Hex(x, n)
    {
      var a := new char[16];
      var y := x;
      for i := 0 to 16
        invariant out == old(out) && forall m :: 0 <= m < i ==> a[m] == DigitChar(Shift(x, m) % 16)
        invariant y == Shift(x, i)
      {
        var d := y % 16;
        DigitRoundTrip(d);
        a[i] := if d < 10 then (d + 0x30) as char else (d + 0x37) as char;
        y := y / 16;
        ShiftNext(x, i);
      }
      HexAt(x, n);
      forall k | 0 <= k < n ensures a[n - 1 - k] == Hex(x, n)[k] {
        assert Hex(x, n)[n - 1 - (n - 1 - k)] == DigitChar(Shift(x, n - 1 - k) % 16);
      }
      WriteBackwards(a, n, Hex(x, n));
    }
  }

  // x without its last m digits.
  function Shift(x: int, m: nat): int
    decreases m
  {
    if m == 0 then x else Shift(x / 16, m - 1)
  }

  lemma {:induction false} ShiftNext(x: int, m: nat)
    ensures Shift(x, m + 1) == Shift(x, m) / 16
    decreases m
  {
    if m > 0 {
      ShiftNext(x / 16, m - 1);
    }
  }

  lemma {:induction false} HexAt(x: int, n: nat)
    ensures forall k :: 0 <= k < n ==> Hex(x, n)[n - 1 - k] == DigitChar(Shift(x, k) % 16)
    decreases n
  {
    if n > 0 {
      HexAt(x / 16, n - 1);
      forall k | 0 <= k < n ensures Hex(x, n)[n - 1 - k] == DigitChar(Shift(x, k) % 16) {
        if k > 0 {
          assert Hex(x / 16, n - 1)[n - 1 - 1 - (k - 1)] == DigitChar(Shift(x / 16, k - 1) % 16);
        }
      }
    }
  }
}

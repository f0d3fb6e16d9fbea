// Numbers in files (stdlib/Files.Mod:259-334, 396-456).
module Files {
  import opened Numbers
  import opened Words

  type Byte = b: int | 0 <= b < 256

  // ---------- the compressed format ----------

  function Size(x: int): nat {
    if x < 0 then -x else x
  }

  // Seven bits a byte, low bits first; all bytes but the last are marked.
  function Encoding(x: int): (bs: seq<Byte>)
    ensures |bs| > 0
    decreases Size(x)
  {
    if -64 <= x <= 63 then [x % 128] else [x % 128 + 128] + Encoding(x / 128)
  }

  // A number in a file: marked bytes and an unmarked one.
  predicate IsNumber(bs: seq<Byte>) {
    |bs| > 0 && bs[|bs| - 1] < 128 && forall i :: 0 <= i < |bs| - 1 ==> bs[i] >= 128
  }

  // The last byte counts from -64 to 63.
  function Digit(b: Byte): int {
    b % 64 - b / 64 * 64
  }

  function Decoding(bs: seq<Byte>): int
    requires IsNumber(bs)
  {
    if |bs| == 1 then Digit(bs[0]) else bs[0] - 128 + 128 * Decoding(bs[1..])
  }

  lemma {:induction false} DecodingOfEncoding(x: int)
    ensures IsNumber(Encoding(x)) && Decoding(Encoding(x)) == x
    decreases Size(x)
  {
    if !(-64 <= x <= 63) {
      DecodingOfEncoding(x / 128);
      assert Encoding(x)[1..] == Encoding(x / 128);
    }
  }

  // No shorter text decodes to the same number.
  lemma {:induction false} EncodingIsShortest(bs: seq<Byte>)
    requires IsNumber(bs)
    ensures |Encoding(Decoding(bs))| <= |bs|
    decreases |bs|
  {
    if |bs| > 1 {
      EncodingIsShortest(bs[1..]);
      QuotientIs(Decoding(bs), 128, Decoding(bs[1..]), bs[0] - 128);
    }
  }

  // k bytes hold the numbers of 7k bits.
  lemma {:induction false} EncodingLength(x: int, k: nat)
    requires k > 0
    ensures |Encoding(x)| <= k <==> InWidth(x, 7 * k)
    decreases k
  {
    HalfIs(7 * k);
    if k == 1 {
      Powers();
    } else {
      Powers();
      Pow2Add(7, 7 * (k - 1));
      HalfIs(7 * (k - 1));
      EncodingLength(x / 128, k - 1);
      assert x == x / 128 * 128 + x % 128;
      Pow2Monotone(6, 7 * (k - 1) - 1);
    }
  }

  lemma {:induction false} TenBytesAreEnough(x: int)
    requires InWidth(x, 64)
    ensures |Encoding(x)| <= 10
  {
    Pow2Monotone(64, 70);
    HalfIs(64);
    HalfIs(70);
    EncodingLength(x, 10);
  }

  // ---------- reading and writing at a position ----------

  // The bytes of the number at pos; a file that ends within it is read as if it went on
  // with a zero.
  ghost function Taken(file: seq<Byte>, pos: nat): (bs: seq<Byte>)
    ensures IsNumber(bs)
    decreases |file| - pos
  {
    if pos >= |file| then [0]
    else if file[pos] < 128 then [file[pos]]
    else [file[pos]] + Taken(file, pos + 1)
  }

  lemma {:induction false} TakenIs(file: seq<Byte>, pos: nat, bs: seq<Byte>)
    requires IsNumber(bs) && pos + |bs| <= |file| && file[pos..pos + |bs|] == bs
    ensures Taken(file, pos) == bs
    decreases |bs|
  {
    assert file[pos] == file[pos..pos + |bs|][0];
    if |bs| > 1 {
      assert file[pos + 1..pos + |bs|] == file[pos..pos + |bs|][1..];
      TakenIs(file, pos + 1, bs[1..]);
    }
  }

  function Written(file: seq<Byte>, pos: nat, bs: seq<Byte>): seq<Byte>
    requires pos <= |file|
  {
    file[..pos] + bs + (if pos + |bs| <= |file| then file[pos + |bs|..] else [])
  }

  // A shift to the left, in 64 bits. A shift by 64 or more, which no number of up to ten
  // bytes asks for, has no defined result; 0 stands for it.
  function Lsl(v: int, s: nat): int {
    if s < 64 then Wrap(v * Pow2(s), 64) else 0
  }

  class Rider {
    var file: seq<Byte>
    var pos: nat

    constructor (file: seq<Byte>)
      ensures this.file == file && pos == 0
    {
      this.file, pos := file, 0;
    }

    method Read() returns (x: Byte)
      modifies this`pos
      ensures if old(pos) < |file| then x == file[old(pos)] && pos == old(pos) + 1 else x == 0 && pos == old(pos)
    {
      x := 0;
      if pos < |file| {
        x := file[pos];
        pos := pos + 1;
      }
    }

    method Write(x: Byte)
      requires pos <= |file|
      modifies this
      ensures file == Written(old(file), old(pos), [x]) && pos == old(pos) + 1 <= |file|
    {
      file := if pos < |file| then file[pos := x] else file + [x];
      pos := pos + 1;
      assert file == Written(old(file), old(pos), [x]);
    }

    method WriteNum(n: int)
      requires pos <= |file|
      modifies this
      ensures file == Written(old(file), old(pos), Encoding(n)) && pos == old(pos) + |Encoding(n)| <= |file|
    {
      hide Encoding, Written, Size;
      var x := n;
      ghost var first, start := file, pos;
      ghost var done: seq<Byte> := [];
      WrittenNothing(file, pos);
      assert done + Encoding(x) == Encoding(n);
      while x < -64 || x > 63
        invariant start + |done| == pos <= |file| && file == Written(first, start, done)
        invariant done + Encoding(x) == Encoding(n)
        decreases Size(x)
      {
        Write(x % 128 + 128);
        WrittenOn(first, start, done, x % 128 + 128);
        NumStep(done, x);
        done := done + [x % 128 + 128];
        x := x / 128;
      }
      Write(x % 128);
      WrittenOn(first, start, done, x % 128);
      LastByte(done, x);
    }

    // trapped tells whether an overflow check in the arithmetic would have stopped the
    // program; without the checks the arithmetic wraps.
    method ReadNum() returns (x: int, trapped: bool)
      requires pos <= |file|
      modifies this`pos
      ensures pos == Min(old(pos) + |Taken(file, old(pos))|, |file|)
      ensures |Taken(file, old(pos))| <= 10 ==> x == Wrap(Decoding(Taken(file, old(pos))), 64)
      ensures |Taken(file, old(pos))| <= 10 ==> (trapped <==> Overflowing(Taken(file, old(pos))))
    {
      hide Wrap, Pow2, Taken, Partial, Overflowing, Digit;
      ghost var all := Taken(file, pos);
      var n, s: nat := 0, 0;
      ghost var rest, k: nat, m: nat := all, 0, 0;
      trapped := false;
      NoGroups(all);
      TakenStep(file, pos);
      var ch := Read();
      while ch >= 128
        invariant rest == Taken(file, old(pos) + k) && old(pos) + k <= |file| && ch == rest[0]
        invariant pos == Min(old(pos) + k + 1, |file|) && Partial(all, rest, k, s, m)
        invariant |all| <= 10 ==> n == m && !trapped
        decreases |rest|
      {
        OneMoreGroup(all, rest, k, s, m);
        TakenStep(file, old(pos) + k);
        TakenStep(file, old(pos) + k + 1);
        n, trapped := AddGroup(n, s, ch, trapped);
        m := m + (ch - 128) * Pow2(s);
        s := s + 7;
        ch := Read();
        rest, k := rest[1..], k + 1;
      }
      TakenStep(file, old(pos) + k);
      LastGroup(all, rest, k, s, m);
      x, trapped := AddLast(n, s, ch, trapped);
    }

    // INC(n, LSL(ch - 128, s))
    method AddGroup(n: int, s: nat, ch: Byte, trapped: bool) returns (sum: int, trapped': bool)
      requires ch >= 128
      ensures s <= 56 && 0 <= n < Pow2(s) && !trapped ==> sum == n + (ch - 128) * Pow2(s) && !trapped'
    {
      var shifted := Lsl(ch - 128, s);
      trapped' := trapped || !InWidth(n + shifted, 64);
      sum := Wrap(n + shifted, 64);
      if s <= 56 && 0 <= n < Pow2(s) && !trapped {
        SmallShift(n, ch - 128, s);
      }
    }

    method AddLast(n: int, s: nat, ch: Byte, trapped: bool) returns (x: int, trapped': bool)
      requires ch < 128
      ensures s <= 63 && s % 7 == 0 && 0 <= n < Pow2(s) && !trapped ==>
        x == Wrap(n + Pow2(s) * Digit(ch), 64) && (trapped' <==> s == 63 && Digit(ch) < 0 && Digit(ch) % 2 == 1)
    {
      hide Wrap, InWidth, Lsl, Pow2;
      var y := ch % 64 - ch / 64 * 64;
      var z;
      trapped' := trapped;
      if y < 0 {
        var shifted := Lsl(-y, s);
        trapped' := trapped' || !InWidth(-shifted, 64);
        z := Wrap(-shifted, 64);
      } else {
        z := Lsl(y, s);
      }
      trapped' := trapped' || !InWidth(n + z, 64);
      x := Wrap(n + z, 64);
      if s <= 63 && s % 7 == 0 && 0 <= n < Pow2(s) && !trapped {
        LastShift(n, s, y);
      }
    }
  }

  // After k groups with the sum m, the rest is still to be read.
  ghost predicate Partial(all: seq<Byte>, rest: seq<Byte>, k: nat, s: nat, m: nat) {
    && IsNumber(all) && IsNumber(rest) && k + |rest| == |all| && s == 7 * k && rest[|rest| - 1] == all[|all| - 1]
    && Decoding(all) == m + Pow2(s) * Decoding(rest) && m < Pow2(s)
  }

  function Min(a: nat, b: nat): nat {
    if a < b then a else b
  }

  lemma {:induction false} TakenStep(file: seq<Byte>, p: nat)
    ensures Taken(file, p)[0] == if p < |file| then file[p] else 0
    ensures Taken(file, p)[0] >= 128 ==> p < |file| && |Taken(file, p)| > 1 && Taken(file, p)[1..] == Taken(file, p + 1)
    ensures Taken(file, p)[0] < 128 ==> |Taken(file, p)| == 1 && Decoding(Taken(file, p)) == Digit(Taken(file, p)[0])
  {
  }

  // The one overflow in reading up to ten bytes: the tenth is negative and odd, and the
  // shift by 63 makes it the least number, whose negation does not fit.
  predicate Overflowing(bs: seq<Byte>)
    requires |bs| > 0
  {
    |bs| == 10 && Digit(bs[9]) < 0 && Digit(bs[9]) % 2 == 1
  }

  lemma {:induction false} WrittenNothing(file: seq<Byte>, pos: nat)
    requires pos <= |file|
    ensures Written(file, pos, []) == file
  {
  }

  // The byte that is written next, and what is left of the number.
  lemma {:induction false} NumStep(done: seq<Byte>, x: int)
    requires x < -64 || x > 63
    ensures Size(x / 128) < Size(x) && done + [x % 128 + 128] + Encoding(x / 128) == done + Encoding(x)
  {
  }

  lemma {:induction false} LastByte(done: seq<Byte>, x: int)
    requires -64 <= x <= 63
    ensures done + [x % 128] == done + Encoding(x)
  {
  }

  lemma {:induction false} WrittenOn(file: seq<Byte>, pos: nat, bs: seq<Byte>, b: Byte)
    requires pos <= |file|
    ensures pos + |bs| <= |Written(file, pos, bs)|
    ensures Written(Written(file, pos, bs), pos + |bs|, [b]) == Written(file, pos, bs + [b])
  {
  }

  lemma {:induction false} NoGroups(all: seq<Byte>)
    requires IsNumber(all)
    ensures Partial(all, all, 0, 0, 0)
  {
  }

  lemma {:induction false} OneMoreGroup(all: seq<Byte>, rest: seq<Byte>, k: nat, s: nat, m: nat)
    requires Partial(all, rest, k, s, m) && rest[0] >= 128
    ensures |rest| > 1 && 0 <= (rest[0] - 128) * Pow2(s) && m < Pow2(s)
    ensures Partial(all, rest[1..], k + 1, s + 7, m + (rest[0] - 128) * Pow2(s))
    ensures |all| <= 10 ==> s <= 56
  {
    hide Pow2, Decoding;
    Powers();
    Pow2Add(7, s);
    var g, p, d := rest[0] - 128, Pow2(s), Decoding(rest[1..]);
    Unfold(rest);
    hide Pow2, Decoding;
    Regroup(p, g, 128, d);
    MulMonotone(0, g, p);
    MulMonotone(g, 127, p);
    assert rest[1..][|rest| - 2] == rest[|rest| - 1];
  }

  lemma {:induction false} LastGroup(all: seq<Byte>, rest: seq<Byte>, k: nat, s: nat, m: nat)
    requires Partial(all, rest, k, s, m) && rest[0] < 128
    ensures s % 7 == 0 && 0 <= m < Pow2(s) && (|all| <= 10 ==> s <= 63) && Decoding(all) == m + Pow2(s) * Digit(rest[0])
    ensures |rest| == 1 && k + 1 == |all|
    ensures |all| <= 10 ==> (Overflowing(all) <==> s == 63 && Digit(rest[0]) < 0 && Digit(rest[0]) % 2 == 1)
  {
  }

  lemma {:induction false} Regroup(p: int, g: int, c: int, d: int)
    ensures p * (g + c * d) == g * p + c * p * d
  {
  }

  lemma {:induction false} Unfold(bs: seq<Byte>)
    requires IsNumber(bs) && |bs| > 1
    ensures IsNumber(bs[1..]) && Decoding(bs) == bs[0] - 128 + 128 * Decoding(bs[1..])
  {
  }

  // While fewer than nine groups have been added, 64 bits are enough.
  lemma {:induction false} SmallShift(m: nat, g: int, s: nat)
    requires m < Pow2(s) && 0 <= g < 128 && s <= 56
    ensures Lsl(g, s) == g * Pow2(s)
    ensures InWidth(m + g * Pow2(s), 64) && Wrap(m + g * Pow2(s), 64) == m + g * Pow2(s)
  {
    NextPower(s);
    Pow2Monotone(s + 7, 63);
    HalfIs(64);
    GroupBound(m, g, Pow2(s), Half(64));
    assert Lsl(g, s) == Wrap(g * Pow2(s), 64);
    hide Pow2, Wrap, Lsl, Half;
    WrapFits(g * Pow2(s), 64);
    WrapFits(m + g * Pow2(s), 64);
  }

  lemma {:induction false} GroupBound(m: int, g: int, p: int, top: int)
    requires 0 <= m < p && 0 <= g < 128 && 128 * p <= top
    ensures 0 <= g * p && m + g * p < top
  {
  }

  // The last group, of weight 2^s.
  lemma {:induction false} LastShift(m: nat, s: nat, y: int)
    requires m < Pow2(s) && -64 <= y <= 63 && s <= 63 && s % 7 == 0
    ensures var shifted := Lsl(if y < 0 then -y else y, s);
      var z := if y < 0 then Wrap(-shifted, 64) else shifted;
      && Wrap(m + z, 64) == Wrap(m + Pow2(s) * y, 64)
      && ((y < 0 && !InWidth(-shifted, 64)) || !InWidth(m + z, 64) <==> s == 63 && y < 0 && y % 2 == 1)
  {
    HalfIs(64);
    Powers();
    if s < 63 {
      SmallLast(m, s, y);
    } else {
      TopLast(m, y);
    }
  }

  lemma {:induction false} SmallLast(m: nat, s: nat, y: int)
    requires m < Pow2(s) && -64 <= y <= 63 && s <= 56
    ensures Lsl(if y < 0 then -y else y, s) == (if y < 0 then -y else y) * Pow2(s)
    ensures InWidth(y * Pow2(s), 64) && InWidth(-(y * Pow2(s)), 64) && InWidth(m + y * Pow2(s), 64)
    ensures Wrap(y * Pow2(s), 64) == y * Pow2(s) && -((-y) * Pow2(s)) == y * Pow2(s) && Pow2(s) * y == y * Pow2(s)
  {
    Powers();
    Pow2Monotone(s, 56);
    Pow2Add(7, 56);
    HalfIs(64);
    var p := Pow2(s);
    hide Pow2;
    MulMonotone(-64, y, p);
    MulMonotone(y, 64, p);
    MulDistributes(y, -y, p);
    WrapFits(y * p, 64);
    WrapFits((-y) * p, 64);
  }

  // At weight 2^63 only the lowest bit counts.
  lemma {:induction false} TopLast(m: nat, y: int)
    requires m < Pow2(63)
    ensures var a := if y < 0 then -y else y;
      var z := if y < 0 then Wrap(-Lsl(a, 63), 64) else Lsl(a, 63);
      && Wrap(m + z, 64) == Wrap(m + Pow2(63) * y, 64)
      && ((y < 0 && !InWidth(-Lsl(a, 63), 64)) || !InWidth(m + z, 64) <==> y < 0 && y % 2 == 1)
  {
    hide Pow2, Wrap, Lsl, Half;
    TopBit(if y < 0 then -y else y);
    TopSum(m, y);
    Powers();
    HalfIs(64);
    var low := if y % 2 == 0 then 0 else -0x8000_0000_0000_0000;
    WrapFits(low, 64);
    WrapSame(low, 1, 64);
    hide Pow2, Wrap, Lsl;
  }

  lemma {:induction false} TopSum(m: int, y: int)
    ensures Wrap(m + Pow2(63) * y, 64) == Wrap(m + if y % 2 == 0 then 0 else -0x8000_0000_0000_0000, 64)
  {
    Powers();
    var low := if y % 2 == 0 then 0 else -0x8000_0000_0000_0000;
    var q := if y % 2 == 0 then y / 2 else y / 2 + 1;
    WrapSame(m + low, q, 64);
    hide Pow2, Wrap;
    assert m + Pow2(63) * y == m + low + q * Pow2(64);
  }

  lemma {:induction false} TopBit(a: nat)
    ensures Lsl(a, 63) == if a % 2 == 0 then 0 else -0x8000_0000_0000_0000
  {
    Powers();
    HalfIs(64);
    var low := if a % 2 == 0 then 0 else -0x8000_0000_0000_0000;
    var q := if a % 2 == 0 then a / 2 else a / 2 + 1;
    assert a * Pow2(63) == low + q * Pow2(64);
    WrapSame(low, q, 64);
    WrapFits(low, 64);
  }


  // ---------- round trips ----------

  lemma {:induction false} LastDigit(x: int)
    ensures Digit(Encoding(x)[|Encoding(x)| - 1]) == x / Pow2(7 * (|Encoding(x)| - 1))
    decreases Size(x)
  {
    if !(-64 <= x <= 63) {
      LastDigit(x / 128);
      var e := Encoding(x / 128);
      assert Encoding(x) == [x % 128 + 128] + e;
      hide Encoding, Digit;
      assert Encoding(x)[|e|] == e[|e| - 1];
      NextPower(7 * (|e| - 1));
      hide Pow2;
      DivideTwice(x, 128, Pow2(7 * (|e| - 1)));
    }
  }

  lemma {:induction false} NextPower(s: nat)
    ensures Pow2(s + 7) == 128 * Pow2(s)
  {
    Powers();
    Pow2Add(7, s);
  }

  // Of the 64-bit numbers, reading overflows for those below -2^62, and for no others.
  lemma {:induction false} EncodingOverflowsIff(x: int)
    requires InWidth(x, 64)
    ensures Overflowing(Encoding(x)) <==> x < -0x4000_0000_0000_0000
  {
    hide Pow2, Encoding, Digit, Half;
    Powers();
    HalfIs(64);
    HalfIs(63);
    TenBytesAreEnough(x);
    EncodingLength(x, 9);
    LastDigit(x);
    hide Digit, Pow2, Encoding;
    if x < 0 {
      QuotientIs(x, 0x8000_0000_0000_0000, -1, x + 0x8000_0000_0000_0000);
    } else {
      QuotientIs(x, 0x8000_0000_0000_0000, 0, x);
    }
  }

  function Encodings(xs: seq<int>): seq<Byte> {
    if xs == [] then [] else Encoding(xs[0]) + Encodings(xs[1..])
  }

  lemma {:induction false} Regrouped(a: seq<Byte>, b: seq<Byte>, c: seq<Byte>)
    ensures a + b + c == a + (b + c)
  {
  }

  lemma {:induction false} EncodingsAppend(a: seq<int>, b: seq<int>)
    ensures Encodings(a + b) == Encodings(a) + Encodings(b)
    decreases |a|
  {
    hide Encoding;
    if a == [] {
      assert a + b == b;
    } else {
      EncodingsAppend(a[1..], b);
      assert (a + b)[0] == a[0] && (a + b)[1..] == a[1..] + b;
      Regrouped(Encoding(a[0]), Encodings(a[1..]), Encodings(b));
    }
  }

  lemma {:induction false} EncodingsSplit(xs: seq<int>, i: nat)
    requires i < |xs|
    ensures Encodings(xs[i..]) == Encoding(xs[i]) + Encodings(xs[i + 1..])
    ensures Encodings(xs[..i + 1]) == Encodings(xs[..i]) + Encoding(xs[i])
  {
    hide Encoding;
    assert xs[i..][0] == xs[i] && xs[i..][1..] == xs[i + 1..];
    assert xs[..i + 1] == xs[..i] + [xs[i]] && [xs[i]][1..] == [];
    EncodingsAppend(xs[..i], [xs[i]]);
    assert Encodings([xs[i]]) == Encoding(xs[i]) + Encodings([]);
  }

  // Any 64-bit numbers that are written to a file are read back from it, one by one and
  // byte for byte; overflow checks stop the reading just when one is below -2^62.
  method WriteAndReadNums(xs: seq<int>) returns (ys: seq<int>, trapped: bool)
    requires forall i :: 0 <= i < |xs| ==> InWidth(xs[i], 64)
    ensures ys == xs
    ensures trapped <==> exists i :: 0 <= i < |xs| && xs[i] < -0x4000_0000_0000_0000
  {
    hide Encoding, Taken, Decoding, InWidth, Wrap, Overflowing, IsNumber;
    var r := new Rider([]);
    assert xs[..0] == [];
    for i := 0 to |xs|
      invariant r.pos == |r.file| && r.file == Encodings(xs[..i])
    {
      EncodingsSplit(xs, i);
      r.WriteNum(xs[i]);
    }
    assert xs[..|xs|] == xs && xs[0..] == xs;
    r.pos := 0;
    ys, trapped := [], false;
    for i := 0 to |xs|
      invariant r.pos <= |r.file| && r.file == Encodings(xs) && r.file[r.pos..] == Encodings(xs[i..])
      invariant ys == xs[..i]
      invariant trapped <==> exists k :: 0 <= k < i && xs[k] < -0x4000_0000_0000_0000
    {
      EncodingsSplit(xs, i);
      var x, t := ReadBack(r, xs[i], Encodings(xs[i + 1..]));
      ys := ys + [x];
      trapped := trapped || t;
    }
  }

  method ReadBack(r: Rider, ghost n: int, ghost rest: seq<Byte>) returns (x: int, trapped: bool)
    requires InWidth(n, 64) && r.pos <= |r.file| && r.file[r.pos..] == Encoding(n) + rest
    modifies r`pos
    ensures x == n && (trapped <==> n < -0x4000_0000_0000_0000)
    ensures r.pos <= |r.file| && r.file[r.pos..] == rest
  {
    hide Encoding, Taken, Decoding, Wrap, InWidth, Overflowing, IsNumber;
    ghost var e := Encoding(n);
    DecodingOfEncoding(n);
    assert r.file[r.pos..r.pos + |e|] == r.file[r.pos..][..|e|] == e;
    TakenIs(r.file, r.pos, e);
    TenBytesAreEnough(n);
    EncodingOverflowsIff(n);
    WrapFits(n, 64);
    assert r.file[r.pos + |e|..] == r.file[r.pos..][|e|..] == rest;
    x, trapped := r.ReadNum();
  }

  // ---------- numbers of a fixed size ----------

  // The low k bytes of a number, low byte first.
  function Bytes(x: int, k: nat): (bs: seq<Byte>)
    ensures |bs| == k
    decreases k
  {
    if k == 0 then [] else [x % 256] + Bytes(x / 256, k - 1)
  }

  function Number(bs: seq<Byte>): nat {
    if bs == [] then 0 else bs[0] + 256 * Number(bs[1..])
  }

  lemma {:induction false} NumberOfBytes(x: int, k: nat)
    ensures Number(Bytes(x, k)) == x % Pow2(8 * k)
    decreases k
  {
    if k > 0 {
      NumberOfBytes(x / 256, k - 1);
      assert Bytes(x, k)[1..] == Bytes(x / 256, k - 1);
      Powers();
      Pow2Add(8, 8 * (k - 1));
      var p := Pow2(8 * (k - 1));
      hide Pow2, Bytes, Number;
      ModTwice(x, 256, p);
    }
  }

  method EncodeInt(num: int, data: array<Byte>)
    modifies data
    ensures data[..] == Bytes(num, data.Length)
  {
    var n := num;
    for i := 0 to data.Length
      invariant data[..i] + Bytes(n, data.Length - i) == Bytes(num, data.Length)
    {
      data[i] := n % 256;
      assert data[..i + 1] == data[..i] + [n % 256];
      n := n / 256;
    }
    assert data[..data.Length] == data[..];
  }

  method DecodeInt(data: array<Byte>) returns (num: int)
    requires data.Length <= 8
    ensures num == Wrap(Number(data[..]), 64)
  {
    hide Wrap, Pow2, Lsl, Number;
    num := 0;
    ghost var sum: nat := 0;
    assert data[0..] == data[..];
    StartSum(data[..]);
    for i := 0 to data.Length
      invariant num == Wrap(sum, 64)
      invariant Number(data[..]) == sum + Pow2(8 * i) * Number(data[i..])
    {
      assert data[i..][1..] == data[i + 1..];
      NextByte(num, sum, data[i..], i);
      num := Wrap(num + Lsl(data[i], 8 * i), 64);
      sum := sum + data[i] * Pow2(8 * i);
    }
    EndSum(data[data.Length..], data.Length);
  }

  lemma {:induction false} StartSum(bs: seq<Byte>)
    ensures 0 == Wrap(0, 64) && Number(bs) == 0 + Pow2(8 * 0) * Number(bs)
  {
    HalfIs(64);
    WrapFits(0, 64);
  }

  lemma {:induction false} EndSum(bs: seq<Byte>, i: nat)
    requires bs == []
    ensures Pow2(8 * i) * Number(bs) == 0
  {
  }

  lemma {:induction false} NextByte(num: int, sum: nat, rest: seq<Byte>, i: nat)
    requires num == Wrap(sum, 64) && rest != [] && i < 8
    ensures Wrap(num + Lsl(rest[0], 8 * i), 64) == Wrap(sum + rest[0] * Pow2(8 * i), 64)
    ensures sum + Pow2(8 * i) * Number(rest) == sum + rest[0] * Pow2(8 * i) + Pow2(8 * (i + 1)) * Number(rest[1..])
    ensures 0 <= rest[0] * Pow2(8 * i)
  {
    hide Pow2, Wrap;
    Powers();
    Pow2Add(8, 8 * i);
    var b: int, p, d := rest[0], Pow2(8 * i), Number(rest[1..]);
    assert Lsl(b, 8 * i) == Wrap(b * p, 64);
    WrapAdd(sum, Lsl(b, 8 * i), 64);
    WrapAdd(b * p, sum, 64);
    assert Number(rest) == b + 256 * d;
    hide Wrap, Pow2, Number, Lsl;
    Regroup(p, b, 256, d);
    MulMonotone(0, b, p);
  }

  // A number of k bytes that is written and read back, and reinterpreted as one of k
  // bytes, is the number.
  method WriteAndReadInt(x: int, k: nat) returns (y: int)
    requires 0 < k <= 8 && InWidth(x, 8 * k)
    ensures y == x
  {
    var data := new Byte[k];
    EncodeInt(x, data);
    var num := DecodeInt(data);
    y := Wrap(num, 8 * k);
    NumberOfBytes(x, k);
    FixedSize(x, k);
  }

  lemma {:induction false} FixedSize(x: int, k: nat)
    requires 0 < k <= 8 && InWidth(x, 8 * k)
    ensures Wrap(Wrap(x % Pow2(8 * k), 64), 8 * k) == x
  {
    var p, r := Pow2(8 * k), x % Pow2(8 * k);
    WrapMod(x, 8 * k);
    WrapFits(x, 8 * k);
    Pow2Add(64 - 8 * k, 8 * k);
    var c := WrapDiffers(r, 64);
    MulAssociates(c, Pow2(64 - 8 * k), p);
    WrapSame(Wrap(r, 64), c * Pow2(64 - 8 * k), 8 * k);
  }
}

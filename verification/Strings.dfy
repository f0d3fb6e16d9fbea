// Editing strings in place (stdlib/Strings.Mod). A string ends before its first NUL, or
// with its array.
module Strings {
  const NUL: char := '\0'

  function StrLen(s: seq<char>): (n: nat)
    ensures n <= |s| && NUL !in s[..n] && (n < |s| ==> s[n] == NUL)
  {
    if s == [] || s[0] == NUL then 0
    else
      var m := StrLen(s[1..]);
      assert s[..m + 1] == [s[0]] + s[1..][..m];
      m + 1
  }

  function Text(s: seq<char>): seq<char> {
    s[..StrLen(s)]
  }

  predicate Terminated(s: seq<char>) {
    StrLen(s) < |s|
  }

  lemma {:induction false} StrLenIs(s: seq<char>, n: nat)
    requires n <= |s| && NUL !in s[..n] && (n < |s| ==> s[n] == NUL)
    ensures StrLen(s) == n && Text(s) == s[..n]
  {
    var m := StrLen(s);
    assert forall k :: 0 <= k < n ==> s[..n][k] == s[k];
    assert forall k :: 0 <= k < m ==> s[..m][k] == s[k];
  }

  // A text and its NUL laid over the beginning of an array.
  function Laid(before: seq<char>, text: seq<char>): seq<char>
    requires |text| < |before|
  {
    text + [NUL] + before[|text| + 1..]
  }

  lemma {:induction false} LaidText(before: seq<char>, text: seq<char>)
    requires |text| < |before| && NUL !in text
    ensures Text(Laid(before, text)) == text && Terminated(Laid(before, text))
  {
    StrLenIs(Laid(before, text), |text|);
    assert Laid(before, text)[..|text|] == text;
  }

  lemma {:induction false} LaidIs(before: seq<char>, text: seq<char>, d: seq<char>)
    requires |text| < |before| == |d|
    requires forall k :: 0 <= k < |text| ==> d[k] == text[k]
    requires d[|text|] == NUL
    requires forall k :: |text| < k < |d| ==> d[k] == before[k]
    ensures d == Laid(before, text)
  {
  }

  function Clamp(p: int, high: nat): nat {
    if p < 0 then 0 else if p > high then high else p
  }

  function Min(a: int, b: int): int {
    if a < b then a else b
  }

  function Max(a: int, b: int): int {
    if a < b then b else a
  }

  // ---------- what the procedures make of a text, in an array of size + 1 ----------

  function Inserted(t: seq<char>, p: nat, s: seq<char>, size: nat): seq<char>
    requires p <= |t| <= size
  {
    t[..p] + s[..Min(|s|, size - |t|)] + t[p..]
  }

  function Deleted(t: seq<char>, p: nat, n: nat): seq<char>
    requires p <= |t|
  {
    if n >= |t| - p then t[..p] else t[..p] + t[p + n..]
  }

  function Replaced(t: seq<char>, p: nat, s: seq<char>, size: nat): seq<char>
    requires p <= |t| <= size
  {
    if p + |s| <= |t| then t[..p] + s + t[p + |s|..] else (t[..p] + s)[..Min(p + |s|, size)]
  }

  // Replacing is deleting as much and inserting, also where the result is truncated.
  lemma {:induction false} ReplaceIsDeleteAndInsert(t: seq<char>, p: nat, s: seq<char>, size: nat)
    requires p <= |t| <= size
    ensures |Deleted(t, p, |s|)| <= size && Replaced(t, p, s, size) == Inserted(Deleted(t, p, |s|), p, s, size)
  {
    var d := Deleted(t, p, |s|);
    if p + |s| < |t| {
      assert d[..p] == t[..p] && d[p..] == t[p + |s|..];
      assert s[..|s|] == s;
    } else if p + |s| == |t| {
      assert t[p + |s|..] == [] && d[..p] == t[..p] && d[p..] == [];
      assert s[..Min(|s|, size - p)] == s;
    } else {
      assert d[..p] == t[..p] && d[p..] == [];
      assert (t[..p] + s)[..Min(p + |s|, size)] == t[..p] + s[..Min(|s|, size - p)];
    }
  }

  // Deleting undoes inserting just when nothing of the inserted text was cut off, or what
  // remains to be deleted is the end of the text.
  lemma {:induction false} DeleteUndoesInsert(t: seq<char>, p: nat, s: seq<char>, size: nat)
    requires p <= |t| <= size
    ensures Deleted(Inserted(t, p, s, size), p, |s|) == t <==> |t| + |s| <= size || p == |t|
  {
    var k := Min(|s|, size - |t|);
    var i := Inserted(t, p, s, size);
    assert i[..p] == t[..p] && i[p..] == s[..k] + t[p..];
    if |t| + |s| <= size {
      assert i[p + |s|..] == t[p..];
      assert t[..p] + t[p..] == t;
    } else if p == |t| {
      assert t[..p] == t;
    } else {
      assert |Deleted(i, p, |s|)| < |t|;
    }
  }

  // ---------- the procedures ----------

  method Length(str: array<char>) returns (i: nat)
    ensures i == StrLen(str[..])
  {
    i := 0;
    while i < str.Length && str[i] != NUL
      invariant i <= str.Length && NUL !in str[..i]
    {
      i := i + 1;
    }
    StrLenIs(str[..], i);
  }

  method Insert(src: array<char>, position: int, dst: array<char>)
    requires dst.Length > 0 && src != dst
    modifies dst
    ensures var size := dst.Length - 1;
      var t := old(Text(dst[..]))[..Min(old(StrLen(dst[..])), size)];
      dst[..] == Laid(old(dst[..]), Inserted(t, Clamp(position, |t|), old(Text(src[..])), size))
  {
    hide StrLen, Copied, Filled, Shifted;
    ghost var d0, s := dst[..], Text(src[..]);
    var srcLen: int := Length(src);
    var dstLen := Length(dst);
    var pos := if position < 0 then 0 else if position > dstLen then dstLen else position;
    var dstSize := dst.Length - 1;
    var totalLen := dstLen + srcLen;
    if totalLen > dstSize {
      srcLen := dstSize - dstLen;
      if srcLen < 0 { srcLen := 0; }
    }
    ShiftRight(dst, pos, dstLen, srcLen);
    ghost var d1 := dst[..];
    Copy(src, srcLen, dst, pos, dstSize);
    ghost var d2 := dst[..];
    if totalLen < dst.Length { dst[totalLen] := NUL; } else { dst[dst.Length - 1] := NUL; }
    CopiedFills(d1, d2, dst[..], src[..], s, pos, srcLen, Min(totalLen, dstSize));
    InsertLaid(d0, d1, dst[..], s, position, srcLen);
  }

  // Make room for the source (Strings.Mod:70-75).
  method ShiftRight(dst: array<char>, pos: nat, dstLen: nat, room: nat)
    requires dst.Length > 0 && pos <= dstLen && (dstLen + room < dst.Length || (room == 0 && dstLen == dst.Length))
    modifies dst
    ensures Shifted(old(dst[..]), dst[..], pos, dstLen, room)
  {
    ghost var d0 := dst[..];
    var dstSize := dst.Length - 1;
    var i: int := dstLen - 1;
    while i >= pos && i + room < dstSize
      invariant pos - 1 <= i < dstLen
      invariant i < pos || (room == 0 && dstLen == dst.Length) || i + room < dstSize
      invariant forall k :: 0 <= k < dst.Length && i + room < k < dstLen + room ==> dst[k] == d0[k - room]
      invariant forall k :: 0 <= k < dst.Length && !(i + room < k < dstLen + room) ==> dst[k] == d0[k]
    {
      assert dst[i] == d0[i];
      dst[i + room] := dst[i];
      i := i - 1;
    }
  }

  ghost predicate Shifted(d0: seq<char>, d: seq<char>, p: nat, n: nat, room: nat) {
    && |d| == |d0|
    && (forall k :: 0 <= k < |d| && p + room <= k < n + room ==> d[k] == d0[k - room])
    && forall k :: 0 <= k < |d| && !(p + room <= k < n + room) ==> d[k] == d0[k]
  }

  // Copy n characters to the places from pos on that are below limit.
  method Copy(src: array<char>, n: int, dst: array<char>, pos: nat, limit: int)
    requires 0 <= n <= src.Length && limit <= dst.Length && src != dst
    modifies dst
    ensures Copied(old(dst[..]), dst[..], src[..], pos, Min(pos + n, Max(pos, limit)))
  {
    ghost var d0 := dst[..];
    var i := 0;
    while i < n && i + pos < limit
      invariant 0 <= i <= n && pos + i <= Max(pos, limit)
      invariant Copied(d0, dst[..], src[..], pos, pos + i)
    {
      dst[i + pos] := src[i];
      i := i + 1;
    }
  }

  ghost predicate Copied(d0: seq<char>, d: seq<char>, s: seq<char>, p: nat, q: int) {
    && |d| == |d0| && q - p <= |s|
    && (forall k :: p <= k < q && k < |d| ==> d[k] == s[k - p])
    && forall k :: 0 <= k < |d| && !(p <= k < q) ==> d[k] == d0[k]
  }

  // d is d1 with the source copied in and a NUL at e.
  ghost predicate Filled(d1: seq<char>, d: seq<char>, s: seq<char>, p: nat, k: nat, e: nat) {
    && |d| == |d1| && k <= |s| && e < |d| && d[e] == NUL
    && forall i :: 0 <= i < |d| && i != e ==> d[i] == if p <= i < p + k then s[i - p] else d1[i]
  }

  lemma {:induction false} CopiedFills(
    d1: seq<char>, d2: seq<char>, d: seq<char>, src: seq<char>, s: seq<char>, p: nat, k: nat, e: nat)
    requires Copied(d1, d2, src, p, p + k) && e < |d2| && d == d2[e := NUL]
    requires k <= |s| <= |src| && s == src[..|s|]
    ensures Filled(d1, d, s, p, k, e)
  {
  }

  lemma {:induction false} InsertLaid(
    d0: seq<char>, d1: seq<char>, d: seq<char>, s: seq<char>, position: int, k: nat)
    requires |d| == |d0| == |d1| > 0
    requires k == Max(0, Min(|s|, |d0| - 1 - StrLen(d0))) && k <= |s|
    requires Shifted(d0, d1, Clamp(position, StrLen(d0)), StrLen(d0), k)
    requires Filled(d1, d, s, Clamp(position, StrLen(d0)), k, Min(StrLen(d0) + |s|, |d| - 1))
    ensures var size := |d0| - 1;
      var t := Text(d0)[..Min(StrLen(d0), size)];
      d == Laid(d0, Inserted(t, Clamp(position, |t|), s, size))
  {
    hide Laid, Inserted, StrLen, Shifted, Filled;
    var n, size := StrLen(d0), |d0| - 1;
    var t := Text(d0)[..Min(n, size)];
    assert |t| == Min(n, size) && forall i :: 0 <= i < |t| ==> t[i] == d0[i];
    hide Text;
    if n <= size {
      InsertTerminated(d0, d1, d, t, s, Clamp(position, n), k);
    } else {
      InsertUnterminated(d0, d1, d, t, s, Clamp(position, n), Clamp(position, |t|));
    }
  }

  lemma {:induction false} InsertUnterminated(
    d0: seq<char>, d1: seq<char>, d: seq<char>, t: seq<char>, s: seq<char>, p0: nat, p: nat)
    requires |d| == |d0| == |d1| == |t| + 1 && p <= |t|
    requires forall i :: 0 <= i < |t| ==> t[i] == d0[i]
    requires Shifted(d0, d1, p0, |d0|, 0) && Filled(d1, d, s, p0, 0, |t|)
    ensures d == Laid(d0, Inserted(t, p, s, |t|))
  {
    InsertedParts(t, p, s, |t|);
    hide Inserted, Laid;
    LaidIs(d0, Inserted(t, p, s, |t|), d);
  }

  lemma {:induction false} InsertTerminated(
    d0: seq<char>, d1: seq<char>, d: seq<char>, t: seq<char>, s: seq<char>, p: nat, k: nat)
    requires |d| == |d0| == |d1| > |t| && p <= |t| && k == Min(|s|, |d0| - 1 - |t|)
    requires forall i :: 0 <= i < |t| ==> t[i] == d0[i]
    requires Shifted(d0, d1, p, |t|, k) && Filled(d1, d, s, p, k, |t| + k)
    ensures d == Laid(d0, Inserted(t, p, s, |d0| - 1))
  {
    var r := Inserted(t, p, s, |d0| - 1);
    InsertedParts(t, p, s, |d0| - 1);
    hide Inserted, Laid, Min;
    LaidIs(d0, r, d);
  }

  lemma {:induction false} InsertedParts(t: seq<char>, p: nat, s: seq<char>, size: nat)
    requires p <= |t| <= size
    ensures var r, k := Inserted(t, p, s, size), Min(|s|, size - |t|);
      |r| == |t| + k && forall i :: 0 <= i < |r| ==> r[i] == if i < p then t[i] else if i < p + k then s[i - p] else t[i - k]
  {
  }

  method Append(str: array<char>, dst: array<char>)
    requires dst.Length > 0 && str != dst
    modifies dst
    ensures Text(dst[..]) == (old(Text(dst[..])) + old(Text(str[..])))[..Min(old(StrLen(dst[..])) + old(StrLen(str[..])), dst.Length - 1)]
    ensures Terminated(dst[..])
  {
    ghost var t, s, size := Text(dst[..]), Text(str[..]), dst.Length - 1;
    var n := Length(dst);
    Insert(str, n, dst);
    ghost var kept := t[..Min(n, size)];
    assert Clamp(n, |kept|) == |kept|;
    assert Inserted(kept, |kept|, s, size) == (t + s)[..Min(|t| + |s|, size)];
    LaidText(old(dst[..]), Inserted(kept, |kept|, s, size));
  }

  method Delete(str: array<char>, pos: int, n: int)
    requires str.Length > 0 && n >= 0
    modifies str
    ensures pos < 0 || pos > old(StrLen(str[..])) ==> str[..] == old(str[..])
    ensures 0 <= pos <= old(StrLen(str[..])) ==>
      var d := Deleted(old(Text(str[..])), pos, n);
      str[..] == Laid(old(str[..]), d[..Min(|d|, str.Length - 1)])
  {
    ghost var before := str[..];
    var len := Length(str);
    if pos < 0 || pos > len {
      return;
    }
    ghost var moved := str[..];
    if n >= len - pos {
      if pos < str.Length { str[pos] := NUL; } else { str[str.Length - 1] := NUL; }
    } else {
      var i := pos;
      while i + n < len && i < str.Length - 1
        invariant pos <= i <= len - n && i < str.Length
        invariant Moved(before, str[..], pos, i, n)
      {
        str[i] := str[i + n];
        i := i + 1;
      }
      moved := str[..];
      var last := str.Length - 1;
      str[if i <= last then i else last] := NUL;
    }
    ghost var e := Min(if n >= len - pos then pos else len - n, str.Length - 1);
    assert Moved(before, moved, pos, e, n) && str[..] == moved[e := NUL];
    DeleteLaid(before, moved, str[..], pos, n);
  }

  // The characters from p + n on have moved to the places from p to q.
  ghost predicate Moved(d0: seq<char>, d: seq<char>, p: int, q: int, n: int) {
    && |d| == |d0| && n >= 0 && (p < q ==> q + n <= |d|)
    && (forall k :: 0 <= k < |d| && p <= k < q ==> d[k] == d0[k + n])
    && forall k :: 0 <= k < |d| && !(p <= k < q) ==> d[k] == d0[k]
  }

  lemma {:induction false} DeleteLaid(d0: seq<char>, d1: seq<char>, d: seq<char>, p: nat, n: nat)
    requires |d| == |d0| > 0 && p <= StrLen(d0)
    requires var e := Min(if n >= StrLen(d0) - p then p else StrLen(d0) - n, |d| - 1);
      Moved(d0, d1, p, e, n) && d == d1[e := NUL]
    ensures var r := Deleted(Text(d0), p, n); d == Laid(d0, r[..Min(|r|, |d| - 1)])
  {
    var e := Min(if n >= StrLen(d0) - p then p else StrLen(d0) - n, |d| - 1);
    var r := Deleted(Text(d0), p, n);
    DeletedParts(Text(d0), p, n);
    assert |Text(d0)| == StrLen(d0) && forall k :: 0 <= k < StrLen(d0) ==> Text(d0)[k] == d0[k];
    hide StrLen, Text, Deleted, Laid;
    var cut := r[..Min(|r|, |d| - 1)];
    assert |cut| == e;
    forall k | 0 <= k < |cut| ensures d[k] == cut[k] {
      assert cut[k] == r[k];
    }
    LaidIs(d0, cut, d);
  }

  lemma {:induction false} DeletedParts(t: seq<char>, p: nat, n: nat)
    requires p <= |t|
    ensures var r := Deleted(t, p, n);
      && |r| == (if n >= |t| - p then p else |t| - n)
      && forall k :: 0 <= k < |r| ==> r[k] == if k < p then t[k] else t[k + n]
  {
  }

  // On a terminated string. An unterminated one stays so unless it grows.
  method Replace(src: array<char>, position: int, dst: array<char>)
    requires dst.Length > 0 && src != dst
    modifies dst
    ensures old(Terminated(dst[..])) ==>
      dst[..] == Laid(old(dst[..]),
        Replaced(old(Text(dst[..])), Clamp(position, old(StrLen(dst[..]))), old(Text(src[..])), dst.Length - 1))
    ensures Terminated(dst[..]) <==>
      old(Terminated(dst[..])) || Clamp(position, old(StrLen(dst[..]))) + old(StrLen(src[..])) > old(StrLen(dst[..]))
  {
    hide StrLen, Copied, Replaced;
    ghost var d0, s := dst[..], Text(src[..]);
    var srcLen := Length(src);
    var dstLen := Length(dst);
    var pos := if position < 0 then 0 else if position > dstLen then dstLen else position;
    Copy(src, srcLen, dst, pos, dst.Length);
    ghost var d1 := dst[..];
    var newLen := pos + srcLen;
    if newLen > dstLen {
      if newLen < dst.Length { dst[newLen] := NUL; } else { dst[dst.Length - 1] := NUL; }
    }
    assert s == src[..][..srcLen];
    ReplaceLaid(d0, d1, dst[..], src[..], s, pos);
  }

  lemma {:induction false} ReplaceLaid(
    d0: seq<char>, d1: seq<char>, d: seq<char>, src: seq<char>, s: seq<char>, p: nat)
    requires |d| == |d0| > 0 && p <= StrLen(d0) && NUL !in s && |s| <= |src| && src[..|s|] == s
    requires Copied(d0, d1, src, p, Min(p + |s|, |d|))
    requires d == if p + |s| > StrLen(d0) then d1[Min(p + |s|, |d| - 1) := NUL] else d1
    ensures Terminated(d0) ==> d == Laid(d0, Replaced(Text(d0), p, s, |d0| - 1))
    ensures Terminated(d) <==> Terminated(d0) || p + |s| > StrLen(d0)
  {
    assert forall k :: 0 <= k < |s| ==> src[k] == s[k];
    if Terminated(d0) {
      ReplaceTerminated(d0, d1, d, src, s, p);
    } else if p + |s| > StrLen(d0) {
      HasNul(d, Min(p + |s|, |d| - 1));
    } else {
      hide Replaced, Laid;
      forall k | 0 <= k < |d| ensures d[k] != NUL {
        assert d0[k] in d0[..StrLen(d0)];
        assert p <= k < p + |s| ==> s[k - p] in s;
      }
      StrLenIs(d, |d|);
    }
  }

  lemma {:induction false} HasNul(s: seq<char>, k: nat)
    requires k < |s| && s[k] == NUL
    ensures Terminated(s)
  {
    assert s[..|s|] == s;
  }

  lemma {:induction false} ReplaceTerminated(
    d0: seq<char>, d1: seq<char>, d: seq<char>, src: seq<char>, s: seq<char>, p: nat)
    requires |d| == |d0| > 0 && p <= StrLen(d0) && Terminated(d0) && NUL !in s && |s| <= |src|
    requires forall k :: 0 <= k < |s| ==> src[k] == s[k]
    requires Copied(d0, d1, src, p, Min(p + |s|, |d|))
    requires d == if p + |s| > StrLen(d0) then d1[Min(p + |s|, |d| - 1) := NUL] else d1
    ensures d == Laid(d0, Replaced(Text(d0), p, s, |d0| - 1)) && Terminated(d)
  {
    var n, size := StrLen(d0), |d0| - 1;
    assert |Text(d0)| == n && d0[n] == NUL && forall k :: 0 <= k < n ==> Text(d0)[k] == d0[k];
    ReplacedParts(Text(d0), p, s, size);
    var r := Replaced(Text(d0), p, s, size);
    hide StrLen, Text, Replaced, Laid;
    LaidIs(d0, r, d);
    HasNul(d, |r|);
  }

  lemma {:induction false} ReplacedParts(t: seq<char>, p: nat, s: seq<char>, size: nat)
    requires p <= |t| <= size
    ensures var r := Replaced(t, p, s, size);
      && |r| == (if p + |s| <= |t| then |t| else Min(p + |s|, size))
      && forall k :: 0 <= k < |r| ==> r[k] == if p <= k < p + |s| then s[k - p] else t[k]
  {
  }

  // What Replace leaves is what Delete and then Insert leave: the same text, terminated.
  method ReplaceInSteps(src: array<char>, pos: int, dst: array<char>, other: array<char>)
    requires dst.Length == other.Length > 0 && src != dst && src != other && dst != other
    requires dst[..] == other[..] && Terminated(dst[..]) && 0 <= pos <= StrLen(dst[..])
    modifies dst, other
    ensures Text(dst[..]) == Text(other[..]) && Terminated(dst[..]) && Terminated(other[..])
  {
    hide StrLen;
    ghost var before, s, t, size := dst[..], Text(src[..]), Text(dst[..]), dst.Length - 1;
    Replace(src, pos, dst);
    LaidText(before, Replaced(t, pos, s, size));
    var n := Length(src);
    Delete(other, pos, n);
    ghost var d := Deleted(t, pos, n);
    assert d[..Min(|d|, size)] == d;
    LaidText(before, d);
    Insert(src, pos, other);
    assert d[..Min(|d|, size)] == d && Clamp(pos, |d|) == pos;
    LaidText(Laid(before, d), Inserted(d, pos, s, size));
    ReplaceIsDeleteAndInsert(t, pos, s, size);
  }

  // The text of an unterminated source loses its last character.
  method Extract(src: array<char>, position: int, number: int, dst: array<char>)
    requires dst.Length > 0 && src.Length > 0 && src != dst
    modifies dst
    ensures Terminated(dst[..])
    ensures var t := old(Text(src[..]))[..Min(old(StrLen(src[..])), src.Length - 1)];
      var p := Clamp(position, |t|);
      Text(dst[..]) == t[p..Min(|t|, p + Clamp(number, dst.Length - 1))]
  {
    hide Text, Terminated, StrLen;
    ghost var s := src[..];
    var srcLen := Length(src);
    var pos := if position < 0 then 0 else if position > srcLen then srcLen else position;
    var n := if number < 0 then 0 else if number > dst.Length - 1 then dst.Length - 1 else number;
    var i := 0;
    while i < n && pos + i < src.Length - 1
      invariant 0 <= i <= n && pos + i <= Max(src.Length - 1, pos)
      invariant forall k :: 0 <= k < i ==> dst[k] == s[pos + k]
    {
      dst[i] := src[pos + i];
      i := i + 1;
    }
    dst[i] := NUL;
    ExtractText(s, dst[..], position, n, i);
  }

  lemma {:induction false} ExtractText(s: seq<char>, d: seq<char>, position: int, n: nat, i: nat)
    requires |s| > 0 && n < |d| && i <= n && d[i] == NUL
    requires var p := Clamp(position, StrLen(s));
      (i == n || p + i >= |s| - 1) && p + i <= Max(|s| - 1, p) && forall k :: 0 <= k < i ==> d[k] == s[p + k]
    ensures Terminated(d)
    ensures var t := Text(s)[..Min(StrLen(s), |s| - 1)];
      var p := Clamp(position, |t|);
      Text(d) == t[p..Min(|t|, p + n)]
  {
    var srcLen := StrLen(s);
    var t := Text(s)[..Min(srcLen, |s| - 1)];
    var p := Clamp(position, |t|);
    var m := Min(|t|, p + n) - p;
    assert forall k :: 0 <= k < |t| ==> t[k] == s[k] == s[..srcLen][k] && t[k] != NUL;
    assert srcLen < |s| ==> s[srcLen] == NUL;
    hide StrLen, Text;
    ExtractedText(s, t, d, p, n, i, m);
  }

  lemma {:induction false} ExtractedText(s: seq<char>, t: seq<char>, d: seq<char>, p: nat, n: nat, i: nat, m: nat)
    requires |t| < |s| && p <= |t| && m == Min(|t|, p + n) - p && n < |d| && i <= n && d[i] == NUL
    requires forall k :: 0 <= k < |t| ==> t[k] == s[k] && t[k] != NUL
    requires forall k :: 0 <= k < i && p + k < |s| ==> d[k] == s[p + k]
    requires i >= m && (i > m ==> m < n && p + m < |s| && s[p + m] == NUL)
    ensures Terminated(d) && Text(d) == t[p..p + m]
  {
    forall k | 0 <= k < m ensures d[k] == t[p..p + m][k] && d[k] != NUL {
      assert t[p + k] == s[p + k];
    }
    assert d[..m] == t[p..p + m];
    StrLenIs(d, m);
  }

  // ---------- searching ----------

  predicate Occurs(sub: seq<char>, str: seq<char>, i: nat) {
    i + |sub| <= |str| && str[i..i + |sub|] == sub
  }

  // The first place from p on where sub occurs; the empty string is found nowhere.
  ghost predicate IsFirst(sub: seq<char>, str: seq<char>, p: nat, r: int) {
    if r < 0 then r == -1 && (sub == [] || forall i: nat :: p <= i ==> !Occurs(sub, str, i))
    else sub != [] && r >= p && Occurs(sub, str, r) && forall i: nat :: p <= i < r ==> !Occurs(sub, str, i)
  }

  method Pos(sub: array<char>, str: array<char>, position: int) returns (res: int)
    requires Terminated(sub[..]) && Terminated(str[..])
    ensures IsFirst(Text(sub[..]), Text(str[..]), Clamp(position, StrLen(str[..])), res)
  {
    hide StrLen;
    ghost var s, t := Text(sub[..]), Text(str[..]);
    var srcLen := Length(str);
    var subLen := Length(sub);
    res := -1;
    var pos := if position < 0 then 0 else if position > srcLen then srcLen else position;
    if subLen <= srcLen && pos + subLen <= srcLen {
      var i, j := pos, 0;
      while res < 0 && sub[j] != NUL && str[i + j] != NUL
        invariant pos <= i <= srcLen && 0 <= j <= subLen && i + j <= srcLen
        invariant forall k: nat :: pos <= k < i ==> !Occurs(s, t, k)
        invariant res < 0 ==> res == -1 && j == 0
        invariant res >= 0 ==> res == i && j == subLen > 0 && Occurs(s, t, i)
        decreases srcLen - i, if res < 0 then 1 else 0
      {
        j := Match(sub, str, i);
        if sub[j] == NUL {
          res := i;
        } else {
          i := i + 1;
          j := 0;
        }
      }
    }
  }

  // How far sub agrees with str from i on.
  method Match(sub: array<char>, str: array<char>, i: nat) returns (j: nat)
    requires Terminated(sub[..]) && Terminated(str[..]) && i < StrLen(str[..])
    ensures j <= StrLen(sub[..]) && i + j <= StrLen(str[..])
    ensures sub[j] == NUL <==> j == StrLen(sub[..])
    ensures j == StrLen(sub[..]) <==> Occurs(Text(sub[..]), Text(str[..]), i)
  {
    ghost var s, t := Text(sub[..]), Text(str[..]);
    j := 0;
    while sub[j] != NUL && str[i + j] == sub[j]
      invariant j <= |s| && i + j <= |t|
      invariant forall k :: 0 <= k < j ==> t[i + k] == s[k]
      decreases |s| - j
    {
      Inside(sub[..], j);
      Inside(str[..], i + j);
      j := j + 1;
    }
    if j < |s| {
      assert sub[j] == s[j] && s[j] in s;
      assert i + j < |t| ==> t[i + j] == str[i + j] != s[j];
      assert i + |s| <= |t| ==> t[i..i + |s|][j] != s[j];
    } else {
      assert i + |s| <= |t| && t[i..i + |s|] == s;
    }
  }

  lemma {:induction false} Inside(s: seq<char>, k: nat)
    requires Terminated(s) && k <= StrLen(s) && s[k] != NUL
    ensures k < StrLen(s)
  {
  }
}

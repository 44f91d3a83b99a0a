/** Numbers of any width in byte arrays: compare, add one, take one away. */
module GeoCells {
  import opened Units
  import opened GeoBits
  import opened GeoWords
  import opened GeoInterleave

  // The number the bytes hold, and its leading bits.
  function Num(bytes: seq<Byte>): nat {
    Val(Concat(bytes, 8))
  }

  function Top(bytes: seq<Byte>, length: nat): nat
    requires length <= 8 * |bytes|
  {
    Val(Concat(bytes, 8)[..length])
  }

  // One more or one less, on a circle of 2^length numbers.
  function Stepped(n: nat, length: nat, plus: bool): nat {
    if plus then (if n + 1 == Pow2(length) then 0 else n + 1)
    else if n == 0 then Pow2(length) - 1 else n - 1
  }

  // The last byte in use, and the bits of it below the number.
  function Cell(length: nat): nat
    requires length > 0
  {
    (length - 1) / 8
  }

  function Offset(length: nat): (k: nat)
    ensures k < 8
  {
    (8 - length % 8) % 8
  }

  lemma Layout(length: nat)
    requires length > 0
    ensures 8 * (Cell(length) + 1) == length + Offset(length)
  {
  }

  lemma NumConcat(a: seq<Byte>, b: seq<Byte>)
    ensures Num(a + b) == Num(a) * Pow2(8 * |b|) + Num(b)
  {
    hide Val, Concat, Pow2;
    ConcatAppend(a, b, 8);
    ValConcat(Concat(a, 8), Concat(b, 8));
  }

  lemma NumOne(b: Byte)
    ensures Num([b]) == b
  {
    hide Val, Bits, Pow2;
    assert Concat([b], 8) == Bits(b, 8) by { assert Concat([], 8) == []; }
    ValOfBits(b, 8);
    assert b % Pow2(8) == b by { Powers(); }
  }

  lemma TopOfNum(bytes: seq<Byte>, length: nat)
    requires 0 < length <= 8 * |bytes|
    ensures Top(bytes, length) == Num(bytes[..Cell(length) + 1]) / Pow2(Offset(length)) < Pow2(length)
  {
    hide Val, Concat, Pow2;
    var n := Cell(length) + 1;
    ConcatMiddle0(bytes, n);
    var b := Concat(bytes[..n], 8);
    assert Concat(bytes, 8)[..length] == b[..length];
    LeadingBits(b, length, Offset(length));
  }

  lemma LeadingBits(b: seq<bool>, n: nat, k: nat)
    requires |b| == n + k
    ensures Val(b[..n]) == Val(b) / Pow2(k) < Pow2(n)
  {
    hide Val, Pow2;
    assert b == b[..n] + b[n..];
    ValConcat(b[..n], b[n..]);
    ValBound(b[n..]);
    ValBound(b[..n]);
    ModUnique(Val(b), Pow2(k), Val(b[..n]), Val(b[n..]));
  }

  lemma ConcatMiddle0(bytes: seq<Byte>, n: nat)
    requires n <= |bytes|
    ensures 8 * n <= |Concat(bytes, 8)| && Concat(bytes, 8)[..8 * n] == Concat(bytes[..n], 8)
  {
    hide Concat;
    assert bytes[..n] + bytes[n..] == bytes;
    ConcatAppend(bytes[..n], bytes[n..], 8);
  }

  // ----- plus and minus one -----

  function Sign(plus: bool): int {
    if plus then 1 else -1
  }

  lemma CarryOut(b: Byte, d: nat, plus: bool)
    requires d <= 128
    ensures plus ==> (b >= 128 && (b + d) % 256 < 128 <==> b + d >= 256)
    ensures !plus ==> (b < 128 && (b - d) % 256 >= 128 <==> b < d)
  {
  }

  lemma OffsetPower(k: nat)
    requires k < 8
    ensures Pow2(k) <= 128 && Pow2(0) == 1
  {
    Powers();
  }

  // The bytes from cell n on are done, with a carry of d into the cell above.
  predicate DoneFrom(src: seq<Byte>, dst: seq<Byte>, n: nat, last: nat, up: bool, d: nat, k: nat, plus: bool) {
    && n <= last + 1 <= |src| == |dst|
    && (forall j | 0 <= j < n :: dst[j] == src[j])
    && Num(dst[n..last + 1]) + Sign(plus) * (if up then d * Pow2(8 * (last + 1 - n)) else 0)
       == Num(src[n..last + 1]) + Sign(plus) * Pow2(k)
  }

  lemma NextCell(src: seq<Byte>, dst: seq<Byte>, n: nat, last: nat, d: nat, k: nat, plus: bool, t: Byte, up: bool)
    requires n < last + 1 && d <= 128 && DoneFrom(src, dst, n + 1, last, true, d, k, plus)
    requires t == (src[n] + Sign(plus) * d) % 256
    requires up <==> if plus then src[n] + d >= 256 else src[n] < d
    ensures DoneFrom(src, dst[n := t], n, last, up, 1, k, plus)
  {
    hide Num, Pow2;
    var dst' := dst[n := t];
    var p := Pow2(8 * (last - n));
    assert dst'[n..last + 1] == [t] + dst[n + 1..last + 1];
    assert src[n..last + 1] == [src[n]] + src[n + 1..last + 1];
    NumConcat([t], dst[n + 1..last + 1]);
    NumConcat([src[n]], src[n + 1..last + 1]);
    NumOne(t);
    NumOne(src[n]);
    BytePower(last - n);
    assert 8 * (last + 1 - n) == 8 * (last - n) + 8;
    ByteSum(src[n], d, plus, t, up);
    AddColumn(Num(dst[n + 1..last + 1]), Num(src[n + 1..last + 1]), t, src[n], d, p, up, Pow2(k), plus);
  }

  lemma ByteSum(b: Byte, d: nat, plus: bool, t: Byte, up: bool)
    requires d <= 128 && t == (b + Sign(plus) * d) % 256 && (up <==> if plus then b + d >= 256 else b < d)
    ensures t + (if up then Sign(plus) * 256 else 0) == b + Sign(plus) * d
  {
  }

  lemma BytePower(k: nat)
    ensures Pow2(8 * k + 8) == 256 * Pow2(8 * k)
  {
    hide Pow2;
    Pow2Add(8 * k, 8);
    Powers();
    TimesByte(Pow2(8 * k), Pow2(8));
  }

  lemma TimesByte(x: nat, y: nat)
    requires y == 256
    ensures x * y == 256 * x
  {
  }

  // One column of the sum, p its place value.
  lemma AddColumn(low: int, low': int, t: int, b: int, d: int, p: int, up: bool, e: int, plus: bool)
    requires low + Sign(plus) * (d * p) == low' + Sign(plus) * e
    requires t + (if up then Sign(plus) * 256 else 0) == b + Sign(plus) * d
    ensures t * p + low + Sign(plus) * (if up then 1 * (256 * p) else 0) == b * p + low' + Sign(plus) * e
  {
    var c := if up then Sign(plus) * 256 else 0;
    assert (t + c) * p == t * p + c * p && (b + Sign(plus) * d) * p == b * p + Sign(plus) * d * p;
  }

  lemma WholeSum(src: seq<Byte>, dst: seq<Byte>, n: nat, last: nat, up: bool, k: nat, plus: bool)
    requires DoneFrom(src, dst, n, last, up, 1, k, plus) && (n == 0 || !up)
    ensures Num(dst[..last + 1]) + Sign(plus) * (if up then Pow2(8 * (last + 1)) else 0)
            == Num(src[..last + 1]) + Sign(plus) * Pow2(k)
  {
    hide Num, Pow2;
    assert dst[..last + 1] == dst[..n] + dst[n..last + 1];
    assert src[..last + 1] == src[..n] + src[n..last + 1];
    assert dst[..n] == src[..n];
    NumConcat(dst[..n], dst[n..last + 1]);
    NumConcat(src[..n], src[n..last + 1]);
  }

  lemma StepOfSum(a: nat, b: nat, p: nat, size: nat, up: bool, plus: bool)
    requires p > 0 && 0 <= a / p < size && 0 <= b / p < size
    requires a + Sign(plus) * (if up then size * p else 0) == b + Sign(plus) * p
    ensures a / p == if plus then (if b / p + 1 == size then 0 else b / p + 1)
                     else if b / p == 0 then size - 1 else b / p - 1
  {
    var (s, c) := (Sign(plus), if up then size else 0);
    assert a == b + s * p - s * (c * p);
    QuotientMoves(a, b, p, s, c);
    Settled(a / p, b / p, size, up, plus);
  }

  lemma Settled(x: nat, y: nat, size: nat, up: bool, plus: bool)
    requires x < size && y < size && x == y + Sign(plus) - Sign(plus) * (if up then size else 0)
    ensures x == if plus then (if y + 1 == size then 0 else y + 1) else if y == 0 then size - 1 else y - 1
  {
  }

  lemma QuotientMoves(a: nat, b: nat, p: nat, s: int, c: int)
    requires p > 0 && a == b + s * p - s * (c * p)
    ensures a / p == b / p + s - s * c
  {
    var (q, r) := (b / p, b % p);
    assert b == q * p + r;
    assert a == (q + (s - s * c)) * p + r by {
      Distribute(q, s - s * c, p);
      Distribute(s - s * c, s * c, p);
      Regroup(s, c, p);
    }
    ModUnique(a, p, q + (s - s * c), r);
  }

  lemma Regroup(x: int, y: int, z: int)
    ensures x * y * z == x * (y * z)
  {
  }

  lemma SteppedTop(src: seq<Byte>, dst: seq<Byte>, length: nat, n: nat, up: bool, plus: bool)
    requires 0 < length <= 8 * |src| && |src| == |dst| && (n == 0 || !up)
    requires DoneFrom(src, dst, n, Cell(length), up, 1, Offset(length), plus)
    ensures Top(dst, length) == Stepped(Top(src, length), length, plus)
  {
    hide Num, Pow2, Top, DoneFrom;
    Layout(length);
    TopOfNum(src, length);
    TopOfNum(dst, length);
    WholeSum(src, dst, n, Cell(length), up, Offset(length), plus);
    Pow2Add(length, Offset(length));
    StepOfSum(Num(dst[..Cell(length) + 1]), Num(src[..Cell(length) + 1]), Pow2(Offset(length)), Pow2(length), up, plus);
  }

  method PlusMinus(src: array<Byte>, dst: array<Byte>, length: nat, plus: bool) returns (changed: bool)
    requires src != dst && length <= 8 * src.Length && dst[..] == src[..]
    modifies dst
    ensures changed == (length > 0)
    ensures !changed ==> dst[..] == src[..]
    ensures Top(dst[..], length) == Stepped(Top(src[..], length), length, plus)
  {
    hide Num, Top, DoneFrom, Concat, Stepped;
    if length == 0 {
      NoBits(src[..], plus);
      return false;
    }
    Layout(length);
    var cell := Cell(length);
    var i := 0;
    while i < cell
      invariant dst[..] == src[..]
    {
      dst[cell] := src[cell];
      i := i + 1;
    }
    var offset := Offset(length);
    OffsetPower(offset);
    StartOfStep(src[..], dst[..], cell, offset, plus);
    var up := true;
    ghost var n: nat := cell + 1;
    ghost var d := Pow2(offset);
    while up
      invariant 0 <= cell <= Cell(length) && n == cell + 1
      invariant d == Pow2(offset) <= 128 && (!up ==> d == 1)
      invariant DoneFrom(src[..], dst[..], n, Cell(length), up, d, Offset(length), plus)
      decreases n
    {
      up := false;
      var t: Byte;
      if plus {
        t := (src[cell] + Pow2(offset)) % 256;
        if src[cell] >= 128 && t < 128 { up := true; }
      } else {
        t := (src[cell] - Pow2(offset)) % 256;
        if src[cell] < 128 && t >= 128 { up := true; }
      }
      CarryOut(src[cell], d, plus);
      NextCell(src[..], dst[..], cell, Cell(length), d, Offset(length), plus, t, up);
      dst[cell] := t;
      offset := 0;
      n, d := cell, 1;
      OffsetPower(0);
      if cell == 0 { break; }
      cell := cell - 1;
    }
    SteppedTop(src[..], dst[..], length, n, up, plus);
    return true;
  }

  lemma NoBits(bytes: seq<Byte>, plus: bool)
    ensures Top(bytes, 0) == Stepped(Top(bytes, 0), 0, plus)
  {
  }

  lemma StartOfStep(src: seq<Byte>, dst: seq<Byte>, last: nat, k: nat, plus: bool)
    requires src == dst && last < |src|
    ensures DoneFrom(src, dst, last + 1, last, true, Pow2(k), k, plus)
  {
    hide Concat;
    assert Num([]) == 0 by { assert Concat([], 8) == []; }
    assert Pow2(8 * (last + 1 - (last + 1))) == 1;
  }

  // ----- comparing -----

  lemma TopSplit(bytes: seq<Byte>, m: nat, length: nat)
    requires m <= length <= 8 * |bytes|
    ensures Top(bytes, length) == Top(bytes, m) * Pow2(length - m) + Val(Concat(bytes, 8)[m..length])
    ensures Val(Concat(bytes, 8)[m..length]) < Pow2(length - m)
  {
    hide Val, Concat, Pow2;
    var b := Concat(bytes, 8);
    assert b[..length] == b[..m] + b[m..length];
    ValConcat(b[..m], b[m..length]);
    ValBound(b[m..length]);
  }

  // The leading bits decide.
  lemma TopOrder(a: seq<Byte>, b: seq<Byte>, m: nat, length: nat)
    requires m <= length <= 8 * |a| && |a| == |b| && Top(a, m) < Top(b, m)
    ensures Top(a, length) < Top(b, length)
  {
    hide Val, Concat, Pow2, Top;
    TopSplit(a, m, length);
    TopSplit(b, m, length);
    var p := Pow2(length - m);
    AtLeastOnce(Top(b, m) - Top(a, m), p);
    Distribute(Top(b, m) - Top(a, m), Top(a, m), p);
  }

  // A byte shifted right.
  function HighBits(b: Byte, k: nat): int {
    b / Pow2(k)
  }

  lemma TopOfBytes(bytes: seq<Byte>, i: nat, w: nat)
    requires 0 < w <= 8 && 8 * i + 8 <= 8 * |bytes|
    ensures Top(bytes, 8 * i + w) == Top(bytes, 8 * i) * Pow2(w) + HighBits(bytes[i], 8 - w)
  {
    hide Val, Concat, Pow2, Top, Bits;
    var b := Concat(bytes, 8);
    TopSplit(bytes, 8 * i, 8 * i + w);
    ConcatAt(bytes, 8, i);
    SliceOfSlice(b, 8 * i, 8, 0, w);
    SliceVal(bytes[i], 8, 0, w);
    ByteTop(bytes[i], w);
    assert Bits(bytes[i], 8)[0..w] == b[8 * i..8 * i + w];
  }

  lemma ByteTop(b: Byte, w: nat)
    requires w <= 8
    ensures b / Pow2(8 - w) % Pow2(w) == b / Pow2(8 - w)
  {
    hide Pow2;
    Powers();
  }

  lemma TopPrefix(a: seq<Byte>, b: seq<Byte>, i: nat)
    requires i <= |a| == |b| && a[..i] == b[..i]
    ensures Top(a, 8 * i) == Top(b, 8 * i)
  {
    hide Concat;
    ConcatMiddle0(a, i);
    ConcatMiddle0(b, i);
  }

  lemma FirstDifference(a: seq<Byte>, b: seq<Byte>, i: nat, length: nat)
    requires 8 * i + 8 <= length <= 8 * |a| && |a| == |b| && a[..i] == b[..i] && a[i] < b[i]
    ensures Top(a, length) < Top(b, length)
  {
    hide Top, Pow2, Concat;
    TopPrefix(a, b, i);
    TopOfBytes(a, i, 8);
    TopOfBytes(b, i, 8);
    PowZero();
    TopOrder(a, b, 8 * i + 8, length);
  }

  lemma LastByte(a: seq<Byte>, b: seq<Byte>, length: nat)
    requires 0 < length <= 8 * |a| && |a| == |b| && a[..Cell(length)] == b[..Cell(length)]
    ensures Top(a, length) - Top(b, length)
            == HighBits(a[Cell(length)], Offset(length)) - HighBits(b[Cell(length)], Offset(length))
  {
    Layout(length);
    hide *;
    var i := Cell(length);
    var w := 8 - Offset(length);
    assert length == 8 * i + w;
    TopPrefix(a, b, i);
    TopOfBytes(a, i, w);
    TopOfBytes(b, i, w);
    SameHead(Top(a, 8 * i), Top(b, 8 * i), Pow2(w));
  }

  lemma SameHead(x: int, y: int, p: int)
    requires x == y
    ensures x * p == y * p
  {
  }

  method Compare(src: array<Byte>, dst: array<Byte>, length: nat) returns (order: int)
    requires src.Length == dst.Length && length <= 8 * src.Length
    ensures order == 0 <==> Top(src[..], length) == Top(dst[..], length)
    ensures order < 0 <==> Top(src[..], length) < Top(dst[..], length)
  {
    hide Top, Pow2, Concat;
    if length == 0 {
      TopPrefix(src[..], dst[..], 0);
      return 0;
    }
    var i := 0;
    while i < Cell(length)
      invariant 0 <= i <= Cell(length) && src[..i] == dst[..i]
    {
      if src[i] != dst[i] {
        if src[i] < dst[i] {
          FirstDifference(src[..], dst[..], i, length);
        } else {
          FirstDifference(dst[..], src[..], i, length);
        }
        var (a: int, b: int) := (src[i], dst[i]);
        return a - b;
      }
      i := i + 1;
    }
    LastByte(src[..], dst[..], length);
    return HighBits(src[i], Offset(length)) - HighBits(dst[i], Offset(length));
  }
}

/** Geohash text and 16-bit words: two groupings of one bit string. */
module GeoWords {
  import opened Wrappers
  import opened GeoBits

  type Five = n: nat | n < 32
  type Word = n: nat | n < 65536

  datatype Status = Ok | InvalidCode | InvalidArgument | InternalError

  // Numbers of w bits each, written one after the other.
  function Concat(ns: seq<nat>, w: nat): (b: seq<bool>)
    ensures |b| == w * |ns|
  {
    if ns == [] then [] else
      var rest := Concat(ns[1..], w);
      assert w * |ns| == w + w * (|ns| - 1);
      Bits(ns[0], w) + rest
  }

  lemma {:induction false} ConcatAppend(a: seq<nat>, b: seq<nat>, w: nat)
    ensures Concat(a + b, w) == Concat(a, w) + Concat(b, w)
  {
    if a == [] {
      assert a + b == b;
    } else {
      assert (a + b)[1..] == a[1..] + b;
      ConcatAppend(a[1..], b, w);
    }
  }

  lemma ConcatSuffix(ns: seq<nat>, w: nat, a: nat)
    requires a <= |ns|
    ensures 0 <= w * a <= w * |ns| && Concat(ns, w)[w * a..] == Concat(ns[a..], w)
  {
    hide Concat;
    assert ns == ns[..a] + ns[a..];
    ConcatAppend(ns[..a], ns[a..], w);
    assert w * |ns| == w * a + w * (|ns| - a);
  }

  lemma ConcatAt(ns: seq<nat>, w: nat, i: nat)
    requires i < |ns|
    ensures 0 <= w * i <= w * i + w <= |Concat(ns, w)|
    ensures Concat(ns, w)[w * i..w * i + w] == Bits(ns[i], w)
  {
    ConcatSuffix(ns, w, i);
    FirstOfConcat(ns[i..], w);
    hide *;
    assert w * |ns| == w * i + w * |ns[i..]|;
    Shift(Concat(ns, w), w * i, 0, w);
  }

  lemma FirstOfConcat(ns: seq<nat>, w: nat)
    requires ns != []
    ensures w <= |Concat(ns, w)| && Concat(ns, w)[0..0 + w] == Bits(ns[0], w)
  {
    assert Concat(ns, w) == Bits(ns[0], w) + Concat(ns[1..], w);
  }

  // Number i stands at bit w * i.
  predicate BitsAt(ns: seq<nat>, w: nat, b: seq<bool>, i: nat)
    requires i < |ns|
  {
    0 <= w * i <= w * i + w <= |b| && Bits(ns[i], w) == b[w * i..w * i + w]
  }

  // Numbers with the right bits are the regrouping of a bit string.
  lemma {:induction false} RegroupIsUnique(ns: seq<nat>, w: nat, b: seq<bool>)
    requires |b| == w * |ns| && forall i | 0 <= i < |ns| :: BitsAt(ns, w, b, i)
    ensures Concat(ns, w) == b
  {
    hide BitsAt, Bits;
    if ns == [] {
      assert w * |ns| == 0;
    } else {
      assert w * |ns| == w + w * |ns[1..]|;
      assert BitsAt(ns, w, b, 0);
      FirstBits(ns, w, b);
      forall i | 0 <= i < |ns[1..]| ensures BitsAt(ns[1..], w, b[w..], i) {
        assert BitsAt(ns, w, b, i + 1);
        LaterBits(ns, w, b, i);
      }
      RegroupIsUnique(ns[1..], w, b[w..]);
      assert b == b[..w] + b[w..];
    }
  }

  lemma FirstBits(ns: seq<nat>, w: nat, b: seq<bool>)
    requires ns != [] && BitsAt(ns, w, b, 0)
    ensures w <= |b| && b[..w] == Bits(ns[0], w)
  {
    assert b[w * 0..w * 0 + w] == b[..w];
  }

  lemma LaterBits(ns: seq<nat>, w: nat, b: seq<bool>, i: nat)
    requires i + 1 < |ns| && w <= |b| && BitsAt(ns, w, b, i + 1)
    ensures BitsAt(ns[1..], w, b[w..], i)
  {
    hide Bits;
    assert w * (i + 1) == w + w * i;
    assert b[w + w * i..w + w * i + w] == b[w * (i + 1)..w * (i + 1) + w];
    Shift(b, w, w * i, w);
  }

  lemma Shift(b: seq<bool>, k: nat, i: nat, n: nat)
    requires k + i + n <= |b|
    ensures b[k + i..k + i + n] == b[k..][i..i + n]
  {
  }

  // ----- the alphabet -----

  const ALPHABET := "0123456789bcdefghjkmnpqrstuvwxyz"

  function ToChar(v: Five): char {
    ALPHABET[v]
  }

  // The decoding table: either case, and no a, i, l or o.
  function FromChar(c: char): Option<Five> {
    var k := if 'A' <= c <= 'Z' then (c as int + 32) as char else c;
    if '0' <= c <= '9' then Some(c as int - '0' as int)
    else if 'b' <= k <= 'h' then Some(k as int - 'b' as int + 10)
    else if 'j' <= k <= 'k' then Some(k as int - 'j' as int + 17)
    else if 'm' <= k <= 'n' then Some(k as int - 'm' as int + 19)
    else if 'p' <= k <= 'z' then Some(k as int - 'p' as int + 21)
    else None
  }

  lemma AlphabetRoundTrip(v: Five)
    ensures FromChar(ToChar(v)) == Some(v)
  {
  }

  function Capital(c: char): char {
    if 'a' <= c <= 'z' then c - 32 as char else c
  }

  function Small(c: char): char {
    if 'A' <= c <= 'Z' then c + 32 as char else c
  }

  lemma SmallReads(c: char)
    ensures FromChar(Small(c)) == FromChar(c) && (Small(c) == '\0' <==> c == '\0')
  {
  }

  // The characters written are the digits and the small letters but a, i, l and o, in
  // their order.
  lemma AlphabetIs(c: char)
    ensures (exists v: Five :: ToChar(v) == c)
            <==> '0' <= c <= '9' || ('a' <= c <= 'z' && c != 'a' && c != 'i' && c != 'l' && c != 'o')
    ensures forall v: Five, w: Five | v < w :: ToChar(v) < ToChar(w)
  {
    InAlphabet(c);
    if v: Five :| ToChar(v) == c { Ordered(v); }
    forall v: Five, w: Five | v < w ensures ToChar(v) < ToChar(w) { OrderedFrom(v, w); }
  }

  lemma InAlphabet(c: char)
    ensures FromChar(c).Some? && !('A' <= c <= 'Z') ==> ToChar(FromChar(c).value) == c
  {
  }

  lemma Ordered(v: Five)
    ensures var c := ToChar(v);
            && ('0' <= c <= '9' || ('a' < c <= 'z' && c != 'i' && c != 'l' && c != 'o'))
            && (v < 31 ==> c < ToChar(v + 1))
  {
  }

  lemma {:induction false} OrderedFrom(v: Five, w: Five)
    requires v < w
    ensures ToChar(v) < ToChar(w)
    decreases w
  {
    Ordered(w - 1);
    if v < w - 1 { OrderedFrom(v, w - 1); }
  }

  // A character has a value exactly when it is written for that value, or is the capital
  // of what is written.
  lemma FromCharIs(c: char, v: Five)
    ensures FromChar(c) == Some(v) <==> c == ToChar(v) || c == Capital(ToChar(v))
  {
    AlphabetRoundTrip(v);
    CapitalReads(ToChar(v));
    if FromChar(c).Some? { SmallOrCapital(c); }
  }

  lemma CapitalReads(c: char)
    ensures FromChar(c).Some? && !('A' <= c <= 'Z') ==> FromChar(Capital(c)) == FromChar(c)
  {
  }

  lemma SmallOrCapital(c: char)
    requires FromChar(c).Some?
    ensures var d := ToChar(FromChar(c).value); c == d || c == Capital(d)
  {
  }

  // ----- from words to characters -----

  // The expression assigned to w[j], for the words i[0], i[1], ...
  function RawByte(i: seq<nat>, j: nat): nat
    requires j < 16 && (5 * j + 4) / 16 < |i|
  {
    (match j
     case 0 => i[0] / 2048
     case 1 => i[0] / 64
     case 2 => i[0] / 2
     case 3 => i[1] / 4096 + i[0] * 16
     case 4 => i[1] / 128
     case 5 => i[1] / 4
     case 6 => i[2] / 8192 + i[1] * 8
     case 7 => i[2] / 256
     case 8 => i[2] / 8
     case 9 => i[3] / 16384 + i[2] * 4
     case 10 => i[3] / 512
     case 11 => i[3] / 16
     case 12 => i[4] / 32768 + i[3] * 2
     case 13 => i[4] / 1024
     case 14 => i[4] / 32
     case _ => i[4]) % 256
  }

  lemma SliceOfSlice(b: seq<bool>, s: nat, n: nat, x: nat, y: nat)
    requires x <= y <= n && s + n <= |b|
    ensures b[s..s + n][x..y] == b[s + x..s + y]
  {
    var (l, r) := (b[s..s + n][x..y], b[s + x..s + y]);
    forall k | 0 <= k < |l| ensures l[k] == r[k] {
      assert b[s..s + n][x + k] == b[s + (x + k)];
    }
  }

  lemma TwoSlices(b: seq<bool>, x: nat, y: nat, z: nat)
    requires x <= y <= z <= |b|
    ensures b[x..y] + b[y..z] == b[x..z]
  {
  }

  // Five bits inside one word, or across two.
  lemma FiveInWord(ws: seq<nat>, a: nat, o: nat)
    requires a < |ws| && o <= 11
    ensures 16 * a + o + 5 <= |Concat(ws, 16)|
    ensures Val(Concat(ws, 16)[16 * a + o..16 * a + o + 5]) == ws[a] / Pow2(11 - o) % 32
  {
    hide Val, Bits, Concat;
    Powers();
    ConcatAt(ws, 16, a);
    SliceOfSlice(Concat(ws, 16), 16 * a, 16, o, o + 5);
    SliceVal(ws[a], 16, o, o + 5);
  }

  lemma FiveAcrossWords(ws: seq<nat>, a: nat, o: nat)
    requires a + 1 < |ws| && 12 <= o < 16
    ensures 16 * a + o + 5 <= |Concat(ws, 16)|
    ensures Val(Concat(ws, 16)[16 * a + o..16 * a + o + 5])
            == ws[a] % Pow2(16 - o) * Pow2(o - 11) + ws[a + 1] / Pow2(27 - o) % Pow2(o - 11)
  {
    hide Val, Bits, Concat, Pow2;
    ConcatAt(ws, 16, a);
    ConcatAt(ws, 16, a + 1);
    var b := Concat(ws, 16);
    SliceOfSlice(b, 16 * a, 16, o, 16);
    SliceOfSlice(b, 16 * a + 16, 16, 0, o - 11);
    TwoSlices(b, 16 * a + o, 16 * a + 16, 16 * a + o + 5);
    var (x, y) := (Bits(ws[a], 16)[o..16], Bits(ws[a + 1], 16)[0..o - 11]);
    ValConcat(x, y);
    SliceVal(ws[a], 16, o, 16);
    SliceVal(ws[a + 1], 16, 0, o - 11);
    Powers();
  }

  lemma Powers()
    ensures Pow2(0) == 1 && Pow2(1) == 2 && Pow2(2) == 4 && Pow2(3) == 8 && Pow2(4) == 16 && Pow2(5) == 32
    ensures Pow2(6) == 64 && Pow2(7) == 128 && Pow2(8) == 256 && Pow2(9) == 512 && Pow2(10) == 1024
    ensures Pow2(11) == 2048 && Pow2(12) == 4096 && Pow2(13) == 8192 && Pow2(14) == 16384 && Pow2(15) == 32768
            && Pow2(16) == 65536
  {
  }

  // Five bits as a number, within a word or across two.
  function FiveBits(i: seq<nat>, a: nat, o: nat): nat
    requires a < |i| && o < 16 && (o >= 12 ==> a + 1 < |i|)
  {
    if o <= 11 then i[a] / Pow2(11 - o) % 32
    else i[a] % Pow2(16 - o) * Pow2(o - 11) + i[a + 1] / Pow2(27 - o) % Pow2(o - 11)
  }

  lemma FiveBitsAt(i: seq<nat>, j: nat)
    requires (5 * j + 4) / 16 < |i|
    ensures 5 * j + 5 <= |Concat(i, 16)|
    ensures FiveBits(i, 5 * j / 16, 5 * j % 16) == Val(Concat(i, 16)[5 * j..5 * j + 5])
  {
    hide Val, Concat, Pow2;
    var (a, o) := (5 * j / 16, 5 * j % 16);
    assert 5 * j == 16 * a + o;
    if o <= 11 { FiveInWord(i, a, o); } else { FiveAcrossWords(i, a, o); }
  }

  // The low five bits of m, whatever lies above them.
  lemma LowFive(m: nat, q: nat, r: nat)
    requires m == 32 * q + r && r < 32
    ensures m % 256 % 32 == r
  {
    assert m == 256 * (m / 256) + m % 256;
    assert m % 256 == 32 * (q - 8 * (m / 256)) + r;
  }

  // The carried bits of x, above the first bits of y.
  lemma CarriedBits(x: nat, y: nat, up: nat, down: nat)
    requires (up, down) in {(16, 4096), (8, 8192), (4, 16384), (2, 32768)} && y < 65536
    ensures (y / down + x * up) % 256 % 32 == x % (32 / up) * up + y / down % up
  {
    LowFive(y / down + x * up, x / (32 / up), x % (32 / up) * up + y / down);
  }

  lemma WithinWord(i: seq<nat>, j: nat)
    requires j < 16 && j !in {3, 6, 9, 12} && (5 * j + 4) / 16 < |i|
    ensures RawByte(i, j) % 32 == FiveBits(i, 5 * j / 16, 5 * j % 16)
  {
    hide Pow2;
    Powers();
    var m := i[5 * j / 16] / Pow2(11 - 5 * j % 16);
    assert RawByte(i, j) == m % 256;
    LowFive(m, m / 32, m % 32);
  }

  lemma AcrossWords(i: seq<Word>, j: nat)
    requires j in {3, 6, 9, 12} && (5 * j + 4) / 16 < |i|
    ensures RawByte(i, j) % 32 == FiveBits(i, 5 * j / 16, 5 * j % 16)
  {
    hide Pow2;
    Powers();
    var a := 5 * j / 16;
    match j
    case 3 => CarriedBits(i[a], i[a + 1], 16, 4096);
    case 6 => CarriedBits(i[a], i[a + 1], 8, 8192);
    case 9 => CarriedBits(i[a], i[a + 1], 4, 16384);
    case _ => CarriedBits(i[a], i[a + 1], 2, 32768);
  }

  // Each assigned byte ends in the next five bits of the words.
  lemma RawByteIsFive(i: seq<Word>, j: nat)
    requires j < 16 && (5 * j + 4) / 16 < |i|
    ensures 5 * j + 5 <= |Concat(i, 16)|
    ensures RawByte(i, j) % 32 == Val(Concat(i, 16)[5 * j..5 * j + 5])
  {
    hide *;
    FiveBitsAt(i, j);
    if j in {3, 6, 9, 12} { AcrossWords(i, j); } else { WithinWord(i, j); }
  }

  // A bit string written in groups of five.
  function Letters(b: seq<bool>): (s: string)
    ensures |s| == |b| / 5
  {
    seq(|b| / 5, c requires 0 <= c < |b| / 5 => Letter(b, c))
  }

  function Letter(b: seq<bool>, c: nat): char
    requires c < |b| / 5
  {
    ValBound(b[5 * c..5 * c + 5]);
    Powers();
    ToChar(Val(b[5 * c..5 * c + 5]))
  }

  // The byte written for character c, before it is turned into a letter.
  function RawAt(words: seq<Word>, c: nat): (n: nat)
    requires 5 * c + 5 <= 16 * |words|
    ensures n < 256
  {
    RawByte(words[c / 16 * 5..], c % 16)
  }

  lemma LetterOfRaw(words: seq<Word>, n: nat, c: nat)
    requires c < n && 5 * n <= 16 * |words|
    ensures Letter(Concat(words, 16)[..5 * n], c) == ToChar(RawAt(words, c) % 32)
  {
    hide Concat, Val, RawByte, ToChar, Pow2;
    var b := Concat(words, 16);
    RawIsSlice(words, c);
    assert b[..5 * n] == b[0..0 + 5 * n];
    SliceOfSlice(b, 0, 5 * n, 5 * c, 5 * c + 5);
  }

  lemma RawIsSlice(words: seq<Word>, c: nat)
    requires 5 * c + 5 <= 16 * |words|
    ensures RawAt(words, c) % 32 == Val(Concat(words, 16)[5 * c..5 * c + 5])
  {
    hide Concat, Val, RawByte;
    var (k, j) := (c / 16 * 5, c % 16);
    var b := Concat(words, 16);
    RawByteIsFive(words[k..], j);
    ConcatSuffix(words, 16, k);
    Shift(b, 16 * k, 5 * j, 5);
    assert 16 * k + 5 * j == 5 * c;
  }

  predicate RawUpTo(words: seq<Word>, s: string, w: nat) {
    w <= |s| && 5 * w <= 16 * |words| && forall c | 0 <= c < w :: s[c] as int == RawAt(words, c)
  }

  // The assignments to w[0], ..., w[n - 1].
  method PutBytes(interleaved: seq<Word>, i: nat, dst: array<char>, w: nat, n: nat)
    requires n <= 16 && w % 16 == 0 && 16 * i == 5 * w && w + n <= dst.Length && 5 * dst.Length <= 16 * |interleaved|
    requires RawUpTo(interleaved, dst[..], w)
    modifies dst
    ensures RawUpTo(interleaved, dst[..], w + n)
  {
    hide RawByte;
    var j := 0;
    while j < n
      invariant 0 <= j <= n
      invariant RawUpTo(interleaved, dst[..], w + j)
    {
      assert (w + j) / 16 * 5 == i && (w + j) % 16 == j;
      var byte: nat := RawAt(interleaved, w + j);
      dst[w + j] := byte as char;
      j := j + 1;
    }
  }

  // The words may lie in a longer stretch of memory: the last group may take
  // bits from the word after the array.
  method WordsToLetters(interleaved: seq<Word>, length: nat, dst: array<char>) returns (status: Status)
    requires length <= |interleaved| && 5 * dst.Length <= 16 * |interleaved|
    modifies dst
    ensures status == if dst.Length * 5 < length * 16 then InternalError else Ok
    ensures status == InternalError ==> dst[..] == old(dst[..])
    ensures status == Ok ==> dst[..] == Letters(Concat(interleaved, 16)[..5 * dst.Length])
  {
    hide RawByte, RawAt, Letter, ToChar, Concat;
    if dst.Length * 5 < length * 16 { return InternalError; }
    var i, w := 0, 0;
    while w < dst.Length / 16 * 16
      invariant 0 <= w <= dst.Length / 16 * 16 && w % 16 == 0 && 16 * i == 5 * w
      invariant RawUpTo(interleaved, dst[..], w)
    {
      PutBytes(interleaved, i, dst, w, 16);
      i, w := i + 5, w + 16;
    }
    PutBytes(interleaved, i, dst, w, dst.Length % 16);
    ToLetters(interleaved, dst);
    status := Ok;
  }

  method ToLetters(ghost words: seq<Word>, dst: array<char>)
    requires RawUpTo(words, dst[..], dst.Length)
    modifies dst
    ensures dst[..] == Letters(Concat(words, 16)[..5 * dst.Length])
  {
    hide RawAt, Letter, ToChar, Concat;
    var j := 0;
    while j < dst.Length
      invariant 0 <= j <= dst.Length
      invariant forall c | 0 <= c < j :: dst[c] == Letter(Concat(words, 16)[..5 * dst.Length], c)
      invariant forall c | j <= c < dst.Length :: dst[c] as int == RawAt(words, c)
    {
      LetterOfRaw(words, dst.Length, j);
      dst[j] := ToChar(dst[j] as int % 32);
      j := j + 1;
    }
  }
}

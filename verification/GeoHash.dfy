/** Geohash text of a pair of coordinates, and the cell a text names. */
module GeoHash {
  import opened Wrappers
  import opened Units
  import opened GeoBits
  import opened GeoWords
  import opened GeoRead
  import opened GeoInterleave
  import opened GeoFixed

  // ----- words and byte pairs -----

  // Word by word, the even bits are the upper byte's and the odd bits the lower's.
  predicate TakenApart(words: seq<Word>, upper: seq<Byte>, lower: seq<Byte>) {
    && |upper| == |lower| == |words|
    && forall k | 0 <= k < |words| ::
      Bits(upper[k], 8) == Evens(Bits(words[k], 16)) && Bits(lower[k], 8) == Odds(Bits(words[k], 16))
  }

  lemma {:induction false} ConcatParts(words: seq<Word>, upper: seq<Byte>, lower: seq<Byte>)
    requires TakenApart(words, upper, lower)
    ensures Concat(upper, 8) == Evens(Concat(words, 16)) && Concat(lower, 8) == Odds(Concat(words, 16))
  {
    hide Bits, Evens, Odds;
    if words == [] {
      NoParts();
    } else {
      ConcatParts(words[1..], upper[1..], lower[1..]);
      PartsOfEvenConcat(Bits(words[0], 16), Concat(words[1..], 16));
    }
  }

  lemma NoParts()
    ensures Evens([]) == [] && Odds([]) == []
  {
  }

  // The eight bytes of a 64-bit number, high byte first.
  function Bytes(n: nat): (b: seq<Byte>)
    ensures |b| == 8
  {
    seq(8, k requires 0 <= k < 8 => n / Pow2(8 * (7 - k)) % 256)
  }

  lemma BytesAreBits(n: nat)
    ensures Concat(Bytes(n), 8) == Bits(n, 64)
  {
    hide Pow2, Bits, Concat;
    forall k | 0 <= k < 8 ensures BitsAt(Bytes(n), 8, Bits(n, 64), k) {
      SliceVal(n, 64, 8 * k, 8 * k + 8);
      BitsOfVal(Bits(n, 64)[8 * k..8 * k + 8]);
      Powers();
    }
    RegroupIsUnique(Bytes(n), 8, Bits(n, 64));
  }

  // Longitude in the even places, latitude in the odd ones.
  function Interleaved(lat64: nat, lon64: nat): (b: seq<bool>)
    ensures |b| == 128
  {
    Zip(Bits(lon64, 64), Bits(lat64, 64))
  }

  lemma WordsAreInterleaved(words: seq<Word>, lat64: nat, lon64: nat)
    requires |words| == 8
    requires forall k | 0 <= k < 8 :: words[k] == Interleave(Bytes(lon64)[k], Bytes(lat64)[k])
    ensures Concat(words, 16) == Interleaved(lat64, lon64)
  {
    hide Bits, Concat, Bytes, Interleave;
    forall k | 0 <= k < 8 { InterleaveZips(Bytes(lon64)[k], Bytes(lat64)[k]); }
    ConcatParts(words, Bytes(lon64), Bytes(lat64));
    BytesAreBits(lat64);
    BytesAreBits(lon64);
    ZipUnique(Concat(words, 16));
  }

  // The 26 characters, the last of which ends in two bits of the word that
  // follows the array.
  function Hash(lat64: nat, lon64: nat, beyond: Word): (s: string)
    ensures |s| == 26
  {
    Letters((Interleaved(lat64, lon64) + Bits(beyond, 16))[..130])
  }

  method InterleaveCodes(lat64: nat, lon64: nat) returns (interleaved: array<Word>)
    ensures interleaved.Length == 8 && Concat(interleaved[..], 16) == Interleaved(lat64, lon64)
  {
    hide Interleave, Concat, Interleaved;
    interleaved := new Word[8];
    var i := 0;
    while i < 8
      invariant 0 <= i <= 8
      invariant forall k | 8 - i <= k < 8 :: interleaved[k] == Interleave(Bytes(lon64)[k], Bytes(lat64)[k])
    {
      interleaved[7 - i] := Interleave(lon64 / Pow2(i * 8) % 256, lat64 / Pow2(i * 8) % 256);
      i := i + 1;
    }
    WordsAreInterleaved(interleaved[..], lat64, lon64);
  }

  // What a buffer holds after a text is copied into it, cut to fit.
  predicate Holds(r: string, was: string, text: string) {
    && |r| == |was|
    && (r != [] ==>
      var n := if |r| - 1 < |text| then |r| - 1 else |text|;
      r == text[..n] + ['\0'] + was[n + 1..])
  }

  method Encode(latitude: Double, longitude: Double, beyond: Word, r: array<char>) returns (status: Status)
    requires Shiftable(latitude) && Shiftable(longitude)
    modifies r
    ensures Fixed(latitude).None? || Fixed(longitude).None? ==> status == InvalidArgument && r[..] == old(r[..])
    ensures Fixed(latitude).Some? && Fixed(longitude).Some? ==>
              && Fixed(latitude).value >= 0 && Fixed(longitude).value >= 0
              && status == Ok && Holds(r[..], old(r[..]), Hash(Fixed(latitude).value, Fixed(longitude).value, beyond))
  {
    hide Fixed, Hash, Letters, Concat, Interleaved, Holds;
    var lat := DoubleToCode(latitude);
    var lon := DoubleToCode(longitude);
    if lat.None? || lon.None? { return InvalidArgument; }
    var interleaved := InterleaveCodes(lat.value, lon.value);
    var lr := new char[26];
    status := WordsToLetters(interleaved[..] + [beyond], 8, lr);
    HashIsLetters(interleaved[..], lat.value, lon.value, beyond);
    CopyCut(lr[..], r);
  }

  method CopyCut(lr: string, r: array<char>)
    requires |lr| == 26
    modifies r
    ensures Holds(r[..], old(r[..]), lr)
  {
    if 0 < r.Length {
      var n := if r.Length < 27 then r.Length - 1 else 26;
      var i := 0;
      while i < n
        invariant 0 <= i <= n
        invariant forall k | 0 <= k < i :: r[k] == lr[k]
        invariant forall k | i <= k < r.Length :: r[k] == old(r[k])
      {
        r[i] := lr[i];
        i := i + 1;
      }
      r[n] := '\0';
      assert r[..] == lr[..n] + ['\0'] + old(r[..])[n + 1..];
    }
  }

  lemma HashIsLetters(words: seq<Word>, lat64: nat, lon64: nat, beyond: Word)
    requires Concat(words, 16) == Interleaved(lat64, lon64)
    ensures |Concat(words + [beyond], 16)| >= 130
    ensures Letters(Concat(words + [beyond], 16)[..130]) == Hash(lat64, lon64, beyond)
  {
    hide Letters, Bits, Interleaved;
    ConcatAppend(words, [beyond], 16);
    assert Concat([beyond], 16) == Bits(beyond, 16) by { assert Concat([], 16) == []; }
  }

  // ----- the cell of a text -----

  // The first 128 bits of the letters, zeros where there are none.
  function CellBits(vs: seq<Five>): (b: seq<bool>)
    ensures |b| == 128
  {
    (Concat(vs, 5) + Zeros(128))[..128]
  }

  function CellLat(vs: seq<Five>): nat {
    Val(Odds(CellBits(vs)))
  }

  function CellLon(vs: seq<Five>): nat {
    Val(Evens(CellBits(vs)))
  }

  method Decode(r: string, length: nat) returns (status: Status, latitude: Double, longitude: Double)
    requires length <= |r|
    ensures match ReadLetters(r[..length])
            case None => status == InvalidCode
            case Some(vs) => status == Ok && Floats(CellLat(vs), latitude) && Floats(CellLon(vs), longitude)
  {
    hide Concat, ReadLetters, Floats, Bits, Evens, Odds;
    var interleaved := new Word[if length * 5 / 16 + 1 > 8 then length * 5 / 16 + 1 else 8];
    latitude, longitude := Double(false, 0, 0), Double(false, 0, 0);
    status := LettersToWords(r, length, interleaved);
    ghost var text := ReadLetters(r[..length]);
    if text.Some? { ReadLettersShorter(r[..length]); }
    if status != Ok { return; }
    var (lat64, lon64) := (0, 0);
    ghost var all := interleaved[..];
    ghost var words := all[..8];
    ghost var uppers: seq<Byte>, lowers: seq<Byte> := [], [];
    var i := 0;
    while i < 8
      invariant 0 <= i <= 8 && interleaved[..] == all && TakenApart(words[..i], uppers, lowers)
      invariant lon64 == Val(Concat(uppers, 8)) < LIMIT && lat64 == Val(Concat(lowers, 8)) < LIMIT
    {
      var upper, lower := Deinterleave(interleaved[i]);
      assert words[..i + 1] == words[..i] + [interleaved[i]];
      NextByte(uppers, upper);
      NextByte(lowers, lower);
      lon64, lat64 := lon64 * 256 % LIMIT + upper, lat64 * 256 % LIMIT + lower;
      uppers, lowers := uppers + [upper], lowers + [lower];
      i := i + 1;
    }
    assert words[..8] == words;
    ConcatParts(words, uppers, lowers);
    FirstWords(all, text.value);
    latitude := CodeToDouble(lat64);
    longitude := CodeToDouble(lon64);
  }

  lemma {:induction false} ReadLettersShorter(s: string)
    requires ReadLetters(s).Some?
    ensures |ReadLetters(s).value| <= |s|
  {
    if s != [] && s[0] != '\0' { ReadLettersShorter(s[1..]); }
  }

  // One more byte below the others.
  lemma NextByte(bytes: seq<Byte>, b: Byte)
    requires |bytes| < 8
    ensures Val(Concat(bytes + [b], 8)) == Val(Concat(bytes, 8)) * 256 % LIMIT + b < LIMIT
  {
    hide *;
    var v := Val(Concat(bytes, 8));
    ByteBelow(v, bytes);
    ByteAppended(bytes, b);
    AddByte(v, Pow2(8), b, Val(Concat(bytes + [b], 8)));
  }

  lemma ByteAppended(bytes: seq<Byte>, b: Byte)
    ensures Val(Concat(bytes + [b], 8)) == Val(Concat(bytes, 8)) * Pow2(8) + b
  {
    hide Val, Bits, Pow2;
    ConcatAppend(bytes, [b], 8);
    assert Concat([b], 8) == Bits(b, 8) by { assert Concat([], 8) == []; }
    ValConcat(Concat(bytes, 8), Bits(b, 8));
    ValOfBits(b, 8);
    assert b % Pow2(8) == b by { Powers(); }
  }

  lemma AddByte(v: nat, p: nat, b: Byte, r: nat)
    requires p == 256 && r == v * p + b && v * 256 + 255 < LIMIT
    ensures r == v * 256 % LIMIT + b < LIMIT
  {
  }

  lemma ByteBelow(v: nat, bytes: seq<Byte>)
    requires |bytes| < 8 && v == Val(Concat(bytes, 8))
    ensures v * 256 + 255 < LIMIT && Pow2(8) == 256
  {
    hide *;
    assert Pow2(8) == 256 by { Powers(); }
    ValBound(Concat(bytes, 8));
    WordSizes();
    Pow2Order(8 * |bytes|, 56);
    assert LIMIT == Pow2(56) * 256 by { Pow2Add(56, 8); }
    Room(v, Pow2(56), LIMIT);
  }

  lemma Room(v: nat, p: nat, limit: nat)
    requires v < p && limit == p * 256
    ensures v * 256 + 255 < limit
  {
  }

  lemma FirstWords(words: seq<Word>, vs: seq<Five>)
    requires |words| >= 8 && 5 * |vs| <= 16 * |words|
    requires Concat(words, 16) == Concat(vs, 5) + Zeros(16 * |words| - 5 * |vs|)
    ensures Concat(words[..8], 16) == CellBits(vs)
  {
    hide Concat;
    ConcatMiddle(words, 16, 0, 8);
    assert words[0..8] == words[..8];
  }

  // ----- a prefix of a hash is the south-west corner of its cell -----

  // The size of a cell of k bits, at least one unit.
  function Width(k: nat): nat {
    if k <= 64 then Pow2(64 - k) else 1
  }

  lemma CornerBound(c: nat, k: nat, cut: seq<bool>)
    requires c < LIMIT && k <= 64 && cut == Bits(c, 64)[..k] + Zeros(64 - k)
    ensures Val(cut) <= c < Val(cut) + Width(k) && Val(cut) % Width(k) == 0
  {
    hide Val, Bits, Pow2;
    CutBound(Bits(c, 64), k);
    ValOfBits(c, 64);
    WordSizes();
  }

  lemma CutInterleaved(lat64: nat, lon64: nat, n: nat)
    requires n <= 128
    ensures Odds(Interleaved(lat64, lon64)[..n] + Zeros(128 - n)) == Bits(lat64, 64)[..n / 2] + Zeros(64 - n / 2)
    ensures Evens(Interleaved(lat64, lon64)[..n] + Zeros(128 - n))
            == Bits(lon64, 64)[..(n + 1) / 2] + Zeros(64 - (n + 1) / 2)
  {
    hide Bits, Zip, Evens, Odds;
    var b := Interleaved(lat64, lon64);
    PartsOfPrefix(b, n);
    PartsOfZeroFill(b[..n], 128 - n);
  }

  lemma PrefixIsCorner(lat64: nat, lon64: nat, beyond: Word, n: nat)
    requires lat64 < LIMIT && lon64 < LIMIT && n <= 26
    ensures var cell := ReadLetters(Hash(lat64, lon64, beyond)[..n]);
            && cell.Some?
            && CellLat(cell.value) <= lat64 < CellLat(cell.value) + Width(5 * n / 2)
            && CellLon(cell.value) <= lon64 < CellLon(cell.value) + Width((5 * n + 1) / 2)
            && CellLat(cell.value) % Width(5 * n / 2) == 0 && CellLon(cell.value) % Width((5 * n + 1) / 2) == 0
  {
    hide ReadLetters, Letters, Concat, Bits, Val, Evens, Odds, Interleaved, Width;
    var b := (Interleaved(lat64, lon64) + Bits(beyond, 16))[..130];
    ReadOfLetters(b, n);
    var vs :| ReadLetters(Letters(b)[..n]) == Some(vs) && |vs| == n && Concat(vs, 5) == b[..5 * n];
    var k := if 5 * n < 128 then 5 * n else 128;
    CellBitsOfPrefix(vs, Interleaved(lat64, lon64), Bits(beyond, 16), n);
    CutInterleaved(lat64, lon64, k);
    CornerBound(lat64, k / 2, Odds(CellBits(vs)));
    CornerBound(lon64, (k + 1) / 2, Evens(CellBits(vs)));
    LastCell();
  }

  lemma CellBitsOfPrefix(vs: seq<Five>, b: seq<bool>, more: seq<bool>, n: nat)
    requires |b| == 128 && |more| == 16 && n <= 26 && Concat(vs, 5) == (b + more)[..130][..5 * n]
    ensures var k := if 5 * n < 128 then 5 * n else 128; CellBits(vs) == b[..k] + Zeros(128 - k)
  {
    hide Concat;
  }

  lemma LastCell()
    ensures Width(64) == Width(65) == 1
  {
  }

  // ----- the corner has the hash it was read from -----

  lemma CellIsInterleaved(vs: seq<Five>)
    ensures Interleaved(CellLat(vs), CellLon(vs)) == CellBits(vs)
    ensures CellLat(vs) < LIMIT && CellLon(vs) < LIMIT
  {
    hide Val, Bits, Zip, Pow2;
    var b := CellBits(vs);
    BitsOfVal(Evens(b));
    BitsOfVal(Odds(b));
    ValBound(Evens(b));
    ValBound(Odds(b));
    ZipUnique(b);
    WordSizes();
  }

  lemma ConcatInjective(a: seq<Five>, b: seq<Five>)
    requires |a| == |b| && Concat(a, 5) == Concat(b, 5)
    ensures a == b
  {
    hide Concat, Bits, Val, Pow2;
    forall k | 0 <= k < |a| ensures a[k] == b[k] {
      LetterAt(a, k);
      LetterAt(b, k);
      LetterParts(a[k], 0);
      LetterParts(b[k], 0);
    }
  }

  lemma CornerHashesBack(vs: seq<Five>, beyond: Word)
    requires |vs| <= 25
    ensures ReadLetters(Hash(CellLat(vs), CellLon(vs), beyond)[..|vs|]) == Some(vs)
  {
    hide ReadLetters, Letters, Concat, Bits, Interleaved, CellLat, CellLon;
    CellIsInterleaved(vs);
    var b := (CellBits(vs) + Bits(beyond, 16))[..130];
    ReadOfLetters(b, |vs|);
    var back :| ReadLetters(Letters(b)[..|vs|]) == Some(back) && |back| == |vs| && Concat(back, 5) == b[..5 * |vs|];
    StartOfCell(Concat(vs, 5), Bits(beyond, 16));
    ConcatInjective(back, vs);
  }

  lemma StartOfCell(b: seq<bool>, more: seq<bool>)
    requires |b| <= 128 && |more| == 16
    ensures ((b + Zeros(128))[..128] + more)[..130][..|b|] == b
  {
    var cell := (b + Zeros(128))[..128];
    assert cell[..|b|] == b;
    assert (cell + more)[..130][..|b|] == cell[..|b|];
  }
}

/** Interleaving two bytes in a word, by table, and taking them apart again. */
module GeoInterleave {
  import opened GeoBits
  import opened GeoWords
  import opened Units

  // The spreading table, sixteen entries to a row.
  const MAP: seq<seq<nat>> := [
    [0x0000, 0x0001, 0x0004, 0x0005, 0x0010, 0x0011, 0x0014, 0x0015,
     0x0040, 0x0041, 0x0044, 0x0045, 0x0050, 0x0051, 0x0054, 0x0055],
    [0x0100, 0x0101, 0x0104, 0x0105, 0x0110, 0x0111, 0x0114, 0x0115,
     0x0140, 0x0141, 0x0144, 0x0145, 0x0150, 0x0151, 0x0154, 0x0155],
    [0x0400, 0x0401, 0x0404, 0x0405, 0x0410, 0x0411, 0x0414, 0x0415,
     0x0440, 0x0441, 0x0444, 0x0445, 0x0450, 0x0451, 0x0454, 0x0455],
    [0x0500, 0x0501, 0x0504, 0x0505, 0x0510, 0x0511, 0x0514, 0x0515,
     0x0540, 0x0541, 0x0544, 0x0545, 0x0550, 0x0551, 0x0554, 0x0555],
    [0x1000, 0x1001, 0x1004, 0x1005, 0x1010, 0x1011, 0x1014, 0x1015,
     0x1040, 0x1041, 0x1044, 0x1045, 0x1050, 0x1051, 0x1054, 0x1055],
    [0x1100, 0x1101, 0x1104, 0x1105, 0x1110, 0x1111, 0x1114, 0x1115,
     0x1140, 0x1141, 0x1144, 0x1145, 0x1150, 0x1151, 0x1154, 0x1155],
    [0x1400, 0x1401, 0x1404, 0x1405, 0x1410, 0x1411, 0x1414, 0x1415,
     0x1440, 0x1441, 0x1444, 0x1445, 0x1450, 0x1451, 0x1454, 0x1455],
    [0x1500, 0x1501, 0x1504, 0x1505, 0x1510, 0x1511, 0x1514, 0x1515,
     0x1540, 0x1541, 0x1544, 0x1545, 0x1550, 0x1551, 0x1554, 0x1555],
    [0x4000, 0x4001, 0x4004, 0x4005, 0x4010, 0x4011, 0x4014, 0x4015,
     0x4040, 0x4041, 0x4044, 0x4045, 0x4050, 0x4051, 0x4054, 0x4055],
    [0x4100, 0x4101, 0x4104, 0x4105, 0x4110, 0x4111, 0x4114, 0x4115,
     0x4140, 0x4141, 0x4144, 0x4145, 0x4150, 0x4151, 0x4154, 0x4155],
    [0x4400, 0x4401, 0x4404, 0x4405, 0x4410, 0x4411, 0x4414, 0x4415,
     0x4440, 0x4441, 0x4444, 0x4445, 0x4450, 0x4451, 0x4454, 0x4455],
    [0x4500, 0x4501, 0x4504, 0x4505, 0x4510, 0x4511, 0x4514, 0x4515,
     0x4540, 0x4541, 0x4544, 0x4545, 0x4550, 0x4551, 0x4554, 0x4555],
    [0x5000, 0x5001, 0x5004, 0x5005, 0x5010, 0x5011, 0x5014, 0x5015,
     0x5040, 0x5041, 0x5044, 0x5045, 0x5050, 0x5051, 0x5054, 0x5055],
    [0x5100, 0x5101, 0x5104, 0x5105, 0x5110, 0x5111, 0x5114, 0x5115,
     0x5140, 0x5141, 0x5144, 0x5145, 0x5150, 0x5151, 0x5154, 0x5155],
    [0x5400, 0x5401, 0x5404, 0x5405, 0x5410, 0x5411, 0x5414, 0x5415,
     0x5440, 0x5441, 0x5444, 0x5445, 0x5450, 0x5451, 0x5454, 0x5455],
    [0x5500, 0x5501, 0x5504, 0x5505, 0x5510, 0x5511, 0x5514, 0x5515,
     0x5540, 0x5541, 0x5544, 0x5545, 0x5550, 0x5551, 0x5554, 0x5555]
  ]

  // The low w bits of x, in the even places.
  function Spread(x: nat, w: nat): nat {
    if w == 0 then 0 else x % 2 + 4 * Spread(x / 2, w - 1)
  }

  // Sixteen entries that start at r.
  function Row(r: nat): (row: seq<nat>)
    ensures |row| == 16
  {
    [r, r + 0x1, r + 0x4, r + 0x5, r + 0x10, r + 0x11, r + 0x14, r + 0x15,
     r + 0x40, r + 0x41, r + 0x44, r + 0x45, r + 0x50, r + 0x51, r + 0x54, r + 0x55]
  }

  lemma SpreadFour(x: nat)
    ensures Spread(x, 4) == x % 2 + x / 2 % 2 * 4 + x / 4 % 2 * 16 + x / 8 % 2 * 64
  {
    assert x / 2 / 2 == x / 4 && x / 4 / 2 == x / 8;
    assert Spread(x / 8, 1) == x / 8 % 2 by { assert Spread(x / 8 / 2, 0) == 0; }
    assert Spread(x / 4, 2) == x / 4 % 2 + 4 * Spread(x / 8, 1);
    assert Spread(x / 2, 3) == x / 2 % 2 + 4 * Spread(x / 4, 2);
  }

  lemma Nibble(x: nat)
    ensures x / 2 / 2 / 2 / 2 == x / 16 && x % 16 % 2 == x % 2 && x % 16 / 2 % 2 == x / 2 % 2
    ensures x % 16 / 4 % 2 == x / 2 / 2 % 2 && x % 16 / 8 % 2 == x / 2 / 2 / 2 % 2
  {
    var (a, b, c) := (x / 2, x / 2 / 2, x / 2 / 2 / 2);
    var d := c / 2;
    assert x == 16 * d + 8 * (c % 2) + 4 * (b % 2) + 2 * (a % 2) + x % 2;
  }

  lemma SpreadSplit(x: nat)
    ensures Spread(x, 8) == 256 * Spread(x / 16, 4) + Spread(x % 16, 4)
  {
    hide *;
    Nibble(x);
    SpreadFour(x % 16);
    SpreadStep(x, 8);
    SpreadStep(x / 2, 7);
    SpreadStep(x / 2 / 2, 6);
    SpreadStep(x / 2 / 2 / 2, 5);
  }

  lemma SpreadStep(x: nat, w: nat)
    requires w > 0
    ensures Spread(x, w) == x % 2 + 4 * Spread(x / 2, w - 1)
  {
  }

  lemma RowEntry(r: nat, l: nat)
    requires l < 16
    ensures Row(r)[l] == r + Spread(l, 4)
  {
    hide Spread;
    SpreadFour(l);
  }

  lemma MapRow(h: nat)
    requires h < 16
    ensures |MAP| == 16 && MAP[h] == Row(256 * Spread(h, 4))
  {
    hide Spread;
    SpreadFour(h);
  }

  // map[x].
  function Entry(x: Byte): (n: nat)
    ensures n == Spread(x, 8)
  {
    hide Spread, Row;
    MapRow(x / 16);
    RowEntry(256 * Spread(x / 16, 4), x % 16);
    SpreadSplit(x);
    MAP[x / 16][x % 16]
  }

  // Two interleaved bit strings as one number.
  lemma {:induction false} SpreadZips(u: nat, l: nat, w: nat)
    ensures Bits(2 * Spread(u, w) + Spread(l, w), 2 * w) == Zip(Bits(u, w), Bits(l, w))
  {
    hide *;
    if w == 0 {
      NothingZips(u, l);
    } else {
      SpreadZips(u / 2, l / 2, w - 1);
      SpreadStep(u, w);
      SpreadStep(l, w);
      SpreadZipsStep(2 * Spread(u, w) + Spread(l, w), 2 * Spread(u / 2, w - 1) + Spread(l / 2, w - 1), u, l, w);
    }
  }

  lemma NothingZips(u: nat, l: nat)
    ensures Bits(2 * Spread(u, 0) + Spread(l, 0), 0) == Zip(Bits(u, 0), Bits(l, 0))
  {
  }

  lemma SpreadZipsStep(n: nat, m: nat, u: nat, l: nat, w: nat)
    requires w > 0 && Bits(m, 2 * (w - 1)) == Zip(Bits(u / 2, w - 1), Bits(l / 2, w - 1))
    requires n == 4 * m + 2 * (u % 2) + l % 2
    ensures Bits(n, 2 * w) == Zip(Bits(u, w), Bits(l, w))
  {
    hide *;
    var (x, y) := (u % 2 == 1, l % 2 == 1);
    TwoBits(n, m, 2 * w, x, y);
    BitsStep(u, w);
    BitsStep(l, w);
    ZipAppend(Bits(u / 2, w - 1), Bits(l / 2, w - 1), x, y);
  }

  lemma BitsStep(n: nat, w: nat)
    requires w > 0
    ensures Bits(n, w) == Bits(n / 2, w - 1) + [n % 2 == 1]
  {
  }

  lemma ZipAppend(even: seq<bool>, odd: seq<bool>, x: bool, y: bool)
    requires |even| == |odd|
    ensures Zip(even + [x], odd + [y]) == Zip(even, odd) + [x, y]
  {
  }

  lemma TwoBits(n: nat, m: nat, w: nat, x: bool, y: bool)
    requires w >= 2 && n == 4 * m + (if x then 2 else 0) + (if y then 1 else 0)
    ensures Bits(n, w) == Bits(m, w - 2) + [x, y]
  {
    assert n / 2 / 2 == m && (n / 2 % 2 == 1) == x && (n % 2 == 1) == y;
    assert Bits(n / 2, w - 1) == Bits(m, w - 2) + [x];
  }

  lemma {:induction false} SpreadBound(x: nat, w: nat)
    ensures 3 * Spread(x, w) < Pow2(2 * w)
  {
    if w > 0 { SpreadBound(x / 2, w - 1); }
  }

  lemma SpreadFits(x: nat)
    ensures Spread(x, 8) <= 21845
  {
    hide Spread, Pow2;
    SpreadBound(x, 8);
    Powers();
  }

  function Interleave(upper: Byte, lower: Byte): (w: Word) {
    SpreadFits(upper);
    SpreadFits(lower);
    Entry(upper) * 2 + Entry(lower)
  }

  lemma InterleaveZips(upper: Byte, lower: Byte)
    ensures Bits(Interleave(upper, lower), 16) == Zip(Bits(upper, 8), Bits(lower, 8))
  {
    hide Bits, Zip, Spread, Entry;
    SpreadZips(upper, lower, 8);
    assert Interleave(upper, lower) == 2 * Spread(upper, 8) + Spread(lower, 8);
  }

  function BitOf(n: nat, k: nat): (bit: nat)
    ensures bit < 2
  {
    n / Pow2(k) % 2
  }

  lemma BitAt(n: nat, w: nat, i: nat)
    requires i < w
    ensures Bits(n, w)[i] == (n / Pow2(w - 1 - i) % 2 == 1)
  {
    BitsPrefix(n, w, i + 1);
    assert Bits(n, w)[i] == Bits(n, w)[..i + 1][i];
  }

  method Deinterleave(interleaved: Word) returns (upper: Byte, lower: Byte)
    ensures Bits(upper, 8) == Evens(Bits(interleaved, 16))
    ensures Bits(lower, 8) == Odds(Bits(interleaved, 16))
  {
    hide *;
    ghost var b := Bits(interleaved, 16);
    upper, lower := 0, 0;
    NoBits(Evens(b));
    NoBits(Odds(b));
    PartSizes(b);
    var i := 7;
    ghost var k := 0;
    while i >= 0
      invariant 0 <= k <= 8 && i == 7 - k
      invariant upper == Val(Evens(b)[..k]) && lower == Val(Odds(b)[..k])
    {
      NextPair(interleaved, k);
      upper := upper * 2 + BitOf(interleaved, i * 2 + 1);
      lower := lower * 2 + BitOf(interleaved, i * 2);
      i, k := i - 1, k + 1;
    }
    assert Evens(b)[..8] == Evens(b) && Odds(b)[..8] == Odds(b);
    BitsOfVal(Evens(b));
    BitsOfVal(Odds(b));
  }

  lemma NoBits(b: seq<bool>)
    ensures Val(b[..0]) == 0
  {
  }

  lemma PartSizes(b: seq<bool>)
    ensures |Evens(b)| == (|b| + 1) / 2 && |Odds(b)| == |b| / 2
  {
  }

  // Bits 2i + 1 and 2i of a word.
  lemma PairAt(n: Word, i: nat)
    requires i < 8
    ensures Evens(Bits(n, 16))[7 - i] == (BitOf(n, i * 2 + 1) == 1)
    ensures Odds(Bits(n, 16))[7 - i] == (BitOf(n, i * 2) == 1)
  {
    hide Bits, Pow2;
    BitAt(n, 16, 14 - 2 * i);
    BitAt(n, 16, 15 - 2 * i);
  }

  lemma NextPair(n: Word, k: nat)
    requires k < 8
    ensures var b := Bits(n, 16);
            && |Evens(b)| == |Odds(b)| == 8
            && Val(Evens(b)[..k + 1]) == Val(Evens(b)[..k]) * 2 + BitOf(n, (7 - k) * 2 + 1) < 256
            && Val(Odds(b)[..k + 1]) == Val(Odds(b)[..k]) * 2 + BitOf(n, (7 - k) * 2) < 256
  {
    hide *;
    var b := Bits(n, 16);
    PartSizes(b);
    PairAt(n, 7 - k);
    NextBit(Evens(b), k);
    NextBit(Odds(b), k);
  }

  lemma NextBit(b: seq<bool>, k: nat)
    requires k < |b|
    ensures Val(b[..k + 1]) == 2 * Val(b[..k]) + (if b[k] then 1 else 0)
    ensures k < 8 ==> Val(b[..k + 1]) < 256
  {
    assert b[..k + 1][..k] == b[..k];
    ValBound(b[..k + 1]);
    Powers();
  }
}

/** The cells around a cell. */
module GeoNeighbors {
  import opened Units
  import opened GeoBits
  import opened GeoWords
  import opened GeoInterleave
  import opened GeoCells
  import opened GeoHash

  // ----- what the neighbours are -----

  datatype Cell = Cell(lat: nat, lon: nat)

  function LatLength(bitlength: nat): nat { bitlength / 2 }
  function LonLength(bitlength: nat): nat { bitlength / 2 + bitlength % 2 }

  // Latitudes stop at the poles, longitudes go around.
  function Rows(lat: nat, length: nat): seq<nat> {
    [lat] + (if lat > 0 then [lat - 1] else []) + (if lat + 1 < Pow2(length) then [lat + 1] else [])
  }

  function Columns(lon: nat, length: nat): seq<nat> {
    [lon] + (if Pow2(length) > 1 then [Stepped(lon, length, false)] else [])
    + (if Pow2(length) > 2 then [Stepped(lon, length, true)] else [])
  }

  function Line(lat: nat, lons: seq<nat>): (cells: seq<Cell>)
    ensures |cells| == |lons|
  {
    seq(|lons|, i requires 0 <= i < |lons| => Cell(lat, lons[i]))
  }

  function Grid(lats: seq<nat>, lons: seq<nat>): seq<Cell> {
    if lats == [] then [] else Grid(lats[..|lats| - 1], lons) + Line(lats[|lats| - 1], lons)
  }

  function Tail(cells: seq<Cell>): seq<Cell> {
    if cells == [] then [] else cells[1..]
  }

  function Around(cell: Cell, bitlength: nat): seq<Cell> {
    Tail(Grid(Rows(cell.lat, LatLength(bitlength)), Columns(cell.lon, LonLength(bitlength))))
  }

  // Neighbours in repeated values count once.
  function Distinct(s: seq<nat>): seq<nat> {
    if s == [] then []
    else Distinct(s[..|s| - 1]) + if |s| > 1 && s[|s| - 1] == s[|s| - 2] then [] else [s[|s| - 1]]
  }

  lemma DistinctRows(lat: nat, length: nat, s: seq<nat>)
    requires lat < Pow2(length) && |s| == 3 && s[0] == lat
    requires s[1] == if lat == 0 then lat else lat - 1
    requires s[2] == if lat + 1 == Pow2(length) then s[1] else lat + 1
    ensures Distinct(s) == Rows(lat, length)
  {
    DistinctOfThree(s);
  }

  lemma DistinctColumns(lon: nat, length: nat, s: seq<nat>)
    requires lon < Pow2(length) && s == [lon, Stepped(lon, length, false), Stepped(lon, length, true)]
    ensures Distinct(s) == Columns(lon, length)
  {
    hide Pow2;
    DistinctOfThree(s);
  }

  lemma DistinctOfThree(s: seq<nat>)
    requires |s| == 3
    ensures Distinct(s) == [s[0]] + (if s[1] == s[0] then [] else [s[1]]) + (if s[2] == s[1] then [] else [s[2]])
  {
    assert s[..2][..1] == [s[0]];
    assert Distinct([s[0]]) == [s[0]] by { assert [s[0]][..0] == []; }
  }

  // ----- words of a cell -----

  predicate IsCell(words: seq<Word>, bitlength: nat, cell: Cell) {
    && bitlength <= 16 * |words|
    && Concat(words, 16)[..bitlength] == Zip(Bits(cell.lon, LonLength(bitlength)), Bits(cell.lat, LatLength(bitlength)))
  }

  lemma PartsAreCell(words: seq<Word>, bitlength: nat, lons: seq<Byte>, lats: seq<Byte>)
    requires bitlength <= 16 * |words| && TakenApart(words, lons, lats)
    ensures LatLength(bitlength) <= 8 * |lats| && LonLength(bitlength) <= 8 * |lons|
    ensures IsCell(words, bitlength, Cell(Top(lats, LatLength(bitlength)), Top(lons, LonLength(bitlength))))
  {
    hide Bits, Concat, Evens, Odds, Zip, Val, TakenApart;
    assert |lons| == |lats| == |words| by { Sizes(words, lons, lats); }
    ConcatParts(words, lons, lats);
    var b := Concat(words, 16)[..bitlength];
    PartsOfPrefix(Concat(words, 16), bitlength);
    BitsOfVal(Evens(b));
    BitsOfVal(Odds(b));
    ZipUnique(b);
  }

  lemma Sizes(words: seq<Word>, lons: seq<Byte>, lats: seq<Byte>)
    requires TakenApart(words, lons, lats)
    ensures |lons| == |lats| == |words|
  {
  }

  // ----- the three latitudes and longitudes -----

  predicate Three(a: seq<array<Byte>>, n: nat) {
    |a| == 3 && a[0] != a[1] && a[1] != a[2] && a[0] != a[2] && a[0].Length == a[1].Length == a[2].Length == n
  }

  // The top bit of the first byte tells the upper half from the lower.
  lemma TopHalf(bytes: seq<Byte>, length: nat)
    requires 0 < length <= 8 * |bytes|
    ensures bytes[0] >= 128 <==> 2 * Top(bytes, length) >= Pow2(length)
  {
    hide Top, Concat, Val;
    TopOfBytes(bytes, 0, 1);
    TopPrefix(bytes, bytes, 0);
    TopSplit(bytes, 1, length);
    assert Pow2(7) == 128 && Pow2(1) == 2 by { Powers(); }
    assert Top(bytes, 0) == 0 by { NoTop(bytes); }
    assert Top(bytes, 1) == bytes[0] / 128;
    assert Pow2(length) == 2 * Pow2(length - 1);
  }

  lemma NoTop(bytes: seq<Byte>)
    ensures Top(bytes, 0) == 0
  {
  }

  method Copy(src: array<Byte>, dst: array<Byte>)
    requires src != dst && src.Length == dst.Length
    modifies dst
    ensures dst[..] == src[..]
  {
    var i := 0;
    while i < src.Length
      invariant 0 <= i <= src.Length && dst[..i] == src[..i]
    {
      dst[i] := src[i];
      i := i + 1;
    }
  }

  method StepLatitudes(lats: seq<array<Byte>>, length: nat, n: nat)
    requires Three(lats, n) && length <= 8 * n && lats[1][..] == lats[0][..] && lats[2][..] == lats[0][..]
    modifies lats[1], lats[2]
    ensures Distinct([Top(lats[0][..], length), Top(lats[1][..], length), Top(lats[2][..], length)])
            == Rows(Top(lats[0][..], length), length)
  {
    hide Top, Rows, Distinct, Pow2;
    ghost var lat := Top(lats[0][..], length);
    TopBelow(lats[0][..], length);
    var stepped := PlusMinus(lats[0], lats[1], length, false);
    if stepped {
      TopHalf(lats[0][..], length);
      TopHalf(lats[1][..], length);
      HalfOfPower(length);
      if lats[1][0] >= 128 && lats[0][0] < 128 { Copy(lats[0], lats[1]); }
    }
    assert Top(lats[1][..], length) == if lat == 0 then lat else lat - 1;
    stepped := PlusMinus(lats[0], lats[2], length, true);
    if stepped {
      TopHalf(lats[2][..], length);
      if lats[2][0] < 128 && lats[0][0] >= 128 { Copy(lats[1], lats[2]); }
    }
    DistinctRows(lat, length, [lat, Top(lats[1][..], length), Top(lats[2][..], length)]);
  }

  lemma TopBelow(bytes: seq<Byte>, length: nat)
    requires length <= 8 * |bytes|
    ensures Top(bytes, length) < Pow2(length)
    ensures length == 0 ==> Pow2(length) == 1
  {
    ValBound(Concat(bytes, 8)[..length]);
  }

  lemma HalfOfPower(length: nat)
    requires length > 0
    ensures exists h: nat :: h > 0 && Pow2(length) == 2 * h
  {
    assert Pow2(length) == 2 * Pow2(length - 1);
  }

  method StepLongitudes(lons: seq<array<Byte>>, length: nat, n: nat)
    requires Three(lons, n) && length <= 8 * n && lons[1][..] == lons[0][..] && lons[2][..] == lons[0][..]
    modifies lons[1], lons[2]
    ensures Distinct([Top(lons[0][..], length), Top(lons[1][..], length), Top(lons[2][..], length)])
            == Columns(Top(lons[0][..], length), length)
  {
    hide Top, Columns, Distinct, Pow2, Stepped;
    TopBelow(lons[0][..], length);
    var minus := PlusMinus(lons[0], lons[1], length, false);
    var plus := PlusMinus(lons[0], lons[2], length, true);
    DistinctColumns(Top(lons[0][..], length), length,
                    [Top(lons[0][..], length), Top(lons[1][..], length), Top(lons[2][..], length)]);
  }

  // The cell that the first bits of some words name.
  function CellOf(words: seq<Word>, bitlength: nat): (cell: Cell)
    requires bitlength <= 16 * |words|
  {
    var b := Concat(words, 16)[..bitlength];
    Cell(Val(Odds(b)), Val(Evens(b)))
  }

  lemma TopsOfCell(words: seq<Word>, bitlength: nat, lons: seq<Byte>, lats: seq<Byte>)
    requires bitlength <= 16 * |words| && TakenApart(words, lons, lats)
    ensures LatLength(bitlength) <= 8 * |lats| && LonLength(bitlength) <= 8 * |lons|
    ensures CellOf(words, bitlength) == Cell(Top(lats, LatLength(bitlength)), Top(lons, LonLength(bitlength)))
  {
    hide Bits, Concat, Evens, Odds, Val, TakenApart;
    assert |lons| == |lats| == |words| by { Sizes(words, lons, lats); }
    ConcatParts(words, lons, lats);
    PartsOfPrefix(Concat(words, 16), bitlength);
  }

  method Unpack(interleaved: array<Word>, n: nat) returns (lats: seq<array<Byte>>, lons: seq<array<Byte>>)
    requires n <= interleaved.Length
    ensures Three(lats, n) && Three(lons, n)
    ensures forall k | 0 <= k < 3 :: fresh(lats[k]) && fresh(lons[k]) && lats[k] !in lons
    ensures TakenApart(interleaved[..n], lons[0][..], lats[0][..])
    ensures lats[1][..] == lats[0][..] && lats[2][..] == lats[0][..]
    ensures lons[1][..] == lons[0][..] && lons[2][..] == lons[0][..]
  {
    hide Bits, Evens, Odds, TakenApart;
    var a, b, c := new Byte[n], new Byte[n], new Byte[n];
    var x, y, z := new Byte[n], new Byte[n], new Byte[n];
    lats, lons := [a, b, c], [x, y, z];
    NothingTaken();
    assert interleaved[..0] == [] && x[..0] == [] && a[..0] == [];
    var i := 0;
    while i < n
      invariant 0 <= i <= n
      invariant forall k | 0 <= k < i :: b[k] == a[k] && c[k] == a[k] && y[k] == x[k] && z[k] == x[k]
      invariant TakenApart(interleaved[..i], x[..i], a[..i])
    {
      var upper, lower := Deinterleave(interleaved[i]);
      TakeNext(interleaved[..i], x[..i], a[..i], interleaved[i], upper, lower);
      assert interleaved[..i + 1] == interleaved[..i] + [interleaved[i]];
      x[i], a[i] := upper, lower;
      b[i], c[i] := lower, lower;
      y[i], z[i] := upper, upper;
      assert x[..i + 1] == x[..i] + [upper] && a[..i + 1] == a[..i] + [lower];
      i := i + 1;
    }
    assert x[..n] == x[..] && a[..n] == a[..];
  }

  lemma NothingTaken()
    ensures TakenApart([], [], [])
  {
  }

  lemma TakeNext(words: seq<Word>, upper: seq<Byte>, lower: seq<Byte>, w: Word, u: Byte, l: Byte)
    requires TakenApart(words, upper, lower) && Bits(u, 8) == Evens(Bits(w, 16)) && Bits(l, 8) == Odds(Bits(w, 16))
    ensures TakenApart(words + [w], upper + [u], lower + [l])
  {
    hide Bits, Evens, Odds;
  }

  // ----- writing the cells -----

  lemma InterleavedTaken(words: seq<Word>, lons: seq<Byte>, lats: seq<Byte>)
    requires |words| == |lons| == |lats| && forall k | 0 <= k < |words| :: words[k] == Interleave(lons[k], lats[k])
    ensures TakenApart(words, lons, lats)
  {
    hide Bits, Evens, Odds, Interleave, Zip;
    forall k | 0 <= k < |words|
      ensures Bits(lons[k], 8) == Evens(Bits(words[k], 16)) && Bits(lats[k], 8) == Odds(Bits(words[k], 16)) {
      InterleaveZips(lons[k], lats[k]);
    }
  }

  function Flat(blocks: seq<seq<Word>>): seq<Word> {
    if blocks == [] then [] else Flat(blocks[..|blocks| - 1]) + blocks[|blocks| - 1]
  }

  lemma {:induction false} FlatAt(blocks: seq<seq<Word>>, n: nat, t: nat)
    requires t < |blocks| && forall k | 0 <= k < |blocks| :: |blocks[k]| == n
    ensures |Flat(blocks)| == n * |blocks| && 0 <= n * t <= n * t + n <= n * |blocks|
    ensures Flat(blocks)[n * t..n * t + n] == blocks[t]
  {
    var m := |blocks| - 1;
    var front := blocks[..m];
    assert n * |blocks| == n * m + n;
    FlatLength(front, n);
    if t < m {
      FlatAt(front, n, t);
      assert Flat(blocks)[n * t..n * t + n] == Flat(front)[n * t..n * t + n];
    }
  }

  lemma {:induction false} FlatLength(blocks: seq<seq<Word>>, n: nat)
    requires forall k | 0 <= k < |blocks| :: |blocks[k]| == n
    ensures |Flat(blocks)| == n * |blocks|
  {
    if blocks != [] {
      FlatLength(blocks[..|blocks| - 1], n);
      assert n * |blocks| == n * (|blocks| - 1) + n;
    }
  }

  method WriteCell(lon: array<Byte>, lat: array<Byte>, n: nat, bitlength: nat, dst: array<Word>, count: nat)
    returns (ghost block: seq<Word>)
    requires lon.Length == lat.Length == n && bitlength <= 16 * n && 0 <= n * count <= n * count + n <= dst.Length
    modifies dst
    ensures |block| == n && dst[..n * count + n] == old(dst[..n * count]) + block
    ensures LatLength(bitlength) <= 8 * n && LonLength(bitlength) <= 8 * n
    ensures IsCell(block, bitlength, Cell(Top(lat[..], LatLength(bitlength)), Top(lon[..], LonLength(bitlength))))
  {
    hide Interleave, IsCell, Top;
    var start := n * count;
    var k := 0;
    while k < n
      invariant 0 <= k <= n
      invariant dst[..start] == old(dst[..start])
      invariant forall m | 0 <= m < k :: dst[start + m] == Interleave(lon[m], lat[m])
    {
      dst[start + k] := Interleave(lon[k], lat[k]);
      k := k + 1;
    }
    block := dst[start..start + n];
    InterleavedTaken(block, lon[..], lat[..]);
    PartsAreCell(block, bitlength, lon[..], lat[..]);
  }

  predicate Written(dst: seq<Word>, n: nat, bitlength: nat, blocks: seq<seq<Word>>, cells: seq<Cell>) {
    && |blocks| == |cells|
    && 0 <= n * |blocks| <= |dst| && dst[..n * |blocks|] == Flat(blocks)
    && forall k | 0 <= k < |blocks| :: |blocks[k]| == n && IsCell(blocks[k], bitlength, cells[k])
  }

  lemma WrittenNext(was: seq<Word>, dst: seq<Word>, n: nat, bitlength: nat, blocks: seq<seq<Word>>, cells: seq<Cell>,
        block: seq<Word>, cell: Cell)
    requires Written(was, n, bitlength, blocks, cells) && |dst| == |was| && |block| == n
             && IsCell(block, bitlength, cell)
    requires 0 <= n * |blocks| + n <= |dst| && dst[..n * |blocks| + n] == was[..n * |blocks|] + block
    ensures Written(dst, n, bitlength, blocks + [block], cells + [cell])
  {
    hide IsCell;
    assert n * |blocks + [block]| == n * |blocks| + n;
    assert (blocks + [block])[..|blocks|] == blocks;
  }

  lemma DistinctNext(s: seq<nat>, j: nat)
    requires j < |s|
    ensures Distinct(s[..j + 1]) == Distinct(s[..j]) + if j > 0 && s[j] == s[j - 1] then [] else [s[j]]
    ensures 1 <= |Distinct(s[..j + 1])| <= j + 1
  {
    assert s[..j + 1][..j] == s[..j];
    if j > 0 { DistinctNext(s, j - 1); }
  }

  function RowCells(lat: nat, lons: seq<nat>, first: bool): seq<Cell> {
    if first then Tail(Line(lat, lons)) else Line(lat, lons)
  }

  lemma RowNext(lat: nat, lons: seq<nat>, j: nat, first: bool)
    requires j < |lons|
    ensures var row := RowCells(lat, Distinct(lons[..j]), first);
            var next := RowCells(lat, Distinct(lons[..j + 1]), first);
            var same := (j > 0 && lons[j] == lons[j - 1]) || (j == 0 && first);
            && next == row + (if same then [] else [Cell(lat, lons[j])])
            && |next| <= (if first then j else j + 1)
  {
    DistinctNext(lons, j);
    if j > 0 { DistinctNext(lons, j - 1); }
    var d := Distinct(lons[..j]);
    assert j == 0 ==> lons[..j] == [];
    assert Line(lat, d + [lons[j]]) == Line(lat, d) + [Cell(lat, lons[j])];
  }

  method WriteNext(lon: array<Byte>, lat: array<Byte>, n: nat, bitlength: nat, dst: array<Word>, count: nat,
                   ghost blocks: seq<seq<Word>>, ghost cells: seq<Cell>)
    returns (ghost blocks': seq<seq<Word>>)
    requires lon.Length == lat.Length == n && bitlength <= 16 * n && 8 * n <= dst.Length
    requires LatLength(bitlength) <= 8 * n && LonLength(bitlength) <= 8 * n
    requires Written(dst[..], n, bitlength, blocks, cells) && count == |cells| < 8
    modifies dst
    ensures Written(dst[..], n, bitlength, blocks',
                    cells + [Cell(Top(lat[..], LatLength(bitlength)), Top(lon[..], LonLength(bitlength)))])
  {
    hide Top, Written, IsCell;
    Room(n, count, dst.Length);
    WrittenSizes(dst[..], n, bitlength, blocks, cells);
    ghost var was := dst[..];
    ghost var block := WriteCell(lon, lat, n, bitlength, dst, count);
    blocks' := blocks + [block];
    WrittenNext(was, dst[..], n, bitlength, blocks, cells, block,
                Cell(Top(lat[..], LatLength(bitlength)), Top(lon[..], LonLength(bitlength))));
  }

  method WriteRow(lat: array<Byte>, lons: seq<array<Byte>>, n: nat, bitlength: nat, dst: array<Word>, first: bool,
        start: nat,
                  ghost blocks: seq<seq<Word>>, ghost cells: seq<Cell>, ghost values: seq<nat>)
    returns (count: nat, ghost blocks': seq<seq<Word>>)
    requires lat.Length == n && Three(lons, n) && bitlength <= 16 * n && 0 <= 8 * n <= dst.Length
    requires LatLength(bitlength) <= 8 * n && LonLength(bitlength) <= 8 * n
    requires |values| == 3 && forall j | 0 <= j < 3 :: values[j] == Top(lons[j][..], LonLength(bitlength))
    requires Written(dst[..], n, bitlength, blocks, cells) && start == |cells| && start + (if first then 2 else 3) <= 8
    modifies dst
    ensures count == start + |RowCells(Top(lat[..], LatLength(bitlength)), Distinct(values), first)|
    ensures Written(dst[..], n, bitlength, blocks',
                    cells + RowCells(Top(lat[..], LatLength(bitlength)), Distinct(values), first))
  {
    hide Top, Distinct, RowCells, Written, IsCell;
    ghost var l := Top(lat[..], LatLength(bitlength));
    count, blocks' := start, blocks;
    NoRow(l, first);
    assert values[..0] == [] && cells + [] == cells;
    var j := 0;
    while j < 3
      invariant 0 <= j <= 3
      invariant count == start + |RowCells(l, Distinct(values[..j]), first)|
      invariant |RowCells(l, Distinct(values[..j]), first)| <= if first && j > 0 then j - 1 else j
      invariant Written(dst[..], n, bitlength, blocks', cells + RowCells(l, Distinct(values[..j]), first))
    {
      RowNext(l, values, j, first);
      ghost var row := RowCells(l, Distinct(values[..j]), first);
      var same := false;
      if j > 0 {
        var order := Compare(lons[j - 1], lons[j], LonLength(bitlength));
        same := order == 0;
      }
      if !same && !(first && j == 0) {
        blocks' := WriteNext(lons[j], lat, n, bitlength, dst, count, blocks', cells + row);
        assert cells + row + [Cell(l, values[j])] == cells + (row + [Cell(l, values[j])]);
        count := count + 1;
      } else {
        assert row + [] == row;
      }
      j := j + 1;
    }
    assert values[..3] == values;
  }

  lemma NoRow(lat: nat, first: bool)
    ensures RowCells(lat, Distinct([]), first) == []
  {
  }

  lemma Room(n: nat, count: nat, length: nat)
    requires count < 8 && 8 * n <= length
    ensures 0 <= n * count <= n * count + n <= length
  {
    Distribute(8 - count - 1, count + 1, n);
  }

  lemma WrittenSizes(dst: seq<Word>, n: nat, bitlength: nat, blocks: seq<seq<Word>>, cells: seq<Cell>)
    requires Written(dst, n, bitlength, blocks, cells)
    ensures |blocks| == |cells|
  {
  }

  // The cells of the first i latitudes, without the first cell of all.
  function Block(lats: seq<nat>, lons: seq<nat>, i: nat): seq<Cell>
    requires i <= |lats|
  {
    Tail(Grid(Distinct(lats[..i]), Distinct(lons)))
  }

  lemma BlockNext(lats: seq<nat>, lons: seq<nat>, i: nat)
    requires i < |lats| && |lons| == 3
    ensures Block(lats, lons, i + 1) == Block(lats, lons, i)
            + if i > 0 && lats[i] == lats[i - 1] then [] else RowCells(lats[i], Distinct(lons), i == 0)
    ensures |Block(lats, lons, i + 1)| <= 3 * i + 2
  {
    hide Distinct, Grid;
    DistinctNext(lats, i);
    DistinctNext(lons, 2);
    assert lons[..3] == lons;
    var (d, m) := (Distinct(lats[..i]), Distinct(lons));
    GridNext(d, lats[i], m);
    GridSize(Distinct(lats[..i + 1]), m);
    Product(|Distinct(lats[..i + 1])|, i + 1, |m|);
    if i > 0 {
      DistinctNext(lats, i - 1);
      GridSize(d, m);
      AtLeastOnce(|d|, |m|);
      assert d + [] == d;
      var row := Line(lats[i], m);
      assert (Grid(d, m) + row)[1..] == Grid(d, m)[1..] + row;
      assert Grid(d, m)[1..] + [] == Grid(d, m)[1..];
    } else {
      NoLatitude(lats, lons);
      assert Grid([], m) == [] by { NoGrid(m); }
      assert [] + Line(lats[i], m) == Line(lats[i], m);
      assert [] + RowCells(lats[i], m, true) == RowCells(lats[i], m, true);
    }
  }

  lemma Product(x: nat, y: nat, m: nat)
    requires x <= y && m <= 3
    ensures x * m <= 3 * y
  {
  }

  lemma NoGrid(lons: seq<nat>)
    ensures Grid([], lons) == []
  {
  }

  lemma NoLatitude(lats: seq<nat>, lons: seq<nat>)
    ensures Distinct(lats[..0]) == [] && Block(lats, lons, 0) == []
  {
    assert lats[..0] == [];
  }

  lemma GridNext(d: seq<nat>, lat: nat, lons: seq<nat>)
    ensures Grid(d + [lat], lons) == Grid(d, lons) + Line(lat, lons)
  {
    assert (d + [lat])[..|d|] == d;
  }

  lemma {:induction false} GridSize(d: seq<nat>, lons: seq<nat>)
    ensures |Grid(d, lons)| == |d| * |lons|
  {
    if d != [] {
      GridSize(d[..|d| - 1], lons);
      Distribute(|d| - 1, 1, |lons|);
    }
  }

  method WriteCells(lats: seq<array<Byte>>, lons: seq<array<Byte>>, n: nat, bitlength: nat, dst: array<Word>,
                    ghost latValues: seq<nat>, ghost lonValues: seq<nat>)
    returns (count: nat, ghost blocks: seq<seq<Word>>)
    requires Three(lats, n) && Three(lons, n) && bitlength <= 16 * n && 0 <= 8 * n <= dst.Length
    requires LatLength(bitlength) <= 8 * n && LonLength(bitlength) <= 8 * n
    requires |latValues| == 3 && forall i | 0 <= i < 3 :: latValues[i] == Top(lats[i][..], LatLength(bitlength))
    requires |lonValues| == 3 && forall j | 0 <= j < 3 :: lonValues[j] == Top(lons[j][..], LonLength(bitlength))
    modifies dst
    ensures count == |Tail(Grid(Distinct(latValues), Distinct(lonValues)))|
    ensures Written(dst[..], n, bitlength, blocks, Tail(Grid(Distinct(latValues), Distinct(lonValues))))
  {
    hide Top, Distinct, RowCells, Written, IsCell, Block, Grid, Tail;
    count, blocks := 0, [];
    NoLatitude(latValues, lonValues);
    NothingWritten(dst[..], n, bitlength);
    var i := 0;
    while i < 3
      invariant 0 <= i <= 3
      invariant count == |Block(latValues, lonValues, i)| <= (if i == 0 then 0 else 3 * i - 1)
      invariant Written(dst[..], n, bitlength, blocks, Block(latValues, lonValues, i))
    {
      BlockNext(latValues, lonValues, i);
      ghost var cells := Block(latValues, lonValues, i);
      var same := false;
      if i > 0 {
        var order := Compare(lats[i - 1], lats[i], LatLength(bitlength));
        same := order == 0;
      }
      if !same {
        count, blocks := WriteRow(lats[i], lons, n, bitlength, dst, i == 0, count, blocks, cells, lonValues);
      } else {
        assert cells + [] == cells;
      }
      i := i + 1;
    }
    WholeBlock(latValues, lonValues);
  }

  lemma WholeBlock(lats: seq<nat>, lons: seq<nat>)
    ensures Block(lats, lons, |lats|) == Tail(Grid(Distinct(lats), Distinct(lons)))
  {
    assert lats[..|lats|] == lats;
  }

  lemma NothingWritten(dst: seq<Word>, n: nat, bitlength: nat)
    ensures Written(dst, n, bitlength, [], [])
  {
  }

  method Neighbors(interleaved: array<Word>, bitlength: nat, dst: array<Word>) returns (status: Status, count: nat)
    requires interleaved != dst && bitlength <= 16 * interleaved.Length
    modifies dst
    ensures var n := (bitlength + 15) / 16;
            if dst.Length < n * 8 then status == InternalError && dst[..] == old(dst[..])
            else
              var cells := Around(CellOf(interleaved[..], bitlength), bitlength);
              status == Ok && count == |cells| && ListsCells(dst[..], n, bitlength, cells)
  {
    hide Around, ListsCells, TakenApart, CellOf;
    var n := 0;
    while n * 16 < bitlength
      invariant n <= (bitlength + 15) / 16
    {
      n := n + 1;
    }
    if dst.Length < n * 8 { return InternalError, 0; }
    var lats, lons := Unpack(interleaved, n);
    CellOfFirst(interleaved[..], n, bitlength);
    count := CellsAround(lats, lons, n, bitlength, dst, interleaved[..n]);
    return Ok, count;
  }

  method CellsAround(lats: seq<array<Byte>>, lons: seq<array<Byte>>, n: nat, bitlength: nat, dst: array<Word>,
        ghost words: seq<Word>)
    returns (count: nat)
    requires Three(lats, n) && Three(lons, n) && (forall i, j | 0 <= i < 3 && 0 <= j < 3 :: lats[i] != lons[j])
    requires |words| == n && bitlength <= 16 * n && 0 <= 8 * n <= dst.Length
             && TakenApart(words, lons[0][..], lats[0][..])
    requires lats[1][..] == lats[0][..] && lats[2][..] == lats[0][..]
    requires lons[1][..] == lons[0][..] && lons[2][..] == lons[0][..]
    modifies dst, lats[1], lats[2], lons[1], lons[2]
    ensures count == |Around(CellOf(words, bitlength), bitlength)|
    ensures ListsCells(dst[..], n, bitlength, Around(CellOf(words, bitlength), bitlength))
  {
    hide Top, Distinct, Written, IsCell, Grid, Tail, Rows, Columns, TakenApart, CellOf, ListsCells;
    TopsOfCell(words, bitlength, lons[0][..], lats[0][..]);
    StepLatitudes(lats, LatLength(bitlength), n);
    StepLongitudes(lons, LonLength(bitlength), n);
    ghost var blocks;
    count, blocks := WriteCells(lats, lons, n, bitlength, dst,
      [Top(lats[0][..], LatLength(bitlength)), Top(lats[1][..], LatLength(bitlength)),
        Top(lats[2][..], LatLength(bitlength))],
      [Top(lons[0][..], LonLength(bitlength)), Top(lons[1][..], LonLength(bitlength)),
        Top(lons[2][..], LonLength(bitlength))]);
    WrittenAt(dst[..], n, bitlength, blocks, Around(CellOf(words, bitlength), bitlength));
  }

  // The words of each cell, one after the other.
  predicate ListsCells(dst: seq<Word>, n: nat, bitlength: nat, cells: seq<Cell>) {
    forall k | 0 <= k < |cells| :: 0 <= n * k <= n * k + n <= |dst|
      && IsCell(dst[n * k..n * k + n], bitlength, cells[k])
  }

  lemma CellOfFirst(words: seq<Word>, n: nat, bitlength: nat)
    requires n <= |words| && bitlength <= 16 * n
    ensures CellOf(words[..n], bitlength) == CellOf(words, bitlength)
  {
    hide Concat, Evens, Odds, Val;
    ConcatAppend(words[..n], words[n..], 16);
    assert words == words[..n] + words[n..];
    assert Concat(words, 16)[..bitlength] == Concat(words[..n], 16)[..bitlength];
  }

  lemma WrittenAt(dst: seq<Word>, n: nat, bitlength: nat, blocks: seq<seq<Word>>, cells: seq<Cell>)
    requires Written(dst, n, bitlength, blocks, cells)
    ensures ListsCells(dst, n, bitlength, cells)
  {
    hide IsCell, Flat;
    forall k | 0 <= k < |cells|
      ensures 0 <= n * k <= n * k + n <= |dst| && IsCell(dst[n * k..n * k + n], bitlength, cells[k])
    {
      FlatAt(blocks, n, k);
      Inside(dst, n * |blocks|, n * k, n * k + n);
    }
  }

  lemma Inside(dst: seq<Word>, m: nat, a: nat, b: nat)
    requires a <= b <= m <= |dst|
    ensures dst[..m][a..b] == dst[a..b]
  {
  }
}

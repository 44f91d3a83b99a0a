/** Neighbouring cells are exactly the adjacent ones, as numbers and as text. */
module GeoAdjacent {
  import opened Wrappers
  import opened GeoBits
  import opened GeoWords
  import opened GeoRead
  import opened GeoCells
  import opened GeoNeighbors

  // A cell on a map of the given precision.
  predicate OnMap(cell: Cell, bitlength: nat) {
    cell.lat < Pow2(LatLength(bitlength)) && cell.lon < Pow2(LonLength(bitlength))
  }

  // At most one step away; longitudes meet at the back of the globe.
  predicate Adjacent(a: Cell, b: Cell, bitlength: nat) {
    && a != b
    && OnMap(a, bitlength) && OnMap(b, bitlength)
    && -1 <= a.lat - b.lat <= 1
    && var around := Pow2(LonLength(bitlength)); (a.lon - b.lon) % around in {0, 1 % around, around - 1}
  }

  predicate NoRepeats<T(==)>(s: seq<T>) {
    forall i, j | 0 <= i < j < |s| :: s[i] != s[j]
  }

  lemma {:induction false} GridHolds(lats: seq<nat>, lons: seq<nat>, c: Cell)
    ensures c in Grid(lats, lons) <==> c.lat in lats && c.lon in lons
  {
    if lats != [] {
      var n := |lats| - 1;
      GridHolds(lats[..n], lons, c);
      var line := Line(lats[n], lons);
      assert lats == lats[..n] + [lats[n]];
      if c.lat == lats[n] && c.lon in lons {
        var j :| 0 <= j < |lons| && lons[j] == c.lon;
        assert line[j] == c;
      }
    }
  }

  lemma {:induction false} GridNoRepeats(lats: seq<nat>, lons: seq<nat>)
    requires NoRepeats(lats) && NoRepeats(lons)
    ensures NoRepeats(Grid(lats, lons))
  {
    if lats != [] {
      var n := |lats| - 1;
      GridNoRepeats(lats[..n], lons);
      var (front, line) := (Grid(lats[..n], lons), Line(lats[n], lons));
      forall i, j | 0 <= i < |front| && 0 <= j < |line| ensures front[i] != line[j] {
        GridHolds(lats[..n], lons, front[i]);
      }
      assert Grid(lats, lons) == front + line;
    }
  }

  lemma {:induction false} GridStarts(lats: seq<nat>, lons: seq<nat>)
    requires lats != [] && lons != []
    ensures |Grid(lats, lons)| > 0 && Grid(lats, lons)[0] == Cell(lats[0], lons[0])
  {
    var n := |lats| - 1;
    if n > 0 { GridStarts(lats[..n], lons); }
  }

  lemma RowsAre(lat: nat, length: nat, x: nat)
    requires lat < Pow2(length)
    ensures NoRepeats(Rows(lat, length))
    ensures x in Rows(lat, length) <==> x < Pow2(length) && -1 <= x - lat <= 1
  {
  }

  lemma ColumnsAre(lon: nat, length: nat, x: nat)
    requires lon < Pow2(length)
    ensures NoRepeats(Columns(lon, length))
    ensures x in Columns(lon, length)
            <==> x < Pow2(length) && (x - lon) % Pow2(length) in {0, 1 % Pow2(length), Pow2(length) - 1}
  {
    hide Pow2;
    if x < Pow2(length) { CircleStep(x, lon, Pow2(length)); }
  }

  lemma CircleStep(x: nat, y: nat, n: nat)
    requires x < n && y < n
    ensures (x - y) % n == if x >= y then x - y else x - y + n
    ensures 1 % n == if n == 1 then 0 else 1
  {
    if x >= y { ModUnique(x - y, n, 0, x - y); } else { ModUnique(x - y, n, -1, x - y + n); }
    if n > 1 { ModUnique(1, n, 0, 1); }
  }

  // Every adjacent cell, once, and nothing else.
  lemma AroundIsAdjacent(cell: Cell, bitlength: nat)
    requires OnMap(cell, bitlength)
    ensures NoRepeats(Around(cell, bitlength))
    ensures forall c :: c in Around(cell, bitlength) <==> Adjacent(c, cell, bitlength)
  {
    hide Pow2, Rows, Columns, Grid;
    var (rows, columns) := (Rows(cell.lat, LatLength(bitlength)), Columns(cell.lon, LonLength(bitlength)));
    assert rows != [] && rows[0] == cell.lat && columns != []
        && columns[0] == cell.lon by { FirstOnes(cell, bitlength); }
    GridStarts(rows, columns);
    RowsAre(cell.lat, LatLength(bitlength), 0);
    ColumnsAre(cell.lon, LonLength(bitlength), 0);
    GridNoRepeats(rows, columns);
    forall c ensures c in Around(cell, bitlength) <==> Adjacent(c, cell, bitlength) {
      GridHolds(rows, columns, c);
      RowsAre(cell.lat, LatLength(bitlength), c.lat);
      ColumnsAre(cell.lon, LonLength(bitlength), c.lon);
    }
  }

  lemma FirstOnes(cell: Cell, bitlength: nat)
    ensures |Rows(cell.lat, LatLength(bitlength))| > 0 && Rows(cell.lat, LatLength(bitlength))[0] == cell.lat
    ensures |Columns(cell.lon, LonLength(bitlength))| > 0 && Columns(cell.lon, LonLength(bitlength))[0] == cell.lon
  {
  }

  // Eight inside the map, five in the first and the last row.
  lemma NeighbourCount(cell: Cell, bitlength: nat)
    requires OnMap(cell, bitlength) && bitlength >= 4
    ensures |Around(cell, bitlength)| == if 0 < cell.lat < Pow2(LatLength(bitlength)) - 1 then 8 else 5
  {
    hide Grid;
    var (rows, columns) := (Rows(cell.lat, LatLength(bitlength)), Columns(cell.lon, LonLength(bitlength)));
    GridSize(rows, columns);
    FourAtLeast(LatLength(bitlength));
    FourAtLeast(LonLength(bitlength));
  }

  // The order in which they are listed: the row of the cell, the row below and the row
  // above, each from the cell's own column to its west and its east.
  lemma AroundInOrder(cell: Cell, bitlength: nat)
    requires OnMap(cell, bitlength) && bitlength >= 4 && 0 < cell.lat < Pow2(LatLength(bitlength)) - 1
    ensures var n := Pow2(LonLength(bitlength));
            var (lat, lon, west, east) := (cell.lat, cell.lon, (cell.lon - 1) % n, (cell.lon + 1) % n);
            Around(cell, bitlength)
            == [Cell(lat, west), Cell(lat, east),
                Cell(lat - 1, lon), Cell(lat - 1, west), Cell(lat - 1, east),
                Cell(lat + 1, lon), Cell(lat + 1, west), Cell(lat + 1, east)]
  {
    var n := Pow2(LonLength(bitlength));
    FourAtLeast(LonLength(bitlength));
    StepsAround(cell.lon, n);
    var (rows, columns) := (Rows(cell.lat, LatLength(bitlength)), Columns(cell.lon, LonLength(bitlength)));
    var (west, east) := ((cell.lon - 1) % n, (cell.lon + 1) % n);
    assert rows == [cell.lat, cell.lat - 1, cell.lat + 1];
    assert columns == [cell.lon, west, east];
    hide Pow2, Rows, Columns;
    ThreeRows(cell.lat, cell.lat - 1, cell.lat + 1, columns);
  }

  lemma StepsAround(lon: nat, n: nat)
    requires lon < n && n >= 2
    ensures (lon - 1) % n == if lon == 0 then n - 1 else lon - 1
    ensures (lon + 1) % n == if lon + 1 == n then 0 else lon + 1
  {
    if lon == 0 { ModUnique(lon - 1, n, -1, n - 1); } else { ModUnique(lon - 1, n, 0, lon - 1); }
    if lon + 1 == n { ModUnique(lon + 1, n, 1, 0); } else { ModUnique(lon + 1, n, 0, lon + 1); }
  }

  lemma ThreeRows(a: nat, b: nat, c: nat, lons: seq<nat>)
    requires |lons| == 3
    ensures Grid([a, b, c], lons)
            == [Cell(a, lons[0]), Cell(a, lons[1]), Cell(a, lons[2])]
               + [Cell(b, lons[0]), Cell(b, lons[1]), Cell(b, lons[2])]
               + [Cell(c, lons[0]), Cell(c, lons[1]), Cell(c, lons[2])]
  {
    assert [] + [a] == [a] && [a] + [b] == [a, b] && [a, b] + [c] == [a, b, c];
    GridMore([], a, lons);
    GridMore([a], b, lons);
    GridMore([a, b], c, lons);
    hide Grid;
    assert forall x: nat :: Line(x, lons) == [Cell(x, lons[0]), Cell(x, lons[1]), Cell(x, lons[2])];
  }

  lemma GridMore(lats: seq<nat>, a: nat, lons: seq<nat>)
    ensures Grid(lats + [a], lons) == Grid(lats, lons) + Line(a, lons)
    ensures Grid([], lons) == []
  {
    assert (lats + [a])[..|lats|] == lats;
  }

  lemma FourAtLeast(k: nat)
    requires k >= 2
    ensures Pow2(k) >= 4
  {
    assert Pow2(k) == 2 * Pow2(k - 1) && Pow2(k - 1) == 2 * Pow2(k - 2);
  }

  // ----- as text -----

  function CellText(cell: Cell, n: nat): (s: string)
    ensures |s| == n
  {
    Letters(Zip(Bits(cell.lon, LonLength(5 * n)), Bits(cell.lat, LatLength(5 * n))))
  }

  function TextCell(vs: seq<Five>): Cell {
    Cell(Val(Odds(Concat(vs, 5))), Val(Evens(Concat(vs, 5))))
  }

  // A cell's text reads back as the cell.
  lemma CellTextReadsBack(cell: Cell, n: nat)
    requires OnMap(cell, 5 * n)
    ensures ReadLetters(CellText(cell, n)).Some? && TextCell(ReadLetters(CellText(cell, n)).value) == cell
  {
    hide ReadLetters, Letters, Concat, Bits, Val, Pow2;
    var b := Zip(Bits(cell.lon, LonLength(5 * n)), Bits(cell.lat, LatLength(5 * n)));
    ReadOfLetters(b, n);
    assert Letters(b)[..n] == Letters(b) && b[..5 * n] == b;
    ValOfFitting(cell.lat, LatLength(5 * n));
    ValOfFitting(cell.lon, LonLength(5 * n));
  }

  lemma TextIsOnMap(vs: seq<Five>)
    ensures OnMap(TextCell(vs), 5 * |vs|)
  {
    hide Concat, Val, Pow2;
    ValBound(Odds(Concat(vs, 5)));
    ValBound(Evens(Concat(vs, 5)));
  }

  lemma LettersPrefix(b: seq<bool>, m: nat, n: nat)
    requires 5 * n <= m <= |b|
    ensures Letters(b[..m])[..n] == Letters(b[..5 * n])
  {
    hide Val, ToChar, Pow2;
    forall c | 0 <= c < n ensures Letters(b[..m])[c] == Letters(b[..5 * n])[c] {
      assert b[..m][5 * c..5 * c + 5] == b[..5 * n][5 * c..5 * c + 5];
    }
  }

  // The text of a cell is at the start of the text of its words.
  lemma TextOfWords(words: seq<Word>, k: nat, m: nat, n: nat, cell: Cell)
    requires k <= |words| && 5 * n <= m <= 16 * |words| && IsCell(words[..k], 5 * n, cell)
    ensures Letters(Concat(words, 16)[..m])[..n] == CellText(cell, n)
  {
    hide Letters, Concat, Bits, Zip;
    LettersPrefix(Concat(words, 16), m, n);
    assert words == words[..k] + words[k..];
    ConcatAppend(words[..k], words[k..], 16);
    assert Concat(words, 16)[..5 * n] == Concat(words[..k], 16)[..5 * n];
  }

  // The strings lie one after the other, each with its terminator.
  predicate Strings(dst: string, n: nat, cells: seq<Cell>) {
    forall k | 0 <= k < |cells| :: StringAt(dst, n, cells[k], (n + 1) * k)
  }

  method WriteText(words: seq<Word>, length: nat, n: nat, dst: array<char>, start: nat, ghost cell: Cell)
    returns (status: Status)
    requires length < |words| && 5 * n <= 16 * length && start + n + 1 <= dst.Length
    requires IsCell(words[..length], 5 * n, cell)
    modifies dst
    ensures status == Ok
    ensures dst[..] == old(dst[..start]) + CellText(cell, n) + ['\0'] + old(dst[start + n + 1..])
  {
    hide IsCell, Letters, Concat, CellText;
    var blen := 0;
    while blen * 5 < length * 16
      invariant 5 * blen < 16 * length + 5
    {
      blen := blen + 1;
    }
    blen := blen + 1;
    var buffer := new char[blen];
    status := WordsToLetters(words, length, buffer);
    TextOfWords(words, length, 5 * blen, n, cell);
    buffer[n] := '\0';
    assert buffer[..][..n + 1] == CellText(cell, n) + ['\0'];
    CopyText(buffer[..], n, dst, start);
  }

  method CopyText(buffer: string, n: nat, dst: array<char>, start: nat)
    requires n < |buffer| && start + n + 1 <= dst.Length
    modifies dst
    ensures dst[..] == old(dst[..start]) + buffer[..n + 1] + old(dst[start + n + 1..])
  {
    var i := 0;
    while i < n + 1
      invariant 0 <= i <= n + 1
      invariant forall k | 0 <= k < dst.Length && !(start <= k < start + i) :: dst[k] == old(dst[k])
      invariant forall k | 0 <= k < i :: dst[start + k] == buffer[k]
    {
      dst[start + i] := buffer[i];
      i := i + 1;
    }
  }

  lemma CellOfStream(words: seq<Word>, vs: seq<Five>)
    requires 5 * |vs| <= 16 * |words| && Concat(words, 16) == Concat(vs, 5) + Zeros(16 * |words| - 5 * |vs|)
    ensures CellOf(words, 5 * |vs|) == TextCell(vs)
  {
    hide Concat, Evens, Odds, Val;
    assert Concat(words, 16)[..5 * |vs|] == Concat(vs, 5);
  }

  // String k stands at its place.
  predicate StringAt(dst: string, n: nat, cell: Cell, start: int) {
    0 <= start <= start + n + 1 <= |dst| && dst[start..start + n + 1] == CellText(cell, n) + ['\0']
  }

  lemma StaysAt(was: string, dst: string, n: nat, cell: Cell, start: int, k: nat)
    requires StringAt(was, n, cell, start) && start + n + 1 <= k <= |was| && k <= |dst| && dst[..k] == was[..k]
    ensures StringAt(dst, n, cell, start)
  {
    hide CellText;
    assert dst[start..start + n + 1] == dst[..k][start..start + n + 1];
    assert was[start..start + n + 1] == was[..k][start..start + n + 1];
  }

  lemma ComesAt(was: string, dst: string, n: nat, cell: Cell, start: nat)
    requires start + n + 1 <= |was| && dst == was[..start] + CellText(cell, n) + ['\0'] + was[start + n + 1..]
    ensures StringAt(dst, n, cell, start) && |dst| == |was| && dst[..start] == was[..start]
  {
    hide CellText;
  }

  lemma Places(m: nat, i: nat, k: nat)
    requires i < k
    ensures m * i + m <= m * k
  {
    Distribute(k - i - 1, i + 1, m);
  }

  lemma NextString(was: string, dst: string, n: nat, cells: seq<Cell>, k: nat)
    requires k < |cells| && Strings(was, n, cells[..k])
    requires 0 <= (n + 1) * k <= (n + 1) * k + n + 1 <= |was|
    requires dst == was[..(n + 1) * k] + CellText(cells[k], n) + ['\0'] + was[(n + 1) * k + n + 1..]
    ensures Strings(dst, n, cells[..k + 1])
  {
    hide CellText, StringAt;
    ComesAt(was, dst, n, cells[k], (n + 1) * k);
    forall i | 0 <= i < k ensures StringAt(dst, n, cells[i], (n + 1) * i) {
      assert cells[..k][i] == cells[i];
      Places(n + 1, i, k);
      StaysAt(was, dst, n, cells[i], (n + 1) * i, (n + 1) * k);
    }
  }

  lemma BlockAt(words: seq<Word>, beyond: Word, a: nat, n: nat)
    requires a + n <= |words|
    ensures (words + [beyond])[a..][..n] == words[a..a + n]
  {
  }

  // How many strings are written: those of the neighbours, or none for a broken hash.
  function Found(hashcode: string): nat {
    if ReadLetters(hashcode) == None then 0
    else |Around(TextCell(ReadLetters(hashcode).value), 5 * |hashcode|)|
  }

  lemma FoundIs(hashcode: string)
    ensures match ReadLetters(hashcode)
            case None => Found(hashcode) == 0
            case Some(vs) => Found(hashcode) == |Around(TextCell(vs), 5 * |hashcode|)|
  {
  }

  // beyond is whatever lies after the words: the last string is cut before it shows.
  method HashNeighbors(hashcode: string, beyond: Word, dst: array<char>) returns (status: Status, count: nat)
    requires '\0' !in hashcode && (|hashcode| + 1) * Found(hashcode) <= dst.Length
    modifies dst
    ensures match ReadLetters(hashcode)
            case None => status == InvalidCode && dst[..] == old(dst[..])
            case Some(vs) =>
              var cells := Around(TextCell(vs), 5 * |vs|);
              |vs| == |hashcode| && status == Ok && count == |cells| && Strings(dst[..], |hashcode|, cells)
  {
    hide ReadLetters, ListsCells, Around, TextCell, Strings, Concat, CellOf, Found;
    FoundIs(hashcode);
    var n, words := |hashcode|, 0;
    while words * 16 < n * 5
      invariant words <= (5 * n + 15) / 16
    {
      words := words + 1;
    }
    var interleaved, intrDst := new Word[words], new Word[words * 8];
    assert hashcode[..n] == hashcode;
    AllRead(hashcode);
    count := 0;
    status := LettersToWords(hashcode, n, interleaved);
    if status != Ok { return; }
    ghost var vs := ReadLetters(hashcode).value;
    CellOfStream(interleaved[..], vs);
    status, count := Neighbors(interleaved, n * 5, intrDst);
    ghost var cells := Around(TextCell(vs), 5 * n);
    AtMostEight(TextCell(vs), 5 * n);
    WriteStrings(intrDst[..], beyond, words, n, dst, count, cells);
    return Ok, count;
  }

  method WriteStrings(found: seq<Word>, beyond: Word, words: nat, n: nat, dst: array<char>, count: nat,
        ghost cells: seq<Cell>)
    requires |cells| == count <= 8 && |found| == 8 * words && (n + 1) * count <= dst.Length && 5 * n <= 16 * words
    requires ListsCells(found, words, 5 * n, cells)
    modifies dst
    ensures Strings(dst[..], n, cells)
  {
    hide IsCell, Strings, Concat, CellText;
    NoStrings(dst[..], n, cells);
    var intr := found + [beyond];
    var i := 0;
    while i < count
      invariant 0 <= i <= count
      invariant Strings(dst[..], n, cells[..i])
    {
      Room(words, i, |found|);
      Places(n + 1, i, count);
      BlockAt(found, beyond, words * i, words);
      ghost var was := dst[..];
      var start := (n + 1) * i;
      var status := WriteText(intr[words * i..], words, n, dst, start, cells[i]);
      NextString(was, dst[..], n, cells, i);
      i := i + 1;
    }
    assert cells[..count] == cells;
  }

  lemma {:induction false} AllRead(s: string)
    requires '\0' !in s
    ensures ReadLetters(s).Some? ==> |ReadLetters(s).value| == |s|
  {
    if s != [] { AllRead(s[1..]); }
  }

  lemma AtMostEight(cell: Cell, bitlength: nat)
    ensures |Around(cell, bitlength)| <= 8
  {
    hide Grid;
    var (rows, columns) := (Rows(cell.lat, LatLength(bitlength)), Columns(cell.lon, LonLength(bitlength)));
    GridSize(rows, columns);
    assert |rows| <= 3 && |columns| <= 3;
    Product(|rows|, 3, |columns|);
  }

  lemma NoStrings(dst: string, n: nat, cells: seq<Cell>)
    ensures Strings(dst, n, cells[..0])
  {
  }

  // ----- the strings are the neighbours -----

  // String k of the result, without its terminator.
  function TextAt(dst: string, n: nat, k: nat): string {
    if (n + 1) * k + n <= |dst| then dst[(n + 1) * k..(n + 1) * k + n] else ""
  }

  lemma TextOfString(dst: string, n: nat, cells: seq<Cell>, k: nat)
    requires Strings(dst, n, cells) && k < |cells|
    ensures TextAt(dst, n, k) == CellText(cells[k], n)
  {
    hide CellText;
    var start := (n + 1) * k;
    assert StringAt(dst, n, cells[k], start);
    assert dst[start..start + n] == dst[start..start + n + 1][..n];
  }

  // Each string that HashNeighbors writes is the hash of an adjacent cell, every adjacent
  // cell has one, and no two are the same.
  lemma StringsAreAdjacent(dst: string, vs: seq<Five>)
    requires Strings(dst, |vs|, Around(TextCell(vs), 5 * |vs|))
    ensures var (n, cells) := (|vs|, Around(TextCell(vs), 5 * |vs|));
            && (forall k | 0 <= k < |cells| ::
                  var read := ReadLetters(TextAt(dst, n, k));
                  read.Some? && Adjacent(TextCell(read.value), TextCell(vs), 5 * n))
            && (forall c | Adjacent(c, TextCell(vs), 5 * n) ::
                  exists k :: 0 <= k < |cells| && TextAt(dst, n, k) == CellText(c, n))
            && (forall j, k | 0 <= j < k < |cells| :: TextAt(dst, n, j) != TextAt(dst, n, k))
  {
    hide ReadLetters, TextCell, CellText, Around, Strings, TextAt;
    var (n, home) := (|vs|, TextCell(vs));
    var cells := Around(home, 5 * n);
    TextIsOnMap(vs);
    AroundIsAdjacent(home, 5 * n);
    forall k | 0 <= k < |cells|
      ensures TextAt(dst, n, k) == CellText(cells[k], n) && Adjacent(cells[k], home, 5 * n)
      ensures ReadLetters(CellText(cells[k], n)).Some? && TextCell(ReadLetters(CellText(cells[k], n)).value) == cells[k]
    {
      TextOfString(dst, n, cells, k);
      assert cells[k] in cells;
      CellTextReadsBack(cells[k], n);
    }
    forall c | Adjacent(c, home, 5 * n)
      ensures exists k :: 0 <= k < |cells| && TextAt(dst, n, k) == CellText(c, n)
    {
      var k :| 0 <= k < |cells| && cells[k] == c;
      assert TextAt(dst, n, k) == CellText(c, n);
    }
  }
}

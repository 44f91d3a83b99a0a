/** The IP range table: its block index and the two binary searches. */
module IpLookup {
  import opened Units

  datatype Row = Row(b: Uint32, e: Uint32, regioncode: Uint32)

  const METASIZE: nat := 256

  // Ranges in order, none overlapping the next.
  predicate Sorted(rows: seq<Row>) {
    (forall i | 0 <= i < |rows| :: rows[i].b <= rows[i].e)
    && (forall i, j | 0 <= i < j < |rows| :: rows[i].e < rows[j].b)
  }

  predicate Covers(r: Row, ip: Uint32) {
    r.b <= ip <= r.e
  }

  // A plain scan: the code of the first range that holds the address, else 0.
  function Scan(rows: seq<Row>, ip: Uint32): Uint32 {
    if rows == [] then 0 else if Covers(rows[0], ip) then rows[0].regioncode else Scan(rows[1..], ip)
  }

  lemma {:induction false} ScanHit(rows: seq<Row>, ip: Uint32, i: nat)
    requires Sorted(rows) && i < |rows| && Covers(rows[i], ip)
    ensures Scan(rows, ip) == rows[i].regioncode
  {
    if i > 0 {
      assert rows[0].e < rows[i].b;
      ScanHit(rows[1..], ip, i - 1);
    }
  }

  lemma {:induction false} ScanMiss(rows: seq<Row>, ip: Uint32)
    requires forall i | 0 <= i < |rows| :: !Covers(rows[i], ip)
    ensures Scan(rows, ip) == 0
  {
    if rows != [] { ScanMiss(rows[1..], ip); }
  }

  // ----- building the index -----

  function Blocks(n: nat): nat {
    (n + METASIZE - 1) / METASIZE
  }

  // The row after the last of block k.
  function BlockEnd(n: nat, k: nat): nat {
    if METASIZE * (k + 1) < n then METASIZE * (k + 1) else n
  }

  // Each entry spans the rows of its block.
  predicate Indexes(index: seq<Row>, rows: seq<Row>) {
    && |index| == Blocks(|rows|)
    && forall k | 0 <= k < |index| ::
      METASIZE * k < |rows| && 0 < BlockEnd(|rows|, k)
      && index[k].b == rows[METASIZE * k].b && index[k].e == rows[BlockEnd(|rows|, k) - 1].e
  }

  // The second half of initInfo; bounded is false where it reads past the rows. With
  // fewer than METASIZE of them the unsigned bound of the loop wraps to a huge number.
  method BuildIndex(rows: seq<Row>) returns (index: seq<Row>, bounded: bool)
    ensures bounded <==> |rows| >= METASIZE
    ensures bounded ==> Indexes(index, rows)
  {
    index := [];
    var i := 0;
    if |rows| < METASIZE { return index, false; }
    bounded := true;
    while i < |rows| - METASIZE
      invariant i == METASIZE * |index| && i < |rows|
      invariant forall k | 0 <= k < |index| ::
        METASIZE * (k + 1) <= |rows| && index[k] == Row(rows[METASIZE * k].b, rows[METASIZE * (k + 1) - 1].e, 0)
    {
      index := index + [Row(rows[i].b, rows[i + METASIZE - 1].e, 0)];
      i := i + METASIZE;
    }
    if i >= |rows| - METASIZE {
      index := index + [Row(rows[i].b, rows[|rows| - 1].e, 0)];
    }
  }

  // ----- searching -----

  // Entries of a sorted list, all below or above an address.
  predicate AllBelow(rows: seq<Row>, low: int, high: int, ip: Uint32)
    requires 0 <= low && high <= |rows|
  {
    forall k | low <= k < high :: rows[k].e < ip
  }

  predicate AllAbove(rows: seq<Row>, low: int, high: int, ip: Uint32)
    requires 0 <= low && high <= |rows|
  {
    forall k | low <= k < high :: ip < rows[k].b
  }

  lemma IndexIsSorted(index: seq<Row>, rows: seq<Row>)
    requires Sorted(rows) && Indexes(index, rows)
    ensures Sorted(index)
  {
    forall k | 0 <= k < |index| ensures index[k].b <= index[k].e {
      var (i, j) := (METASIZE * k, BlockEnd(|rows|, k) - 1);
      assert i <= j;
      if i < j { assert rows[i].e < rows[j].b; }
    }
    forall k, m | 0 <= k < m < |index| ensures index[k].e < index[m].b {
      assert METASIZE * (k + 1) <= METASIZE * m;
    }
  }

  lemma BlockOf(i: nat, n: nat)
    requires i < n
    ensures i / METASIZE < Blocks(n) && METASIZE * (i / METASIZE) <= i < BlockEnd(n, i / METASIZE)
  {
  }

  // A row's block covers every address the row does.
  lemma BlockCovers(index: seq<Row>, rows: seq<Row>, ip: Uint32, i: nat)
    requires Sorted(rows) && Indexes(index, rows) && i < |rows| && Covers(rows[i], ip)
    ensures i / METASIZE < |index| && Covers(index[i / METASIZE], ip)
  {
    var k := i / METASIZE;
    BlockOf(i, |rows|);
    IndexAt(index, rows, k);
    hide *;
    SpanCovers(rows, METASIZE * k, BlockEnd(|rows|, k) - 1, ip, i);
    InRow(index[k], ip);
  }

  lemma IndexAt(index: seq<Row>, rows: seq<Row>, k: nat)
    requires Indexes(index, rows) && k < Blocks(|rows|)
    ensures |index| == Blocks(|rows|) && 0 <= METASIZE * k < |rows| && 0 < BlockEnd(|rows|, k) <= |rows|
    ensures index[k].b == rows[METASIZE * k].b && index[k].e == rows[BlockEnd(|rows|, k) - 1].e
  {
  }

  lemma InRow(r: Row, ip: Uint32)
    ensures Covers(r, ip) <==> r.b <= ip <= r.e
  {
  }

  lemma SpanCovers(rows: seq<Row>, first: nat, last: nat, ip: Uint32, i: nat)
    requires Sorted(rows) && first <= i <= last < |rows| && Covers(rows[i], ip)
    ensures rows[first].b <= ip <= rows[last].e
  {
    if first < i { assert rows[first].e < rows[i].b; }
    if i < last { assert rows[i].e < rows[last].b; }
  }

  // One binary search, for the entry that covers the address; the source has it twice.
  // bounded is false where it would read past the end of the list.
  method Search(list: seq<Row>, first: nat, end: nat, ip: Uint32) returns (found: int, bounded: bool)
    requires Sorted(list) && first < end <= |list|
    requires AllBelow(list, 0, first, ip)
    ensures bounded ==> -1 <= found < |list|
    ensures bounded && found >= 0 ==> first <= found && Covers(list[found], ip)
    ensures bounded && found == -1 ==> forall k | 0 <= k < end :: !Covers(list[k], ip)
    ensures !bounded <==> end == |list| && list[|list| - 1].e < ip
  {
    var (low: int, high: int) := (first as int, end as int);
    found, bounded := -1, true;
    while low <= high
      invariant first <= low && high <= end && low <= high + 1
      invariant low < |list| || (low == |list| && low > high && end < |list|)
      invariant AllBelow(list, 0, low, ip)
      invariant high < end ==> high + 1 < |list| && AllAbove(list, high + 1, |list|, ip)
      decreases high - low
    {
      var mid := (low + high) / 2;
      if ip <= list[mid].e && ip >= list[mid].b {
        return mid, true;
      } else if ip < list[mid].b {
        high := mid - 1;
        if low <= high && ip > list[high].e { break; }
      } else {
        low := mid + 1;
        if low <= high {
          if low == |list| { return -1, false; }
          if ip < list[low].b { break; }
        }
      }
    }
  }

  // getRegionCode, for an address that inet_addr accepts.
  method GetRegionCode(rows: seq<Row>, index: seq<Row>, ip: Uint32) returns (code: Uint32, bounded: bool)
    requires Sorted(rows) && Indexes(index, rows) && |rows| >= METASIZE
    ensures bounded <==> ip <= rows[|rows| - 1].e
    ensures bounded ==> code == Scan(rows, ip)
  {
    hide Scan, Indexes, Sorted;
    IndexIsSorted(index, rows);
    IndexEnds(index, rows);
    var block;
    block, bounded := Search(index, 0, |index|, ip);
    if !bounded { return 0, false; }
    if block == -1 {
      NoBlockNoRow(index, rows, ip);
      return 0, true;
    }
    BlockRange(index, rows, block, ip);
    var first := block * METASIZE;
    var end := if block == |index| - 1 then |rows| else first + METASIZE;
    var row;
    row, bounded := Search(rows, first, end, ip);
    assert bounded;
    if row >= 0 {
      ScanHit(rows, ip, row);
      return rows[row].regioncode, true;
    }
    BlockOnly(index, rows, block, end, ip);
    return 0, true;
  }

  lemma IndexEnds(index: seq<Row>, rows: seq<Row>)
    requires Indexes(index, rows) && |rows| >= METASIZE
    ensures |index| > 0 && index[|index| - 1].e == rows[|rows| - 1].e
  {
    var k := |index| - 1;
    assert BlockEnd(|rows|, k) == |rows|;
  }

  lemma NoBlockNoRow(index: seq<Row>, rows: seq<Row>, ip: Uint32)
    requires Sorted(rows) && Indexes(index, rows) && forall k | 0 <= k < |index| :: !Covers(index[k], ip)
    ensures Scan(rows, ip) == 0
  {
    forall i | 0 <= i < |rows| ensures !Covers(rows[i], ip) {
      if Covers(rows[i], ip) { BlockCovers(index, rows, ip, i); }
    }
    ScanMiss(rows, ip);
  }

  // The rows the second search goes through, and those before them.
  lemma BlockRange(index: seq<Row>, rows: seq<Row>, block: nat, ip: Uint32)
    requires Sorted(rows) && Indexes(index, rows) && block < |index| && Covers(index[block], ip)
    ensures var first := block * METASIZE;
            && AllBelow(rows, 0, first, ip)
            && ip <= rows[|rows| - 1].e
            && first < (if block == |index| - 1 then |rows| else first + METASIZE) <= |rows|
  {
    var first := block * METASIZE;
    forall k | 0 <= k < first ensures rows[k].e < ip { assert rows[k].e < rows[first].b; }
    var last := BlockEnd(|rows|, block) - 1;
    if last < |rows| - 1 { assert rows[last].e < rows[|rows| - 1].b; }
  }

  // Rows after the block do not cover an address that the block does.
  lemma BlockOnly(index: seq<Row>, rows: seq<Row>, block: nat, end: nat, ip: Uint32)
    requires Sorted(rows) && Indexes(index, rows) && block < |index| && Covers(index[block], ip)
    requires end == if block == |index| - 1 then |rows| else block * METASIZE + METASIZE
    requires forall k | 0 <= k < end && k < |rows| :: !Covers(rows[k], ip)
    ensures Scan(rows, ip) == 0
  {
    forall k | 0 <= k < |rows| ensures !Covers(rows[k], ip) {
      if k >= end {
        var last := BlockEnd(|rows|, block) - 1;
        assert rows[last].e < rows[k].b;
      }
    }
    ScanMiss(rows, ip);
  }

  // The table decides for every address up to its last range, and only for those.
  method BuildAndLookUp(rows: seq<Row>, ip: Uint32) returns (code: Uint32, bounded: bool)
    requires Sorted(rows)
    ensures bounded <==> |rows| >= METASIZE && ip <= rows[|rows| - 1].e
    ensures bounded ==> (forall i | 0 <= i < |rows| && Covers(rows[i], ip) :: code == rows[i].regioncode)
    ensures bounded ==> (forall i | 0 <= i < |rows| :: !Covers(rows[i], ip)) ==> code == 0
  {
    var index;
    index, bounded := BuildIndex(rows);
    if !bounded { return 0, false; }
    code, bounded := GetRegionCode(rows, index, ip);
    if bounded {
      forall i | 0 <= i < |rows| && Covers(rows[i], ip) ensures code == rows[i].regioncode { ScanHit(rows, ip, i); }
      if forall i | 0 <= i < |rows| :: !Covers(rows[i], ip) { ScanMiss(rows, ip); }
    }
  }

  // ----- addresses -----

  // A dotted address as a number, its first part highest: what ntohl(inet_addr(s)) gives.
  function Address(a: nat, b: nat, c: nat, d: nat): nat {
    ((a * 256 + b) * 256 + c) * 256 + d
  }

  // The four parts are the bytes of the number, the first highest.
  lemma AddressIs(a: nat, b: nat, c: nat, d: nat)
    requires a < 256 && b < 256 && c < 256 && d < 256
    ensures var n := Address(a, b, c, d);
            n < 0x1_0000_0000 && n / 0x100_0000 == a && n / 0x1_0000 % 256 == b && n / 256 % 256 == c && n % 256 == d
  {
    var (x, y) := (a * 256 + b, (a * 256 + b) * 256 + c);
    var n := Address(a, b, c, d);
    assert n == 256 * y + d && y == 256 * x + c;
    assert n / 256 == y && y / 256 == x && x / 256 == a;
    assert n / 0x1_0000 == n / 256 / 256 && n / 0x100_0000 == n / 256 / 256 / 256;
  }

  // revertFormat after its sscanf, which stores the parts of the address last first.
  method RevertFormat(sub: seq<nat>) returns (addr: Uint32)
    requires |sub| == 4 && forall i | 0 <= i < 4 :: sub[i] < 256
    ensures addr == Address(sub[3], sub[2], sub[1], sub[0])
  {
    addr := 0;
    var (i, power) := (0, 1);
    while i < 4
      invariant 0 <= i <= 4
      invariant power == (match i
                          case 0 => 1
                          case 1 => 256
                          case 2 => 65536
                          case 3 => 0x100_0000
                          case _ => 0x1_0000_0000)
      invariant addr == (if i > 0 then sub[0] else 0) + (if i > 1 then sub[1] * 256 else 0)
                        + (if i > 2 then sub[2] * 65536 else 0) + (if i > 3 then sub[3] * 0x100_0000 else 0)
    {
      addr := (addr + sub[i] * power) % 0x1_0000_0000;
      power := power * 256;
      i := i + 1;
    }
  }
}

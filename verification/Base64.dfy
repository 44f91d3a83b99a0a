/** Base64, per section 4 of RFC 4648: three bytes as four characters. */
module Base64 {
  import opened Units

  const UPPER := "ABCDEFGHIJKLMNOPQRSTUVWXYZ"
  const LOWER := "abcdefghijklmnopqrstuvwxyz"
  const ALPHABET := UPPER + LOWER + "0123456789+/"
  const PAD: char := '='

  // cmove_bits: left in a byte, then right.
  function MoveBits(src: Byte, left: nat, right: nat): Byte
    requires left in {0, 2, 4, 6} && right in {0, 2, 4, 6}
  {
    var l := src * (match left case 0 => 1 case 2 => 4 case 4 => 16 case _ => 64) % 256;
    l / (match right case 0 => 1 case 2 => 4 case 4 => 16 case _ => 64)
  }

  lemma LowByte(n: nat, q: nat, r: nat)
    requires n == 256 * q + r && r < 256
    ensures n % 256 == r
  {
  }

  lemma MovesRight(src: Byte)
    ensures MoveBits(src, 0, 2) == src / 4 && MoveBits(src, 0, 4) == src / 16 && MoveBits(src, 0, 6) == src / 64
  {
    LowByte(src * 1, 0, src);
  }

  lemma MovesLeft(src: Byte)
    ensures MoveBits(src, 2, 0) == src % 64 * 4 && MoveBits(src, 4, 0) == src % 16 * 16
            && MoveBits(src, 6, 0) == src % 4 * 64
  {
    LowByte(src * 4, src / 64, src % 64 * 4);
    LowByte(src * 16, src / 16, src % 16 * 16);
    LowByte(src * 64, src / 4, src % 4 * 64);
  }

  lemma MovesBoth(src: Byte)
    ensures MoveBits(src, 6, 2) == src % 4 * 16 && MoveBits(src, 4, 2) == src % 16 * 4
  {
    LowByte(src * 64, src / 4, src % 4 * 64);
    LowByte(src * 16, src / 16, src % 16 * 16);
  }

  function Letter(n: nat): char
    requires n < 64
  {
    ALPHABET[n]
  }

  // base64_suffix_map
  function Value(c: char): Byte {
    if 'A' <= c <= 'Z' then c as int - 'A' as int
    else if 'a' <= c <= 'z' then c as int - 'a' as int + 26
    else if '0' <= c <= '9' then c as int - '0' as int + 52
    else if c == '+' then 62
    else if c == '/' then 63
    else 255
  }

  lemma UpperAt(n: nat)
    requires n < 26
    ensures |UPPER| == |LOWER| == 26 && UPPER[n] as int == 'A' as int + n && LOWER[n] as int == 'a' as int + n
  {
  }

  lemma LetterRoundTrip(n: nat)
    requires n < 64
    ensures Value(Letter(n)) == n && Letter(n) != PAD
  {
    hide UPPER, LOWER;
    UpperAt(if n < 26 then n else if n < 52 then n - 26 else 0);
  }

  // Table 1 of the standard: capitals, small letters, digits, plus and slash.
  lemma LetterIs(n: nat)
    requires n < 64
    ensures Letter(n) as int == if n < 26 then 'A' as int + n
                                else if n < 52 then 'a' as int + (n - 26)
                                else if n < 62 then '0' as int + (n - 52)
                                else if n == 62 then '+' as int else '/' as int
  {
    hide UPPER, LOWER;
    UpperAt(if n < 26 then n else if n < 52 then n - 26 else 0);
  }

  // ----- the encoding as the standard has it: 24 bits read as four numbers -----

  function Bits24(a: Byte, b: Byte, c: Byte): nat {
    (a * 256 + b) * 256 + c
  }

  // Six of the 24 bits, from the left.
  function Sextet(v: nat, i: nat): (n: nat)
    requires i < 4
    ensures n < 64
  {
    v / (match i case 0 => 262144 case 1 => 4096 case 2 => 64 case _ => 1) % 64
  }

  function At(data: seq<Byte>, i: nat): Byte {
    if i < |data| then data[i] else 0
  }

  // The four characters of one to three bytes.
  function Group(data: seq<Byte>): (s: string)
    requires 1 <= |data| <= 3
    ensures |s| == 4
  {
    var v := Bits24(At(data, 0), At(data, 1), At(data, 2));
    [Letter(Sextet(v, 0)), Letter(Sextet(v, 1)),
     if |data| < 2 then PAD else Letter(Sextet(v, 2)),
     if |data| < 3 then PAD else Letter(Sextet(v, 3))]
  }

  // The groups of n bytes.
  function Groups(n: nat): (g: nat)
    ensures n == 0 ==> g == 0
    ensures 0 < n <= 3 ==> g == 1
    ensures n > 3 ==> g == 1 + (n - 1) / 3
  {
    (n + 2) / 3
  }

  function Encode(data: seq<Byte>): (s: string)
    ensures |s| == 4 * Groups(|data|)
  {
    hide Group;
    if data == [] then ""
    else if |data| <= 3 then Group(data)
    else Group(data[..3]) + Encode(data[3..])
  }

  // ----- decoding -----

  // What the four characters of a group give before any padding is cut off.
  function Bytes(s: string): (b: seq<Byte>)
    requires |s| == 4
    ensures |b| == 3
  {
    [(MoveBits(Value(s[0]), 2, 0) + MoveBits(Value(s[1]), 0, 4)) % 256,
     (MoveBits(Value(s[1]), 4, 0) + MoveBits(Value(s[2]), 0, 2)) % 256,
     (MoveBits(Value(s[2]), 6, 0) + Value(s[3])) % 256]
  }

  function Padding(s: string): (n: nat)
    requires |s| >= 4
    ensures n <= 2
  {
    if s[|s| - 1] != PAD then 0 else if s[|s| - 2] != PAD then 1 else 2
  }

  function Decode(s: string): (data: seq<Byte>)
    requires |s| % 4 == 0
    ensures s == "" ==> data == []
    ensures s != "" ==> |data| == (|s| - 4) / 4 * 3 + 3 - Padding(s)
  {
    if s == "" then []
    else if |s| == 4 then Bytes(s)[..3 - Padding(s)]
    else
      assert s[4..][|s[4..]| - 1] == s[|s| - 1] && s[4..][|s[4..]| - 2] == s[|s| - 2];
      Bytes(s[..4]) + Decode(s[4..])
  }

  // ----- decoding undoes encoding -----

  // The four sextets of three bytes.
  function First(a: Byte): (n: nat) ensures n < 64 { a / 4 }
  function Second(a: Byte, b: Byte): (n: nat) ensures n < 64 { a % 4 * 16 + b / 16 }
  function Third(b: Byte, c: Byte): (n: nat) ensures n < 64 { b % 16 * 4 + c / 64 }
  function Fourth(c: Byte): (n: nat) ensures n < 64 { c % 64 }

  lemma SextetsOf(a: Byte, b: Byte, c: Byte)
    ensures var v := Bits24(a, b, c);
            Sextet(v, 0) == First(a) && Sextet(v, 1) == Second(a, b) && Sextet(v, 2) == Third(b, c)
              && Sextet(v, 3) == Fourth(c)
  {
    SextetSum(a, b, c);
    Places(First(a), Second(a, b), Third(b, c), Fourth(c));
    hide *;
  }

  lemma Places(a: nat, b: nat, c: nat, d: nat)
    requires a < 64 && b < 64 && c < 64 && d < 64
    ensures var v := 262144 * a + 4096 * b + 64 * c + d;
            Sextet(v, 0) == a && Sextet(v, 1) == b && Sextet(v, 2) == c && Sextet(v, 3) == d
  {
    var v := 262144 * a + 4096 * b + 64 * c + d;
    assert v / 262144 == a;
    assert v / 4096 == 64 * a + b;
    assert v / 64 == 64 * (64 * a + b) + c;
    LowSix(v / 4096, a, b);
    LowSix(v / 64, 64 * a + b, c);
    LowSix(v, 4096 * a + 64 * b + c, d);
  }

  lemma LowSix(n: nat, q: nat, r: nat)
    requires n == 64 * q + r && r < 64
    ensures n % 64 == r
  {
  }

  lemma SextetSum(a: Byte, b: Byte, c: Byte)
    ensures Bits24(a, b, c) == 262144 * First(a) + 4096 * Second(a, b) + 64 * Third(b, c) + Fourth(c)
  {
  }

  lemma FirstJoin(a: Byte, b: Byte)
    ensures (MoveBits(First(a), 2, 0) + MoveBits(Second(a, b), 0, 4)) % 256 == a
  {
    hide MoveBits;
    MovesLeft(First(a));
    MovesRight(Second(a, b));
  }

  lemma SecondJoin(a: Byte, b: Byte, c: Byte)
    ensures (MoveBits(Second(a, b), 4, 0) + MoveBits(Third(b, c), 0, 2)) % 256 == b
  {
    hide MoveBits;
    MovesLeft(Second(a, b));
    MovesRight(Third(b, c));
    assert Second(a, b) % 16 == b / 16;
    assert Third(b, c) / 4 == b % 16;
    hide Second, Third;
    LowByte(b / 16 * 16 + b % 16, 0, b);
  }

  lemma ThirdJoin(b: Byte, c: Byte)
    ensures (MoveBits(Third(b, c), 6, 0) + Fourth(c)) % 256 == c
  {
    hide MoveBits;
    MovesLeft(Third(b, c));
    assert Third(b, c) % 4 == c / 64;
  }

  // The bytes of the letters of three bytes, whatever stands in for the last ones.
  lemma BytesOfLetters(s: string, a: Byte, b: Byte, c: Byte)
    requires |s| == 4 && s[0] == Letter(First(a)) && s[1] == Letter(Second(a, b))
    ensures Bytes(s)[0] == a
    ensures s[2] == Letter(Third(b, c)) ==> Bytes(s)[1] == b
    ensures s[2] == Letter(Third(b, c)) && s[3] == Letter(Fourth(c)) ==> Bytes(s)[2] == c
  {
    hide Letter, Value, MoveBits, First, Second, Third, Fourth;
    FirstJoin(a, b);
    SecondJoin(a, b, c);
    ThirdJoin(b, c);
    LetterRoundTrip(First(a));
    LetterRoundTrip(Second(a, b));
    LetterRoundTrip(Third(b, c));
    LetterRoundTrip(Fourth(c));
  }

  lemma GroupBack(data: seq<Byte>)
    requires 1 <= |data| <= 3
    ensures Padding(Group(data)) == 3 - |data| && Bytes(Group(data))[..|data|] == data
  {
    hide Letter, Value, MoveBits, Sextet, Bits24, Bytes, First, Second, Third, Fourth;
    var (a, b, c) := (At(data, 0), At(data, 1), At(data, 2));
    SextetsOf(a, b, c);
    LetterRoundTrip(Third(b, c));
    LetterRoundTrip(Fourth(c));
    BytesOfLetters(Group(data), a, b, c);
  }

  lemma {:induction false} DecodeOfEncode(data: seq<Byte>)
    ensures |Encode(data)| % 4 == 0
    ensures Decode(Encode(data)) == data
  {
    hide Group, Bytes, Groups, Padding;
    if data == [] {
      NothingEncoded();
    } else if |data| <= 3 {
      GroupBack(data);
    } else {
      GroupBack(data[..3]);
      DecodeOfEncode(data[3..]);
      DecodeGroup(Group(data[..3]), Encode(data[3..]));
      assert data == data[..3] + data[3..];
    }
  }

  lemma NothingEncoded()
    ensures Encode([]) == "" && Decode("") == []
  {
  }

  lemma DecodeGroup(first: string, rest: string)
    requires |first| == 4 && |rest| % 4 == 0 && rest != ""
    ensures |first + rest| % 4 == 0 && Decode(first + rest) == Bytes(first) + Decode(rest)
  {
    hide Bytes;
    var s := first + rest;
    assert s[..4] == first && s[4..] == rest;
  }

  // ----- the loops -----

  lemma GroupLetters(g: seq<Byte>)
    requires 1 <= |g| <= 3
    ensures MoveBits(g[0], 0, 2) < 64 && Group(g)[0] == Letter(MoveBits(g[0], 0, 2))
    ensures var n := MoveBits(g[0], 6, 2) + if |g| > 1 then MoveBits(g[1], 0, 4) else 0;
            n < 64 && Group(g)[1] == Letter(n)
    ensures |g| == 1 ==> Group(g)[2] == PAD
    ensures |g| > 1 ==> var n := MoveBits(g[1], 4, 2) + if |g| > 2 then MoveBits(g[2], 0, 6) else 0;
                        n < 64 && Group(g)[2] == Letter(n)
    ensures Group(g)[3] == if |g| == 3 then Letter(g[2] % 64) else PAD
  {
    hide MoveBits, Letter, Sextet, Bits24;
    SextetsOf(g[0], At(g, 1), At(g, 2));
    MovesRight(g[0]);
    MovesBoth(g[0]);
    MovesRight(At(g, 1));
    MovesBoth(At(g, 1));
    MovesRight(At(g, 2));
  }

  // The statements for one group of the data.
  method WriteGroup(ret: array<char>, retpos: nat, g: seq<Byte>)
    requires 1 <= |g| <= 3 && retpos + 4 <= ret.Length
    modifies ret
    ensures ret[..retpos + 4] == old(ret[..retpos]) + Group(g)
  {
    hide MoveBits, Letter, Group;
    GroupLetters(g);
    var padnum := 3 - |g|;
    ret[retpos] := Letter(MoveBits(g[0], 0, 2));
    if padnum == 1 {
      ret[retpos + 1] := Letter(MoveBits(g[0], 6, 2) + MoveBits(g[1], 0, 4));
      ret[retpos + 2] := Letter(MoveBits(g[1], 4, 2));
      ret[retpos + 3] := PAD;
    } else if padnum == 2 {
      ret[retpos + 1] := Letter(MoveBits(g[0], 6, 2));
      ret[retpos + 2] := PAD;
      ret[retpos + 3] := PAD;
    } else {
      ret[retpos + 1] := Letter(MoveBits(g[0], 6, 2) + MoveBits(g[1], 0, 4));
      ret[retpos + 2] := Letter(MoveBits(g[1], 4, 2) + MoveBits(g[2], 0, 6));
      ret[retpos + 3] := Letter(g[2] % 64);
    }
  }

  method Base64Encode(data: seq<Byte>) returns (ret: array?<char>)
    ensures ret == null <==> data == []
    ensures ret != null ==>
              && fresh(ret) && ret.Length == (|data| + 2) / 3 * 4 + 1
              && ret[..ret.Length - 1] == Encode(data) && ret[ret.Length - 1] == '\0'
  {
    hide Group, Encode;
    var dlen := |data|;
    if dlen == 0 { return null; }
    var padnum := if dlen % 3 != 0 then 3 - dlen % 3 else 0;
    var retsize := (dlen + padnum) + (dlen + padnum) * 1 / 3 + 1;
    ret := new char[retsize];
    EncodeGroups(data, padnum, ret);
    ret[retsize - 1] := '\0';
  }

  method EncodeGroups(data: seq<Byte>, padnum: nat, ret: array<char>)
    requires padnum < 3 && (|data| + padnum) % 3 == 0 && ret.Length == (|data| + padnum) / 3 * 4 + 1
    modifies ret
    ensures ret[..ret.Length - 1] == Encode(data)
  {
    hide Group, Encode;
    var dlen := |data|;
    var (m, retpos) := (0, 0);
    ghost var (g, last) := (0, (dlen + padnum) / 3);
    assert data[0..] == data;
    NothingEncoded();
    while m < dlen + padnum
      invariant 0 <= g <= last && m == 3 * g && retpos == 4 * g
      invariant ret[..retpos] + Encode(if m < dlen then data[m..] else []) == Encode(data)
    {
      var n := if m == dlen + padnum - 3 && padnum != 0 then 3 - padnum else 3;
      EncodeOn(ret[..retpos], data, m, n);
      WriteGroup(ret, retpos, data[m..m + n]);
      retpos := retpos + 4;
      m := m + 3;
      g := g + 1;
    }
  }

  lemma EncodeOn(done: string, data: seq<Byte>, m: nat, n: nat)
    requires 1 <= n <= 3 && m + n <= |data| && (n < 3 ==> m + n == |data|)
    ensures done + Encode(data[m..])
            == done + Group(data[m..m + n]) + Encode(if m + 3 < |data| then data[m + 3..] else [])
  {
    hide Group, Groups;
    NothingEncoded();
    var rest := data[m..];
    if |rest| <= 3 {
      assert data[m..m + n] == rest;
      assert done + Group(rest) + "" == done + Group(rest);
    } else {
      assert rest[..3] == data[m..m + 3] && rest[3..] == data[m + 3..];
      assert done + (Group(rest[..3]) + Encode(rest[3..])) == done + Group(rest[..3]) + Encode(rest[3..]);
    }
  }

  predicate InAlphabet(s: string) {
    forall i | 0 <= i < |s| :: s[i] == PAD || Value(s[i]) != 255
  }

  // An entry of base64_suffix_map as a char.
  function TableEntry(c: char, signed: bool): int {
    if signed && Value(c) == 255 then -1 else Value(c)
  }

  // base64_decode. The check of the characters compares an entry of a char table with
  // 255, so it finds nothing where char is signed.
  method Base64Decode(bdata: string, signed: bool) returns (ret: array?<Byte>)
    requires forall i | 0 <= i < |bdata| :: bdata[i] as int < if signed then 128 else 256
    ensures ret == null <==> bdata == "" || |bdata| % 4 != 0 || (!signed && !InAlphabet(bdata))
    ensures ret != null ==>
              && fresh(ret) && ret.Length == |Decode(bdata)| + 1
              && ret[..ret.Length - 1] == Decode(bdata) && ret[ret.Length - 1] == 0
  {
    hide Bytes, Decode, Value;
    var bdlen := |bdata|;
    if bdlen == 0 || bdlen % 4 != 0 { return null; }
    var m := 0;
    while m < bdlen
      invariant 0 <= m <= bdlen && (signed || InAlphabet(bdata[..m]))
    {
      if bdata[m] != PAD && TableEntry(bdata[m], signed) == 255 { return null; }
      m := m + 1;
    }
    assert bdata[..bdlen] == bdata;
    var padnum := 0;
    if bdata[bdlen - 1] == '=' { padnum := 1; }
    if bdata[bdlen - 1] == '=' && bdata[bdlen - 2] == '=' { padnum := 2; }
    var retsize := (bdlen - 4) - (bdlen - 4) / 4 + (3 - padnum) + 1;
    ret := new Byte[retsize];
    PadIs(bdata, padnum);
    DecodeSize(bdata);
    DecodeGroups(bdata, padnum, ret);
    ret[retsize - 1] := 0;
  }

  method DecodeGroups(bdata: string, padnum: nat, ret: array<Byte>)
    requires bdata != "" && |bdata| % 4 == 0 && padnum == Padding(bdata) && ret.Length == |Decode(bdata)| + 1
    modifies ret
    ensures ret[..ret.Length - 1] == Decode(bdata)
  {
    hide Bytes, Decode, Value, Padding;
    var bdlen := |bdata|;
    var (m, retpos) := (0, 0);
    ghost var (g, last) := (0, bdlen / 4);
    assert ret.Length == 3 * (last - 1) + 3 - padnum + 1;
    assert bdata[0..] == bdata;
    NothingEncoded();
    while m < bdlen
      invariant 0 <= g <= last && m == 4 * g
      invariant retpos == if g < last then 3 * g else ret.Length - 1
      invariant ret[..retpos] + Decode(bdata[m..]) == Decode(bdata)
    {
      var n := if m == bdlen - 4 && padnum != 0 then 3 - padnum else 3;
      DecodeOn(ret[..retpos], bdata, m);
      WriteBytes(ret, retpos, bdata[m..m + 4], n);
      retpos := retpos + n;
      m := m + 4;
      g := g + 1;
    }
  }

  lemma PadIs(s: string, padnum: nat)
    requires |s| >= 4
    requires padnum == if s[|s| - 1] == '=' && s[|s| - 2] == '=' then 2 else if s[|s| - 1] == '=' then 1 else 0
    ensures padnum == Padding(s)
  {
  }

  lemma DecodeSize(s: string)
    requires s != "" && |s| % 4 == 0
    ensures |Decode(s)| == (|s| - 4) - (|s| - 4) / 4 + (3 - Padding(s))
  {
    hide *;
    var k := |s| / 4;
    assert |s| == 4 * k;
  }

  // The statements for one group of the text: n is 1 where it ends in two pads.
  method WriteBytes(ret: array<Byte>, retpos: nat, s: string, n: nat)
    requires |s| == 4 && 1 <= n <= 3 && retpos + n <= ret.Length
    modifies ret
    ensures ret[..retpos + n] == old(ret[..retpos]) + Bytes(s)[..n]
  {
    hide MoveBits, Value;
    ret[retpos] := (MoveBits(Value(s[0]), 2, 0) + MoveBits(Value(s[1]), 0, 4)) % 256;
    if n > 1 { ret[retpos + 1] := (MoveBits(Value(s[1]), 4, 0) + MoveBits(Value(s[2]), 0, 2)) % 256; }
    if n > 2 { ret[retpos + 2] := (MoveBits(Value(s[2]), 6, 0) + Value(s[3])) % 256; }
  }

  lemma DecodeOn(done: seq<Byte>, s: string, m: nat)
    requires m % 4 == 0 && |s| % 4 == 0 && m + 4 <= |s|
    ensures |s[m..]| % 4 == 0 && |s[m + 4..]| % 4 == 0
    ensures var n := if m + 4 == |s| then 3 - Padding(s) else 3;
            done + Decode(s[m..]) == done + Bytes(s[m..m + 4])[..n] + Decode(s[m + 4..])
  {
    hide Bytes;
    NothingEncoded();
    var rest := s[m..];
    assert rest[|rest| - 1] == s[|s| - 1] && rest[|rest| - 2] == s[|s| - 2];
    assert rest[..4] == s[m..m + 4] && rest[4..] == s[m + 4..];
    if |rest| > 4 {
      assert Bytes(rest[..4])[..3] == Bytes(rest[..4]);
      assert done + (Bytes(rest[..4]) + Decode(rest[4..])) == done + Bytes(rest[..4]) + Decode(rest[4..]);
    } else {
      assert rest == s[m..m + 4];
      assert done + Bytes(rest)[..3 - Padding(rest)] + [] == done + Bytes(rest)[..3 - Padding(rest)];
    }
  }

  // Encoding, then decoding the text without its NUL.
  method EncodeThenDecode(data: seq<Byte>, signed: bool) returns (text: array?<char>, ret: array?<Byte>)
    ensures text == null <==> data == []
    ensures ret == null <==> data == []
    ensures text != null ==> text.Length > 0 && text[..text.Length - 1] == Encode(data) && text[text.Length - 1] == '\0'
    ensures ret != null ==> ret.Length > 0 && ret[..ret.Length - 1] == data
  {
    text := Base64Encode(data);
    if text == null { return text, null; }
    EncodeInAlphabet(data);
    DecodeOfEncode(data);
    hide Encode, Decode, InAlphabet;
    ret := Base64Decode(text[..text.Length - 1], signed);
  }

  lemma {:induction false} EncodeInAlphabet(data: seq<Byte>)
    ensures InAlphabet(Encode(data))
  {
    hide Groups;
    if data != [] {
      GroupInAlphabet(if |data| <= 3 then data else data[..3]);
      if |data| > 3 { EncodeInAlphabet(data[3..]); }
      hide Group, Value;
    }
  }

  lemma GroupInAlphabet(g: seq<Byte>)
    requires 1 <= |g| <= 3
    ensures InAlphabet(Group(g))
  {
    var v := Bits24(At(g, 0), At(g, 1), At(g, 2));
    LetterRoundTrip(Sextet(v, 0));
    LetterRoundTrip(Sextet(v, 1));
    LetterRoundTrip(Sextet(v, 2));
    LetterRoundTrip(Sextet(v, 3));
    hide Letter, Value, Sextet, Bits24;
  }
}

/** URL encoding into a new buffer, and decoding in place. */
module UrlCodec {
  import opened Units
  import opened Hex

  // What urlencode does not leave as it is, besides the space.
  predicate Escaped(c: Char8) {
    (c < '0' && c != '-' && c != '.') || (c < 'A' && c > '9') || (c > 'Z' && c < 'a' && c != '_') || c > 'z'
  }

  predicate IsPlainChar(c: char) {
    '0' <= c <= '9' || 'A' <= c <= 'Z' || 'a' <= c <= 'z' || c == '-' || c == '.' || c == '_'
  }

  // Letters, digits, '-', '.' and '_' stay, a space becomes '+', and every other byte a
  // percent sign with its two hex digits in capitals.
  lemma EncodedIs(c: Char8)
    ensures Encoded(c) == [c] <==> IsPlainChar(c)
    ensures c == ' ' ==> Encoded(c) == "+"
    ensures c != ' ' && !IsPlainChar(c) ==>
              var e := Encoded(c);
              && |e| == 3 && e[0] == '%' && IsHex(e[1]) && IsHex(e[2]) && !('a' <= e[1] <= 'f') && !('a' <= e[2] <= 'f')
              && 16 * HexValue(e[1]) + HexValue(e[2]) == c as int
  {
    HexBack(c as int / 16);
    HexBack(c as int % 16);
    CapitalHex(c as int / 16);
    CapitalHex(c as int % 16);
    hide UpperHex, HexValue, IsHex;
  }

  lemma CapitalHex(n: nat)
    requires n < 16
    ensures !('a' <= UpperHex(n) <= 'f')
  {
  }

  function Encoded(c: Char8): (s: seq<Char8>)
    ensures 1 <= |s| <= 3
  {
    if c == ' ' then "+" else if Escaped(c) then ['%', UpperHex(c as int / 16), UpperHex(c as int % 16)] else [c]
  }

  function Encode(s: seq<Char8>): (r: seq<Char8>)
    ensures |r| <= 3 * |s|
  {
    if s == [] then [] else Encode(s[..|s| - 1]) + Encoded(s[|s| - 1])
  }

  predicate IsEscape(s: seq<Char8>) {
    |s| >= 3 && s[0] == '%' && IsHex(s[1]) && IsHex(s[2])
  }

  // The first byte a text stands for, and how many characters it takes.
  function FirstByte(s: seq<Char8>): (r: (Char8, nat))
    requires s != []
    ensures 1 <= r.1 <= |s|
  {
    if s[0] == '+' then (' ', 1)
    else if IsEscape(s) then ((HexValue(s[1]) * 16 + HexValue(s[2])) as char, 3)
    else (s[0], 1)
  }

  function Decode(s: seq<Char8>): (r: seq<Char8>)
    ensures |r| <= |s|
  {
    if s == [] then [] else [FirstByte(s).0] + Decode(s[FirstByte(s).1..])
  }

  // ----- decoding undoes encoding -----

  lemma OneByteBack(c: Char8, rest: seq<Char8>)
    ensures Decode(Encoded(c) + rest) == [c] + Decode(rest)
  {
    hide UpperHex, HexValue, IsHex, Decode, Escaped;
    var s := Encoded(c) + rest;
    FirstIsByte(c, rest);
    DecodeFirst(s);
    assert s[|Encoded(c)|..] == rest;
  }

  lemma DecodeFirst(s: seq<Char8>)
    requires s != []
    ensures Decode(s) == [FirstByte(s).0] + Decode(s[FirstByte(s).1..])
  {
  }

  lemma FirstIsByte(c: Char8, rest: seq<Char8>)
    ensures FirstByte(Encoded(c) + rest) == (c, |Encoded(c)|)
  {
    HexBack(c as int / 16);
    HexBack(c as int % 16);
    hide UpperHex, HexValue, IsHex;
  }

  lemma {:induction false} EncodeThen(s: seq<Char8>, rest: seq<Char8>)
    ensures Decode(Encode(s) + rest) == s + Decode(rest)
  {
    hide Decode, Encoded;
    if s == [] {
      assert Encode(s) + rest == rest;
    } else {
      var (front, c) := (s[..|s| - 1], s[|s| - 1]);
      assert Encode(s) + rest == Encode(front) + (Encoded(c) + rest);
      EncodeThen(front, Encoded(c) + rest);
      OneByteBack(c, rest);
      assert front + ([c] + Decode(rest)) == s + Decode(rest);
    }
  }

  lemma DecodeOfEncode(s: seq<Char8>)
    ensures Decode(Encode(s)) == s
  {
    EncodeThen(s, []);
    assert Encode(s) + [] == Encode(s);
  }

  // Encoded text holds nothing that ends a value in a query.
  lemma {:induction false} EncodeIsPlain(s: seq<Char8>)
    ensures '&' !in Encode(s) && '=' !in Encode(s) && '\0' !in Encode(s)
    ensures Encode(s) == [] <==> s == []
  {
    if s != [] {
      var c := s[|s| - 1];
      EncodeIsPlain(s[..|s| - 1]);
      HexIsPlain(c as int / 16);
      HexIsPlain(c as int % 16);
    }
  }

  lemma HexIsPlain(n: nat)
    requires n < 16
    ensures UpperHex(n) !in "&=\0"
  {
  }

  // ----- the loops -----

  method UrlEncode(s: seq<Char8>) returns (start: array<Char8>, length: nat)
    ensures fresh(start) && start.Length == 3 * |s| + 1
    ensures length <= 3 * |s| && start[..length] == Encode(s) && start[length] == '\0'
  {
    hide Encoded, Escaped, UpperHex;
    start := new Char8[3 * |s| + 1];
    var from, to := 0, 0;
    while from < |s|
      invariant 0 <= from <= |s| && to <= 3 * from
      invariant start[..to] == Encode(s[..from])
    {
      var c := s[from];
      from := from + 1;
      assert s[..from][..from - 1] == s[..from - 1];
      EncodedCases(c);
      ghost var done := start[..to];
      if c == ' ' {
        start[to] := '+';
        to := to + 1;
      } else if Escaped(c) {
        start[to] := '%';
        start[to + 1] := UpperHex(c as int / 16);
        start[to + 2] := UpperHex(c as int % 16);
        to := to + 3;
      } else {
        start[to] := c;
        to := to + 1;
      }
      assert start[..to] == done + Encoded(c);
    }
    start[to] := '\0';
    assert s[..from] == s;
    return start, to;
  }

  lemma EncodedCases(c: Char8)
    ensures Encoded(c) == if c == ' ' then "+"
            else if Escaped(c) then ['%', UpperHex(c as int / 16), UpperHex(c as int % 16)] else [c]
  {
  }

  lemma DecodeOn(done: seq<Char8>, text: seq<Char8>, data: nat)
    requires data < |text|
    ensures var (c, n) := FirstByte(text[data..]);
            done + Decode(text[data..]) == done + [c] + Decode(text[data + n..])
  {
    hide FirstByte;
    var (c, n) := FirstByte(text[data..]);
    assert text[data..][n..] == text[data + n..];
  }

  // The place written is never past the place read.
  method UrlDecode(str: array<Char8>, len: nat) returns (length: nat)
    requires len < str.Length
    modifies str
    ensures length <= len && str[..length] == Decode(old(str[..len])) && str[length] == '\0'
    ensures str[len + 1..] == old(str[len + 1..])
  {
    hide HexValue, IsHex, Decode;
    ghost var text := str[..len];
    var (dest, data, left) := (0, 0, len);
    assert text[0..] == text;
    while left > 0
      invariant 0 <= dest <= data && 0 <= left && data + left == len
      invariant forall k | data <= k < str.Length :: str[k] == old(str[k])
      invariant str[..dest] + Decode(text[data..]) == Decode(text)
    {
      DecodeOn(str[..dest], text, data);
      ghost var (done, rest) := (str[..dest], text[data..]);
      left := left - 1;
      var out: Char8;
      if str[data] == '+' {
        out := ' ';
      } else if str[data] == '%' && left >= 2 && IsHex(str[data + 1]) && IsHex(str[data + 2]) {
        out := (HexValue(str[data + 1]) * 16 + HexValue(str[data + 2])) as char;
        data := data + 2;
        left := left - 2;
      } else {
        out := str[data];
      }
      assert out == FirstByte(rest).0;
      str[dest] := out;
      data := data + 1;
      dest := dest + 1;
      assert str[..dest] == done + [out];
    }
    EmptyDecodes();
    str[dest] := '\0';
    return dest;
  }

  lemma EmptyDecodes()
    ensures Decode([]) == []
  {
  }
}

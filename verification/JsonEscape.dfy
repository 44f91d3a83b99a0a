/** json_escape, and what an escaped text means. Characters stand for bytes. */
module JsonEscape {
  import opened Wrappers
  import opened Units
  import opened Hex
  import opened JsonTree
  import RcString

  // ----- UTF-8 -----

  function ByteOf(n: nat): Char8
    requires n < 256
  {
    n as char
  }

  // Section 3 of RFC 3629, as json_unescape computes it: six bits at a time from the right.
  function Utf8(cp: nat): seq<Char8>
    requires cp < 0x110000
  {
    if cp < 0x80 then [ByteOf(cp)]
    else if cp < 0x800 then [ByteOf(0xC0 + cp / 64 % 32), ByteOf(0x80 + cp % 64)]
    else if cp < 0x10000 then [ByteOf(0xE0 + cp / 64 / 64 % 16), ByteOf(0x80 + cp / 64 % 64), ByteOf(0x80 + cp % 64)]
    else [ByteOf(0xF0 + cp / 64 / 64 / 64 % 8), ByteOf(0x80 + cp / 64 / 64 % 64), ByteOf(0x80 + cp / 64 % 64),
          ByteOf(0x80 + cp % 64)]
  }

  predicate IsTail(b: Char8) {
    0x80 <= b as int < 0xC0
  }

  // The character number a UTF-8 sequence stands for, read from its lead byte on; the
  // ranges refuse overlong forms, surrogates and numbers above U+10FFFF.
  function Utf8Value(s: seq<Char8>): Option<nat> {
    if s == [] then None
    else
      var b := s[0] as int;
      if b < 0x80 && |s| == 1 then Some(b)
      else if 0xC2 <= b < 0xE0 && |s| == 2 && IsTail(s[1]) then Some((b - 0xC0) * 64 + (s[1] as int - 0x80))
      else if 0xE0 <= b < 0xF0 && |s| == 3 && IsTail(s[1]) && IsTail(s[2]) then
        var v := ((b - 0xE0) * 64 + (s[1] as int - 0x80)) * 64 + (s[2] as int - 0x80);
        if v < 0x800 || 0xD800 <= v < 0xE000 then None else Some(v)
      else if 0xF0 <= b < 0xF5 && |s| == 4 && IsTail(s[1]) && IsTail(s[2]) && IsTail(s[3]) then
        var v := (((b - 0xF0) * 64 + (s[1] as int - 0x80)) * 64 + (s[2] as int - 0x80)) * 64 + (s[3] as int - 0x80);
        if v < 0x10000 || v >= 0x110000 then None else Some(v)
      else None
  }

  lemma Utf8Long(cp: nat)
    requires 0x10000 <= cp < 0x110000
    ensures Utf8Value(Utf8(cp)) == Some(cp)
  {
    var (a, b, c) := (cp / 64, cp / 64 / 64, cp / 64 / 64 / 64);
    assert cp == a * 64 + cp % 64 && a == b * 64 + a % 64 && b == c * 64 + b % 64;
  }

  lemma Utf8Middle(cp: nat)
    requires 0x800 <= cp < 0x10000 && !(0xD800 <= cp < 0xE000)
    ensures Utf8Value(Utf8(cp)) == Some(cp)
  {
    var (a, b) := (cp / 64, cp / 64 / 64);
    assert cp == a * 64 + cp % 64 && a == b * 64 + a % 64;
  }

  lemma Utf8Short(cp: nat)
    requires cp < 0x800
    ensures Utf8Value(Utf8(cp)) == Some(cp)
  {
    assert cp == cp / 64 * 64 + cp % 64;
  }

  // Every character number but a surrogate is encoded well-formedly and read back.
  lemma Utf8RoundTrip(cp: nat)
    requires cp < 0x110000 && !(0xD800 <= cp < 0xE000)
    ensures Utf8Value(Utf8(cp)) == Some(cp)
  {
    hide *;
    if cp < 0x800 { Utf8Short(cp); } else if cp < 0x10000 { Utf8Middle(cp); } else { Utf8Long(cp); }
  }

  // And nothing else is read: a sequence stands for a number exactly when it is the one
  // written for it.
  lemma Utf8Is(s: seq<Char8>, cp: nat)
    ensures Utf8Value(s) == Some(cp) <==> cp < 0x110000 && !(0xD800 <= cp < 0xE000) && s == Utf8(cp)
  {
    hide Utf8, Utf8Value;
    if cp < 0x110000 && !(0xD800 <= cp < 0xE000) { Utf8RoundTrip(cp); }
    if Utf8Value(s) == Some(cp) { Utf8Only(s, cp); }
  }

  lemma Utf8Only(s: seq<Char8>, cp: nat)
    requires Utf8Value(s) == Some(cp)
    ensures cp < 0x110000 && !(0xD800 <= cp < 0xE000) && s == Utf8(cp)
  {
    if |s| == 4 {
      FourOnly(s, cp);
    } else if |s| == 3 {
      ThreeOnly(s, cp);
    } else if |s| == 2 {
      TwoParts(s[0] as int - 0xC0, s[1] as int - 0x80);
    }
  }

  lemma ThreeOnly(s: seq<Char8>, cp: nat)
    requires |s| == 3 && Utf8Value(s) == Some(cp)
    ensures cp < 0x110000 && !(0xD800 <= cp < 0xE000) && s == Utf8(cp)
  {
    var (a, b, c) := (s[0] as int - 0xE0, s[1] as int - 0x80, s[2] as int - 0x80);
    TwoParts(a * 64 + b, c);
    TwoParts(a, b);
  }

  lemma FourOnly(s: seq<Char8>, cp: nat)
    requires |s| == 4 && Utf8Value(s) == Some(cp)
    ensures cp < 0x110000 && !(0xD800 <= cp < 0xE000) && s == Utf8(cp)
  {
    var (a, b, c, d) := (s[0] as int - 0xF0, s[1] as int - 0x80, s[2] as int - 0x80, s[3] as int - 0x80);
    TwoParts((a * 64 + b) * 64 + c, d);
    TwoParts(a * 64 + b, c);
    TwoParts(a, b);
  }

  lemma TwoParts(high: nat, low: nat)
    requires low < 64
    ensures (high * 64 + low) / 64 == high && (high * 64 + low) % 64 == low
  {
  }

  // ----- escaping -----

  function EscapeByte(c: Char8): seq<Char8> {
    if c == '\\' then "\\\\"
    else if c == '\"' then "\\\""
    else if c == '/' then "\\/"
    else if c as int == 8 then "\\b"
    else if c as int == 12 then "\\f"
    else if c == '\n' then "\\n"
    else if c == '\r' then "\\r"
    else if c == '\t' then "\\t"
    else if c < ' ' then "\\u00" + [LowerHex(c as int / 16), LowerHex(c as int % 16)]
    else [c]
  }

  // What is escaped: quote, backslash, slash and five control characters by a letter, the
  // other control characters by their number, and nothing else.
  lemma EscapedIs(c: Char8)
    ensures EscapeByte(c) == [c] <==> c >= ' ' && c != '\"' && c != '\\' && c != '/'
    ensures |EscapeByte(c)| == 2 <==> c == '\"' || c == '\\' || c == '/' || c as int in {8, 9, 10, 12, 13}
    ensures |EscapeByte(c)| == 6 <==> c < ' ' && c as int !in {8, 9, 10, 12, 13}
    ensures |EscapeByte(c)| == 6 ==> EscapeByte(c)[..4] == "\\u00"
  {
    hide LowerHex;
  }

  function Escape(s: seq<Char8>): seq<Char8> {
    if s == [] then [] else EscapeByte(s[0]) + Escape(s[1..])
  }

  lemma {:induction false} EscapeAppend(s: seq<Char8>, c: Char8)
    ensures Escape(s + [c]) == Escape(s) + EscapeByte(c)
  {
    if s == [] {
      assert [c][1..] == [] && s + [c] == [c];
      assert EscapeByte(c) + "" == "" + EscapeByte(c);
    } else {
      assert (s + [c])[1..] == s[1..] + [c];
      EscapeAppend(s[1..], c);
    }
  }

  // json_escape
  method EscapeText(text: seq<Char8>) returns (result: string)
    ensures result == Escape(text)
  {
    var output := new RcString.Buffer(|text|);
    var i := 0;
    while i < |text|
      invariant fresh(output) && fresh(output.text) && output.Valid()
      invariant i <= |text| && output.Contents() == Escape(text[..i])
    {
      var c := text[i];
      if c == '\\' {
        output.CatString("\\\\");
      } else if c == '\"' {
        output.CatString("\\\"");
      } else if c == '/' {
        output.CatString("\\/");
      } else if c as int == 8 {
        output.CatString("\\b");
      } else if c as int == 12 {
        output.CatString("\\f");
      } else if c == '\n' {
        output.CatString("\\n");
      } else if c == '\r' {
        output.CatString("\\r");
      } else if c == '\t' {
        output.CatString("\\t");
      } else if c < ' ' {
        output.CatString("\\u00" + [LowerHex(c as int / 16), LowerHex(c as int % 16)]);
      } else {
        output.CatChar(c);
      }
      EscapeAppend(text[..i], c);
      assert text[..i] + [c] == text[..i + 1];
      i := i + 1;
    }
    assert text[..i] == text;
    result := output.text[..output.length];
  }

  // ----- what a string text means -----

  predicate IsHex4(s: string) {
    |s| >= 4 && IsHex(s[0]) && IsHex(s[1]) && IsHex(s[2]) && IsHex(s[3])
  }

  // The number that four hex digits stand for.
  function Hex4(s: string): nat
    requires IsHex4(s)
  {
    ((HexValue(s[0]) * 16 + HexValue(s[1])) * 16 + HexValue(s[2])) * 16 + HexValue(s[3])
  }

  lemma Hex4Bound(s: string)
    requires IsHex4(s)
    ensures Hex4(s) < 0x10000
  {
  }

  predicate IsHigh(u: nat) { 0xD800 <= u < 0xDC00 }
  predicate IsLow(u: nat) { 0xDC00 <= u < 0xE000 }

  function Simple(c: char): Char8
    requires IsSimpleEscape(c)
  {
    if c == 'b' then ByteOf(8) else if c == 'f' then ByteOf(12)
    else if c == 'n' then '\n' else if c == 'r' then '\r' else if c == 't' then '\t' else c
  }

  // A byte taken as it is, or a character number to be encoded.
  datatype Piece = Raw(b: Char8) | Point(cp: nat)

  // The first piece of a text and what follows it; None where the text is not a
  // string text or a surrogate is unpaired.
  function FirstPiece(s: string): Option<(Piece, string)> {
    if s == "" || s[0] as int >= 256 || (s[0] != '\\' && (s[0] == '\"' || s[0] < ' ')) then None
    else if s[0] != '\\' then Some((Raw(s[0]), s[1..]))
    else if |s| < 2 then None
    else if IsSimpleEscape(s[1]) then Some((Raw(Simple(s[1])), s[2..]))
    else if s[1] != 'u' || !IsHex4(s[2..]) || IsLow(Hex4(s[2..])) then None
    else if !IsHigh(Hex4(s[2..])) then Some((Point(Hex4(s[2..])), s[6..]))
    else if |s| < 12 || s[6] != '\\' || s[7] != 'u' || !IsHex4(s[8..]) || !IsLow(Hex4(s[8..])) then None
    else Some((Point((Hex4(s[2..]) - 0xD800) * 0x400 + (Hex4(s[8..]) - 0xDC00) + 0x10000), s[12..]))
  }

  // A text made of pieces only.
  predicate Readable(s: string)
    decreases |s|
  {
    s == "" || (FirstPiece(s).Some? && |FirstPiece(s).value.1| < |s| && Readable(FirstPiece(s).value.1))
  }

  function Encoded(p: Piece): seq<Char8> {
    match p
    case Raw(b) => [b]
    case Point(cp) => if cp < 0x110000 then Utf8(cp) else []
  }

  function Meaning(s: string): seq<Char8>
    requires Readable(s)
    decreases |s|
  {
    if s == "" then [] else Encoded(FirstPiece(s).value.0) + Meaning(FirstPiece(s).value.1)
  }

  // Readable texts are string texts of the grammar whose surrogates are paired, so
  // the lexer accepts them, and each piece stands for a character number or a byte.
  lemma {:induction false} ReadableIsValid(s: string)
    requires Readable(s)
    ensures ValidStringText(s)
    decreases |s|
  {
    if s != "" {
      var (p, rest) := FirstPiece(s).value;
      ReadableIsValid(rest);
      if s[0] == '\\' && s[1] == 'u' && IsHigh(Hex4(s[2..])) {
        assert s[6..][6..] == s[12..];
        assert ValidStringText(s[6..]);
      }
    }
  }

  predicate AllBytes(s: string) {
    forall i | 0 <= i < |s| :: s[i] as int < 256
  }

  // Every high-surrogate escape is followed by a low one, and no low one stands alone.
  predicate Paired(s: string)
    requires ValidStringText(s)
    decreases |s|
  {
    if s == "" then true
    else if s[0] != '\\' then Paired(s[1..])
    else if s[1] != 'u' then Paired(s[2..])
    else if IsLow(Hex4(s[2..])) then false
    else if !IsHigh(Hex4(s[2..])) then Paired(s[6..])
    else
      && |s| >= 12 && s[6] == '\\' && s[7] == 'u' && ValidStringText(s[12..]) && IsHex4(s[8..])
      && IsLow(Hex4(s[8..])) && Paired(s[12..])
  }

  // What the lexer accepts with its surrogates paired is readable, and nothing else is.
  lemma {:induction false} ReadableIff(s: string)
    ensures Readable(s) <==> ValidStringText(s) && AllBytes(s) && Paired(s)
    decreases |s|
  {
    hide HexValue, AllBytes, Encoded;
    NothingButBytes(s);
    if FirstPiece(s).Some? { PieceIsBytes(s); }
    if Readable(s) { ReadableIsValid(s); }
    if s != "" && ValidStringText(s) {
      if s[0] != '\\' {
        ReadableIff(s[1..]);
        BytesSplit(s, 1);
      } else if s[1] != 'u' {
        ReadableIff(s[2..]);
        BytesSplit(s, 2);
      } else if !IsHigh(Hex4(s[2..])) {
        ReadableIff(s[6..]);
        BytesSplit(s, 6);
      } else if |s| >= 12 && s[6] == '\\' && s[7] == 'u' {
        assert s[6..][2] == s[8] && s[6..][6..] == s[12..];
        ReadableIff(s[12..]);
        BytesSplit(s, 12);
      }
    }
  }

  lemma NothingButBytes(s: string)
    ensures s == "" ==> AllBytes(s)
    ensures s != "" && AllBytes(s) ==> s[0] as int < 256
  {
  }

  lemma PieceIsBytes(s: string)
    requires FirstPiece(s).Some?
    ensures var k := |s| - |FirstPiece(s).value.1|; 0 <= k <= |s| && AllBytes(s[..k])
  {
    hide HexValue, Hex4, IsHex;
    var k := |s| - |FirstPiece(s).value.1|;
    if k >= 6 { HexBytes(s, 2); }
    if k == 12 { HexBytes(s, 8); }
    assert k in {1, 2, 6, 12};
    assert forall i | 0 <= i < k :: s[..k][i] == s[i];
  }

  lemma HexBytes(s: string, k: nat)
    requires k + 4 <= |s| && IsHex4(s[k..])
    ensures forall i | k <= i < k + 4 :: s[i] as int < 256
  {
    assert forall i | k <= i < k + 4 :: s[i] == s[k..][i - k];
  }

  lemma BytesSplit(s: string, k: nat)
    requires k <= |s|
    ensures AllBytes(s) <==> AllBytes(s[..k]) && AllBytes(s[k..])
  {
    if AllBytes(s[..k]) && AllBytes(s[k..]) {
      assert forall i | 0 <= i < |s| :: s[i] == if i < k then s[..k][i] else s[k..][i - k];
    }
  }

  lemma PieceIsScalar(s: string)
    requires FirstPiece(s).Some? && FirstPiece(s).value.0.Point?
    ensures var cp := FirstPiece(s).value.0.cp; cp < 0x110000 && !(0xD800 <= cp < 0xE000)
  {
    Hex4Bound(s[2..]);
  }

  // ----- escaping, then unescaping -----

  lemma EscapedByteIsPiece(c: Char8, rest: string)
    ensures FirstPiece(EscapeByte(c) + rest).Some?
    ensures var (p, r) := FirstPiece(EscapeByte(c) + rest).value; r == rest && Encoded(p) == [c]
  {
    var s := EscapeByte(c) + rest;
    if c == '\\' || c == '\"' || c == '/' || c as int == 8 || c as int == 12 || c == '\n' || c == '\r' || c == '\t' {
      assert s[2..] == rest;
    } else if c < ' ' {
      HexBack(c as int / 16);
      HexBack(c as int % 16);
      hide LowerHex, HexValue, IsHex;
      assert IsHex('0') && HexValue('0') == 0 by { ZeroDigit(); }
      assert s[6..] == rest && s[2..][0] == '0' && s[2..][1] == '0';
      assert s[2..][2] == LowerHex(c as int / 16) && s[2..][3] == LowerHex(c as int % 16);
    } else {
      assert s[1..] == rest;
    }
  }

  lemma ZeroDigit()
    ensures IsHex('0') && HexValue('0') == 0
  {
  }

  // An escaped text means the bytes it was made from, and is always a valid string text.
  lemma {:induction false} EscapeKeepsMeaning(s: seq<Char8>)
    ensures Readable(Escape(s)) && ValidStringText(Escape(s))
    ensures Meaning(Escape(s)) == s
  {
    if s != [] {
      EscapedByteIsPiece(s[0], Escape(s[1..]));
      EscapeKeepsMeaning(s[1..]);
      assert [s[0]] + s[1..] == s;
    }
    ReadableIsValid(Escape(s));
  }
}

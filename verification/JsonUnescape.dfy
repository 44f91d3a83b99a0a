/** json_unescape: what it writes for every text, and when it stays inside the text. */
module JsonUnescape {
  import opened Wrappers
  import opened Units
  import opened Hex
  import opened JsonTree
  import opened JsonEscape

  // ----- strtol in base 16, for any characters -----

  function SkipSpaces(s: string): string {
    if s != "" && (s[0] == ' ' || 9 <= s[0] as int <= 13) then SkipSpaces(s[1..]) else s
  }

  // The number of the leading hex digits, after value v.
  function HexRun(s: string, v: nat): nat {
    if s == "" || !IsHex(s[0]) then v else HexRun(s[1..], 16 * v + HexValue(s[0]))
  }

  function Prefixed(s: string): nat {
    if |s| >= 3 && s[0] == '0' && (s[1] == 'x' || s[1] == 'X') && IsHex(s[2]) then HexRun(s[2..], 0)
    else HexRun(s, 0)
  }

  function Strtol16(s: string): (n: int) {
    var t := SkipSpaces(s);
    if t != "" && t[0] == '-' then 0 - Prefixed(t[1..])
    else if t != "" && t[0] == '+' then Prefixed(t[1..])
    else Prefixed(t)
  }

  predicate AllHex(s: string) {
    forall i | 0 <= i < |s| :: IsHex(s[i])
  }

  // The number of hex digits, the last one lowest.
  lemma {:induction false} HexRunEnds(digits: string, rest: string, v: nat)
    requires AllHex(digits) && (rest == "" || !IsHex(rest[0]))
    ensures HexRun(digits + rest, v) == HexRun(digits, v)
    decreases |digits|
  {
    if digits == "" {
      assert digits + rest == rest;
    } else {
      assert (digits + rest)[1..] == digits[1..] + rest;
      HexRunEnds(digits[1..], rest, 16 * v + HexValue(digits[0]));
    }
  }

  lemma {:induction false} HexRunAppend(digits: string, c: char, v: nat)
    requires AllHex(digits) && IsHex(c)
    ensures HexRun(digits + [c], v) == 16 * HexRun(digits, v) + HexValue(c)
    decreases |digits|
  {
    if digits == "" {
      assert digits + [c] == [c] && [c][1..] == "";
    } else {
      assert (digits + [c])[1..] == digits[1..] + [c];
      HexRunAppend(digits[1..], c, 16 * v + HexValue(digits[0]));
    }
  }

  lemma {:induction false} SpacesSkipped(blanks: string, s: string)
    requires forall i | 0 <= i < |blanks| :: blanks[i] == ' ' || 9 <= blanks[i] as int <= 13
    requires s != "" && s[0] != ' ' && !(9 <= s[0] as int <= 13)
    ensures SkipSpaces(blanks + s) == s
    decreases |blanks|
  {
    if blanks == "" {
      assert blanks + s == s;
    } else {
      assert (blanks + s)[1..] == blanks[1..] + s;
      SpacesSkipped(blanks[1..], s);
    }
  }

  // strtol: spaces, a sign, and hex digits up to the first other character.
  lemma StrtolIs(blanks: string, sign: string, digits: string, rest: string)
    requires forall i | 0 <= i < |blanks| :: blanks[i] == ' ' || 9 <= blanks[i] as int <= 13
    requires (sign == "" || sign == "+" || sign == "-") && digits != "" && AllHex(digits)
    requires (rest == "" || !IsHex(rest[0])) && !(digits == "0" && rest != "" && (rest[0] == 'x' || rest[0] == 'X'))
    ensures Strtol16(blanks + (sign + (digits + rest)))
            == if sign == "-" then 0 - HexRun(digits, 0) else HexRun(digits, 0)
  {
    var s := sign + (digits + rest);
    SpacesSkipped(blanks, s);
    HexRunEnds(digits, rest, 0);
    NoPrefix(digits, rest);
    hide HexRun, SkipSpaces, Prefixed;
    if sign == "" { assert s == digits + rest; } else { assert s[1..] == digits + rest; }
  }

  lemma NoPrefix(digits: string, rest: string)
    requires digits != "" && AllHex(digits)
    requires !(digits == "0" && rest != "" && (rest[0] == 'x' || rest[0] == 'X'))
    ensures Prefixed(digits + rest) == HexRun(digits + rest, 0)
    ensures digits[0] != '-' && digits[0] != '+' && digits[0] != ' ' && !(9 <= digits[0] as int <= 13)
  {
    hide HexRun;
    assert |digits| > 1 ==> (digits + rest)[1] == digits[1];
    assert |digits| == 1 && rest != "" ==> (digits + rest)[1] == rest[0];
  }

  // The digits may come after 0x.
  lemma StrtolPrefixed(x: char, digits: string, rest: string)
    requires (x == 'x' || x == 'X') && digits != "" && AllHex(digits) && (rest == "" || !IsHex(rest[0]))
    ensures Strtol16("0" + [x] + (digits + rest)) == HexRun(digits, 0)
  {
    var (t, s) := (digits + rest, "0" + [x] + (digits + rest));
    HexRunEnds(digits, rest, 0);
    hide HexRun;
    assert s[2..] == t && t[0] == digits[0];
  }

  lemma StrtolOfHex(s: string)
    requires |s| == 4 && IsHex4(s)
    ensures Strtol16(s) == Hex4(s)
  {
    hide HexValue;
    assert SkipSpaces(s) == s && Strtol16(s) == Prefixed(s) == HexRun(s, 0);
    HexRunOn(s, 0, 0);
    HexRunOn(s, 1, HexValue(s[0]));
    HexRunOn(s, 2, 16 * HexValue(s[0]) + HexValue(s[1]));
    HexRunOn(s, 3, 16 * (16 * HexValue(s[0]) + HexValue(s[1])) + HexValue(s[2]));
  }

  lemma HexRunOn(s: string, k: nat, v: nat)
    requires k < |s| && IsHex(s[k])
    ensures HexRun(s[k..], v) == HexRun(s[k + 1..], 16 * v + HexValue(s[k]))
  {
    hide HexValue;
    assert s[k..][1..] == s[k + 1..];
  }

  // ----- what is written for the first escape or character -----

  // Up to three bytes for a number that is not a high surrogate.
  function CodeBytes(u: int): (b: seq<Char8>)
    ensures |b| <= 3
  {
    if u < 0x80 then [ByteOf(u % 256)]
    else if u < 0x800 then [ByteOf(0xC0 + u / 64 % 32), ByteOf(0x80 + u % 64)]
    else if u < 0x10000 then
      [ByteOf(0xE0 + u / 64 / 64 % 16), ByteOf(0x80 + u / 64 % 64), ByteOf(0x80 + u % 64)]
    else []
  }

  // Four bytes for a high surrogate and whatever number is read after it.
  function PairBytes(high: int, low: int): (b: seq<Char8>)
    ensures |b| == 4
  {
    var u := (high - 0xD800) * 0x400 + (low - 0xDC00) + 0x10000;
    [ByteOf(0xF0 + u / 64 / 64 / 64 % 8), ByteOf(0x80 + u / 64 / 64 % 64), ByteOf(0x80 + u / 64 % 64),
      ByteOf(0x80 + u % 64)]
  }

  predicate IsHighCode(u: int) {
    0xD800 <= u <= 0xDBFF
  }

  // What is written first and how much of the text it takes; None where the switch
  // reaches its default case or the text ends inside an escape. After a high surrogate
  // six characters are taken whatever they are: the source's two tests for a following
  // escape never fail, as they compare a negation with a character.
  function FirstPart(s: seq<Char8>): (r: Option<(seq<Char8>, nat)>)
    requires s != []
    ensures r.Some? ==> 1 <= r.value.1 <= |s| && |r.value.0| <= r.value.1
  {
    if s[0] != '\\' then Some(([s[0]], 1))
    else if |s| < 2 then None
    else if IsSimpleEscape(s[1]) then Some(([Simple(s[1])], 2))
    else if s[1] != 'u' || |s| < 6 then None
    else
      var u := Strtol16(s[2..6]);
      if !IsHighCode(u) then Some((CodeBytes(u), 6))
      else if |s| < 12 then None
      else Some((PairBytes(u, Strtol16(s[8..12])), 12))
  }

  // The whole text is gone through.
  predicate Handled(s: seq<Char8>)
    decreases |s|
  {
    s == [] || (FirstPart(s).Some? && Handled(s[FirstPart(s).value.1..]))
  }

  function Written(s: seq<Char8>): seq<Char8>
    requires Handled(s)
    decreases |s|
  {
    if s == [] then [] else FirstPart(s).value.0 + Written(s[FirstPart(s).value.1..])
  }

  // ----- the loop -----

  // Write some bytes behind the write cursor.
  method Put(result: array<Char8>, w: nat, bytes: seq<Char8>) returns (w': nat)
    requires w + |bytes| <= result.Length
    modifies result
    ensures w' == w + |bytes| && result[..w'] == old(result[..w]) + bytes
  {
    var i := 0;
    while i < |bytes|
      invariant i <= |bytes| && result[..w + i] == old(result[..w]) + bytes[..i]
    {
      result[w + i] := bytes[i];
      i := i + 1;
    }
    w' := w + |bytes|;
  }

  lemma PartAt(text: seq<Char8>, r: nat)
    requires r < |text|
    ensures var (s, t) := (text[r..], text[r + 1..]);
            FirstPart(s) ==
            if text[r] != '\\' then Some(([text[r]], 1))
            else if r + 1 == |text| then None
            else if IsSimpleEscape(text[r + 1]) then Some(([Simple(text[r + 1])], 2))
            else if text[r + 1] != 'u' || r + 6 > |text| then None
            else
              var u := Strtol16(text[r + 2..r + 6]);
              if !IsHighCode(u) then Some((CodeBytes(u), 6))
              else if r + 12 > |text| then None
              else Some((PairBytes(u, Strtol16(text[r + 8..r + 12])), 12))
  {
    hide Strtol16, CodeBytes, PairBytes;
    var s := text[r..];
    if r + 6 <= |text| { assert s[2..6] == text[r + 2..r + 6]; }
    if r + 12 <= |text| { assert s[8..12] == text[r + 8..r + 12]; }
  }

  // The case of \u: r is at the u, and comes back at the last character read.
  method UnescapeUnicode(text: seq<Char8>, r: nat, result: array<Char8>, w: nat) returns (ok: bool, r': nat, w': nat)
    requires 0 < r < |text| && text[r - 1] == '\\' && text[r] == 'u'
    requires w < r && result.Length == |text| + 1
    modifies result
    ensures ok == FirstPart(text[r - 1..]).Some?
    ensures ok ==>
              && r' == r - 2 + FirstPart(text[r - 1..]).value.1 < |text| && w' <= r' + 1
              && result[..w'] == old(result[..w]) + FirstPart(text[r - 1..]).value.0
  {
    hide FirstPart, Strtol16;
    PartAt(text, r - 1);
    r', w' := r, w;
    if r + 4 >= |text| { return false, r, w; }
    var unicode := Strtol16(text[r + 1..r + 5]);
    r' := r + 4;
    if unicode < 0x80 {
      w' := Put(result, w, [ByteOf(unicode % 256)]);
    } else if unicode < 0x800 {
      w' := Put(result, w, [ByteOf(0xC0 + unicode / 64 % 32), ByteOf(0x80 + unicode % 64)]);
    } else if unicode < 0x10000 {
      if unicode < 0xD800 || 0xDBFF < unicode {
        var three := ByteOf(0x80 + unicode % 64);
        unicode := unicode / 64;
        var two := ByteOf(0x80 + unicode % 64);
        unicode := unicode / 64;
        w' := Put(result, w, [ByteOf(0xE0 + unicode % 16), two, three]);
      } else {
        r' := r' + 2;
        if r' + 4 >= |text| { return false, r, w; }
        var low := Strtol16(text[r' + 1..r' + 5]);
        r' := r' + 4;
        unicode := (unicode - 0xD800) * 0x400 + (low - 0xDC00) + 0x10000;
        var four := ByteOf(0x80 + unicode % 64);
        unicode := unicode / 64;
        var three := ByteOf(0x80 + unicode % 64);
        unicode := unicode / 64;
        var two := ByteOf(0x80 + unicode % 64);
        unicode := unicode / 64;
        w' := Put(result, w, [ByteOf(0xF0 + unicode % 8), two, three, four]);
      }
    }
    ok := true;
  }

  lemma HandledOn(text: seq<Char8>, r: nat)
    requires r < |text|
    ensures var p := FirstPart(text[r..]);
            && (Handled(text[r..]) <==> p.Some? && Handled(text[r + p.value.1..]))
            && (Handled(text[r..]) ==> Written(text[r..]) == p.value.0 + Written(text[r + p.value.1..]))
  {
    hide FirstPart;
    var p := FirstPart(text[r..]);
    if p.Some? { assert text[r..][p.value.1..] == text[r + p.value.1..]; }
  }

  // json_unescape; ok is false where the source stops at assert(0) or reads past the
  // end of the text. The write cursor never passes the read cursor.
  method UnescapeText(text: seq<Char8>) returns (result: array<Char8>, w: nat, ok: bool)
    ensures fresh(result) && result.Length == |text| + 1
    ensures ok <==> Handled(text)
    ensures ok ==> w <= |text| && result[..w] == Written(text) && result[w] == '\0'
  {
    hide FirstPart, Handled, Written;
    NothingHandled();
    result := new Char8[|text| + 1](_ => 'a');
    w := 0;
    var r := 0;
    assert text[0..] == text;
    while r < |text|
      invariant w <= r <= |text| && (Handled(text) <==> Handled(text[r..]))
      invariant Handled(text) ==> result[..w] + Written(text[r..]) == Written(text)
    {
      HandledOn(text, r);
      PartAt(text, r);
      ghost var (part, before) := (FirstPart(text[r..]), result[..w]);
      if text[r] == '\\' {
        r := r + 1;
        if r == |text| { return result, w, false; }
        if IsSimpleEscape(text[r]) {
          w := Put(result, w, [Simple(text[r])]);
        } else if text[r] == 'u' {
          ok, r, w := UnescapeUnicode(text, r, result, w);
          if !ok { return; }
        } else {
          return result, w, false;
        }
      } else {
        w := Put(result, w, [text[r]]);
      }
      r := r + 1;
      Associate(before, part.value.0, text, r);
    }
    assert text[r..] == [];
    result[w] := '\0';
    ok := true;
  }

  lemma Associate(before: seq<Char8>, part: seq<Char8>, text: seq<Char8>, r: nat)
    requires r <= |text|
    ensures Handled(text[r..]) ==> before + (part + Written(text[r..])) == before + part + Written(text[r..])
  {
  }

  lemma NothingHandled()
    ensures Handled([]) && Written([]) == []
  {
  }

  // ----- which accepted texts are safe, and which are right -----

  // Every high-surrogate escape is followed by another \u escape.
  predicate HighsFollowed(s: string)
    requires ValidStringText(s)
    decreases |s|
  {
    if s == "" then true
    else if s[0] != '\\' then HighsFollowed(s[1..])
    else if s[1] != 'u' then HighsFollowed(s[2..])
    else if !IsHigh(Hex4(s[2..])) then HighsFollowed(s[6..])
    else |s| >= 12 && s[6] == '\\' && s[7] == 'u' && ValidStringText(s[12..]) && HighsFollowed(s[12..])
  }

  // Paired surrogates are a case of it.
  lemma {:induction false} PairedIsFollowed(s: string)
    requires ValidStringText(s) && Paired(s)
    ensures HighsFollowed(s)
    decreases |s|
  {
    hide Hex4, IsHex, IsSimpleEscape;
    if s != "" {
      if s[0] != '\\' {
        PairedIsFollowed(s[1..]);
      } else if s[1] != 'u' {
        PairedIsFollowed(s[2..]);
      } else if IsHigh(Hex4(s[2..])) {
        PairedIsFollowed(s[12..]);
      } else {
        PairedIsFollowed(s[6..]);
      }
    }
  }

  lemma FirstOfEscape(s: seq<Char8>)
    requires |s| >= 6 && s[0] == '\\' && s[1] == 'u' && IsHex4(s[2..])
    ensures var u := Hex4(s[2..]);
            && (!IsHigh(u) ==> FirstPart(s) == Some((CodeBytes(u), 6)))
            && (IsHigh(u) && |s| >= 12 && IsHex4(s[8..]) ==> FirstPart(s) == Some((PairBytes(u, Hex4(s[8..])), 12)))
  {
    hide Strtol16, CodeBytes, PairBytes;
    var a := s[2..6];
    assert a[0] == s[2..][0] && a[1] == s[2..][1] && a[2] == s[2..][2] && a[3] == s[2..][3];
    StrtolOfHex(a);
    if |s| >= 12 && IsHex4(s[8..]) {
      var b := s[8..12];
      assert b[0] == s[8..][0] && b[1] == s[8..][1] && b[2] == s[8..][2] && b[3] == s[8..][3];
      StrtolOfHex(b);
    }
  }

  // Accepted texts whose high surrogates are followed by an escape are gone through.
  lemma {:induction false} FollowedIsHandled(s: seq<Char8>)
    requires ValidStringText(s) && HighsFollowed(s)
    ensures Handled(s)
    decreases |s|
  {
    hide CodeBytes, PairBytes, Strtol16;
    if s != [] {
      if s[0] != '\\' {
        FollowedIsHandled(s[1..]);
      } else if s[1] != 'u' {
        FollowedIsHandled(s[2..]);
      } else {
        assert IsHex4(s[2..]);
        if IsHigh(Hex4(s[2..])) {
          assert s[6..][6..] == s[12..] && s[6..][2..] == s[8..];
          FollowedIsHandled(s[12..]);
        } else {
          FollowedIsHandled(s[6..]);
        }
        FirstOfEscape(s);
      }
    }
  }

  // A text whose surrogates are paired is gone through, and what is written is what
  // it means: the UTF-8 of each character number.
  lemma {:induction false} PairedIsMeaning(s: seq<Char8>)
    requires Readable(s)
    ensures Handled(s) && Written(s) == Meaning(s)
    decreases |s|
  {
    hide CodeBytes, PairBytes, Strtol16, Utf8;
    if s != [] {
      var (piece, rest) := FirstPiece(s).value;
      PairedIsMeaning(rest);
      FirstIsPiece(s);
    }
  }

  lemma FirstIsPiece(s: seq<Char8>)
    requires s != [] && FirstPiece(s).Some?
    ensures FirstPart(s) == Some((Encoded(FirstPiece(s).value.0), |s| - |FirstPiece(s).value.1|))
    ensures FirstPiece(s).value.1 == s[|s| - |FirstPiece(s).value.1|..]
  {
    hide Strtol16, Utf8;
    if |s| >= 2 && s[0] == '\\' && s[1] == 'u' {
      FirstOfEscape(s);
      PieceIsScalar(s);
      PieceBytes(FirstPiece(s).value.0.cp);
    }
  }

  lemma PieceBytes(cp: nat)
    requires cp < 0x110000
    ensures cp < 0x10000 ==> CodeBytes(cp) == Utf8(cp)
    ensures forall high: int, low: int :: cp >= 0x10000 && cp == (high - 0xD800) * 0x400 + (low - 0xDC00) + 0x10000 ==>
                                            PairBytes(high, low) == Utf8(cp)
  {
  }

  // Unescaping undoes escaping.
  lemma UnescapeEscape(s: seq<Char8>)
    ensures ValidStringText(Escape(s)) && Handled(Escape(s)) && Written(Escape(s)) == s
  {
    EscapeKeepsMeaning(s);
    PairedIsMeaning(Escape(s));
  }

  // A high surrogate takes twelve characters, whatever stands after it.
  lemma HighTakesTwelve(s: seq<Char8>)
    requires |s| >= 6 && s[0] == '\\' && s[1] == 'u' && IsHex4(s[2..]) && IsHigh(Hex4(s[2..]))
    ensures Handled(s) <==> |s| >= 12 && Handled(s[12..])
  {
    hide Strtol16, CodeBytes, PairBytes, IsHex, HexValue;
    var a := s[2..6];
    assert a[0] == s[2..][0] && a[1] == s[2..][1] && a[2] == s[2..][2] && a[3] == s[2..][3];
    StrtolOfHex(a);
    HandledOn(s, 0);
    assert s[0..] == s;
  }

  lemma D800()
    ensures IsHex4("d800") && Hex4("d800") == 0xD800
  {
  }

  lemma Shifted(s: string, t: string)
    requires IsHex4(s) && |t| >= 4 && t[0] == s[0] && t[1] == s[1] && t[2] == s[2] && t[3] == s[3]
    ensures IsHex4(t) && Hex4(t) == Hex4(s)
  {
  }

  // A high surrogate with nothing, or nothing fitting, behind it is accepted, but the
  // source reads past the end, or skips six characters and stops at assert(0).
  lemma UnpairedHighFails(t: seq<Char8>, u: seq<Char8>)
    requires t == "\\ud800" && u == "\\ud800abcde\\\\q"
    ensures ValidStringText(t) && !Handled(t)
    ensures ValidStringText(u) && !Handled(u)
  {
    hide IsHex, Hex4, Handled, ValidStringText, HexValue;
    D800();
    Shifted("d800", t[2..]);
    Shifted("d800", u[2..]);
    HighTakesTwelve(t);
    HighTakesTwelve(u);
    assert u[12..] == ['\\', 'q'];
    BadEscape();
    EscapeIsValid(t);
    EscapeIsValid(u);
    PlainTail();
    assert t[6..] == [] && u[6..] == "abcde\\\\q";
  }

  lemma EscapeIsValid(s: string)
    requires |s| >= 6 && s[0] == '\\' && s[1] == 'u' && IsHex4(s[2..])
    ensures ValidStringText(s) <==> ValidStringText(s[6..])
  {
    assert s[2..][0] == s[2] && s[2..][1] == s[3] && s[2..][2] == s[4] && s[2..][3] == s[5];
  }

  lemma BadEscape()
    ensures !Handled(['\\', 'q'])
  {
  }

  lemma PlainTail()
    ensures ValidStringText("abcde\\\\q") && ValidStringText("")
  {
    var s := "abcde\\\\q";
    assert s[1..] == "bcde\\\\q" && s[1..][1..] == "cde\\\\q" && s[1..][1..][1..] == "de\\\\q";
    assert "de\\\\q"[1..] == "e\\\\q" && "e\\\\q"[1..] == "\\\\q" && "\\\\q"[2..] == "q" && "q"[1..] == "";
  }

  // A lone low surrogate is gone through, to three bytes that are not UTF-8.
  lemma LoneLowIsWritten(s: seq<Char8>)
    requires s == "\\udc00"
    ensures ValidStringText(s) && !Readable(s)
    ensures Handled(s) && Written(s) == [ByteOf(0xED), ByteOf(0xB0), ByteOf(0x80)]
    ensures Utf8Value(Written(s)) == None
  {
    hide Strtol16, IsHex, HexValue, ValidStringText;
    Dc00();
    Shifted("dc00", s[2..]);
    FirstOfEscape(s);
    EscapeIsValid(s);
    PlainTail();
    assert s[6..] == [];
    NothingHandled();
    HandledOn(s, 0);
    assert s[0..] == s;
  }

  lemma Dc00()
    ensures IsHex4("dc00") && Hex4("dc00") == 0xDC00
  {
  }
}

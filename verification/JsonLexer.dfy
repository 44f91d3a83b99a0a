/** The 25-state lexer, one character at a time, and its agreement with the RFC 8259 grammar. */
module JsonLexer {
  import opened Wrappers
  import opened Hex
  import opened JsonTree

  datatype Token =
    | More
    | InvalidCharacter
    | TrueToken | FalseToken | NullToken
    | BeginObject | EndObject | BeginArray | EndArray
    | NameSeparator | ValueSeparator
    | StringToken | NumberToken

  // The part of json_parsing_info the lexer owns. The text is None while the
  // source's pointer is NULL.
  datatype Lex = Lex(state: nat, text: Option<string>, line: nat)

  datatype LexResult = LexResult(lex: Lex, token: Token, consumed: bool)

  function Consume(lex: Lex): LexResult {
    LexResult(lex, More, true)
  }

  function Reject(lex: Lex, consumed: bool): LexResult {
    LexResult(lex, InvalidCharacter, consumed)
  }

  function Emit(lex: Lex, token: Token): LexResult {
    LexResult(lex.(state := 0), token, true)
  }

  // Append c to the collected text and move to state q.
  function Collect(lex: Lex, c: char, q: nat): LexResult {
    Consume(lex.(state := q, text := Some((if lex.text.Some? then lex.text.value else "") + [c])))
  }

  function StartText(lex: Lex, text: string, q: nat): LexResult {
    Consume(lex.(state := q, text := Some(text)))
  }

  // Between tokens. Every character is consumed, a rejected one too.
  function LexRoot(lex: Lex, c: char): LexResult {
    if c == ' ' || c == '\t' then Consume(lex)
    else if c == '\n' || c == '\r' then Consume(lex.(line := lex.line + 1))
    else if c == '{' then Emit(lex, BeginObject)
    else if c == '}' then Emit(lex, EndObject)
    else if c == '[' then Emit(lex, BeginArray)
    else if c == ']' then Emit(lex, EndArray)
    else if c == ':' then Emit(lex, NameSeparator)
    else if c == ',' then Emit(lex, ValueSeparator)
    else if c == '\"' then StartText(lex, "", 1)
    else if c == 't' then Consume(lex.(state := 7))
    else if c == 'f' then Consume(lex.(state := 10))
    else if c == 'n' then Consume(lex.(state := 14))
    else if c == '-' then StartText(lex, "-", 17)
    else if c == '0' then StartText(lex, "0", 18)
    else if '1' <= c <= '9' then StartText(lex, [c], 19)
    else Reject(lex, true)
  }

  // Inside the quotes: 1 plain, 2 after a backslash, 3 to 6 the four hex digits.
  // The result 0 means that c does not continue the text.
  function StringNext(q: nat, c: char): nat {
    if q == 1 then (if c < ' ' || c == '\"' then 0 else if c == '\\' then 2 else 1)
    else if q == 2 then (if IsSimpleEscape(c) then 1 else if c == 'u' then 3 else 0)
    else if !IsHex(c) then 0
    else if q == 6 then 1
    else q + 1
  }

  function LexString(lex: Lex, c: char): LexResult {
    var q := StringNext(lex.state, c);
    if q != 0 then Collect(lex, c, q)
    else if lex.state == 1 && c == '\"' then Emit(lex, StringToken)
    else Reject(lex, false)
  }

  // The letter that continues true (7 to 9), false (10 to 13) or null (14 to 16).
  function ExpectedLetter(q: nat): char
    requires 7 <= q <= 16
  {
    "ruealseull"[q - 7]
  }

  function LexLiteral(lex: Lex, c: char): LexResult
    requires 7 <= lex.state <= 16
  {
    if c != ExpectedLetter(lex.state) then Reject(lex, true)
    else if lex.state == 9 then Emit(lex, TrueToken)
    else if lex.state == 13 then Emit(lex, FalseToken)
    else if lex.state == 16 then Emit(lex, NullToken)
    else Consume(lex.(state := lex.state + 1))
  }

  // 17 minus, 18 zero, 19 integer, 20 and 21 fraction, 22 to 24 exponent.
  function NumberNext(q: nat, c: char): nat {
    if q == 17 then (if c == '0' then 18 else if IsDigit(c) then 19 else 0)
    else if q == 20 then (if IsDigit(c) then 21 else 0)
    else if q == 22 && (c == '+' || c == '-') then 23
    else if q == 22 || q == 23 then (if IsDigit(c) then 24 else 0)
    else if c == '.' && q <= 19 then 20
    else if (c == 'e' || c == 'E') && q <= 21 then 22
    else if IsDigit(c) && q != 18 then q
    else 0
  }

  predicate NumberMayEnd(q: nat) {
    q == 18 || q == 19 || q == 21 || q == 24
  }

  // Only these three end a number without being consumed by it.
  predicate IsCloser(c: char) {
    c == ']' || c == '}' || c == ','
  }

  function LexNumber(lex: Lex, c: char): LexResult {
    var q := NumberNext(lex.state, c);
    if q != 0 then Collect(lex, c, q)
    else if NumberMayEnd(lex.state) && (IsWhitespace(c) || IsCloser(c)) then
      LexResult(lex.(state := 0), NumberToken, IsWhitespace(c))
    else Reject(lex, false)
  }

  function LexChar(lex: Lex, c: char): LexResult {
    if lex.state == 0 then LexRoot(lex, c)
    else if lex.state <= 6 then LexString(lex, c)
    else if lex.state <= 16 then LexLiteral(lex, c)
    else if lex.state <= 24 then LexNumber(lex, c)
    else Reject(lex, false)
  }

  // One call of the source's lexer on buffer from position i: the new lexer
  // state, the token, and the new position, None where the source sets *p to NULL.
  function LexFrom(lex: Lex, buffer: string, i: nat): (Lex, Token, Option<nat>)
    requires i <= |buffer|
    decreases |buffer| - i
  {
    if i == |buffer| then (lex, More, None)
    else
      var r := LexChar(lex, buffer[i]);
      if r.token == More then LexFrom(r.lex, buffer, i + 1)
      else (r.lex, r.token, Some(if r.consumed then i + 1 else i))
  }

  // Lines are counted between tokens only: a line break that ends a number is not.
  lemma LinesAre(lex: Lex, c: char)
    ensures LexChar(lex, c).lex.line == lex.line + if lex.state == 0 && (c == '\n' || c == '\r') then 1 else 0
  {
  }

  // ----- the collected text follows the grammar -----

  function TextNext(q: nat, c: char): nat {
    if 1 <= q <= 6 then StringNext(q, c) else if 17 <= q <= 24 then NumberNext(q, c) else 0
  }

  // The lexer state after collecting s from state q; 0 once s is not a text.
  function TextRun(q: nat, s: string): nat
    decreases |s|
  {
    if s == "" then q else TextRun(TextNext(q, s[0]), s[1..])
  }

  function NumberStart(c: char): nat {
    if c == '-' then 17 else if c == '0' then 18 else if IsDigit(c) then 19 else 0
  }

  function NumberRun(s: string): nat {
    if s == "" then 0 else TextRun(NumberStart(s[0]), s[1..])
  }

  lemma {:induction false} TextRunAppend(q: nat, s: string, c: char)
    ensures TextRun(q, s + [c]) == TextNext(TextRun(q, s), c)
    decreases |s|
  {
    if s == "" {
      assert s + [c] == [c];
      assert TextRun(TextNext(q, c), [c][1..]) == TextNext(q, c);
    } else {
      assert (s + [c])[1..] == s[1..] + [c];
      TextRunAppend(TextNext(q, s[0]), s[1..], c);
    }
  }

  lemma {:induction false} DeadStaysDead(s: string)
    ensures TextRun(0, s) == 0
  {
    if s != "" {
      DeadStaysDead(s[1..]);
    }
  }

  // The string states accept exactly the grammar's string texts.
  lemma {:induction false} StringAcceptance(s: string)
    ensures TextRun(1, s) == 1 <==> ValidStringText(s)
    decreases |s|
  {
    if s == "" {
    } else if s[0] != '\\' {
      if StringNext(1, s[0]) == 0 { DeadStaysDead(s[1..]); } else { StringAcceptance(s[1..]); }
    } else if |s| >= 2 {
      assert TextRun(1, s) == TextRun(2, s[1..]);
      assert s[1..][1..] == s[2..];
      if s[1] == 'u' {
        HexAcceptance(3, s[2..]);
        if |s| >= 6 {
          assert s[2..][4..] == s[6..];
          StringAcceptance(s[6..]);
        }
      } else if IsSimpleEscape(s[1]) {
        StringAcceptance(s[2..]);
      } else {
        DeadStaysDead(s[2..]);
      }
    }
  }

  lemma {:induction false} HexAcceptance(q: nat, s: string)
    requires 3 <= q <= 6
    ensures TextRun(q, s) == 1 <==>
            && |s| >= 7 - q
            && (forall k | 0 <= k < 7 - q :: IsHex(s[k]))
            && TextRun(1, s[7 - q..]) == 1
    decreases 7 - q
  {
    if s != "" {
      if !IsHex(s[0]) {
        DeadStaysDead(s[1..]);
      } else if q < 6 {
        HexAcceptance(q + 1, s[1..]);
        if |s| >= 7 - q {
          assert s[1..][6 - q..] == s[7 - q..];
          assert forall k | 0 < k < 7 - q :: s[k] == s[1..][k - 1];
        }
      }
    }
  }

  predicate Completes(q: nat, s: string) {
    NumberMayEnd(TextRun(q, s))
  }

  lemma {:induction false} ExponentDigits(s: string)
    ensures Completes(24, s) <==> SkipDigits(s) == ""
  {
    if s != "" {
      if IsDigit(s[0]) { ExponentDigits(s[1..]); } else { DeadStaysDead(s[1..]); }
    }
  }

  lemma {:induction false} ExponentStart(s: string)
    ensures Completes(23, s) <==> Digits(s) == Some("")
    ensures Completes(22, s) <==> SignedDigits(s) == Some("")
  {
    if s != "" {
      ExponentDigits(s[1..]);
      DeadStaysDead(s[1..]);
      if s[0] == '+' || s[0] == '-' {
        var t := s[1..];
        assert TextRun(22, s) == TextRun(23, t);
        if t != "" {
          ExponentDigits(t[1..]);
          DeadStaysDead(t[1..]);
        }
      }
    }
  }

  // From an accepting state the rest is digits (if any may follow) and an exponent.
  lemma {:induction false} FractionDigits(s: string)
    ensures Completes(21, s) <==> ExpPart(SkipDigits(s)) == Some("")
  {
    if s != "" {
      if IsDigit(s[0]) {
        FractionDigits(s[1..]);
      } else if s[0] == 'e' || s[0] == 'E' {
        ExponentStart(s[1..]);
      } else {
        DeadStaysDead(s[1..]);
      }
    }
  }

  predicate FracThenExp(s: string) {
    match FracPart(s)
    case None => false
    case Some(rest) => ExpPart(rest) == Some("")
  }

  lemma {:induction false} AfterZero(s: string)
    ensures Completes(18, s) <==> FracThenExp(s)
  {
    if s != "" {
      if s[0] == '.' {
        assert TextRun(18, s) == TextRun(20, s[1..]);
        if |s| > 1 {
          FractionDigits(s[1..][1..]);
          DeadStaysDead(s[1..][1..]);
        }
      } else if s[0] == 'e' || s[0] == 'E' {
        ExponentStart(s[1..]);
      } else {
        DeadStaysDead(s[1..]);
      }
    }
  }

  lemma {:induction false} IntegerDigits(s: string)
    ensures Completes(19, s) <==> FracThenExp(SkipDigits(s))
  {
    if s != "" {
      if IsDigit(s[0]) {
        IntegerDigits(s[1..]);
      } else {
        AfterZero(s);
        assert TextRun(19, s) == TextRun(18, s) by { DeadStaysDead(s[1..]); }
      }
    }
  }

  lemma UnsignedAcceptance(s: string)
    requires s != "" && s[0] != '-'
    ensures NumberMayEnd(NumberRun(s)) <==> IntPart(s).Some? && FracThenExp(IntPart(s).value)
  {
    AfterZero(s[1..]);
    IntegerDigits(s[1..]);
    DeadStaysDead(s[1..]);
  }

  // The number states accept exactly the grammar's number texts.
  lemma NumberAcceptance(s: string)
    ensures NumberMayEnd(NumberRun(s)) <==> ValidNumberText(s)
  {
    if s != "" {
      if s[0] == '-' {
        var t := s[1..];
        if t != "" {
          assert TextRun(17, t) == TextRun(NumberNext(17, t[0]), t[1..]);
          assert t[0] != '-' ==> TextRun(17, t) == NumberRun(t);
          if t[0] == '-' { DeadStaysDead(t[1..]); } else { UnsignedAcceptance(t); }
        }
      } else {
        UnsignedAcceptance(s);
      }
    }
  }

  // What every lexer state says of the text collected so far.
  predicate LexOk(lex: Lex) {
    && lex.state <= 24
    && (1 <= lex.state <= 6 ==> lex.text.Some? && TextRun(1, lex.text.value) == lex.state)
    && (17 <= lex.state ==> lex.text.Some? && NumberRun(lex.text.value) == lex.state)
  }

  // Every character keeps LexOk, and the text of an emitted token is grammatical.
  lemma LexCharOk(lex: Lex, c: char)
    requires LexOk(lex)
    ensures var r := LexChar(lex, c);
            && LexOk(r.lex)
            && (r.token == StringToken ==> r.lex.text.Some? && ValidStringText(r.lex.text.value))
            && (r.token == NumberToken ==> r.lex.text.Some? && ValidNumberText(r.lex.text.value))
            && (r.token != More && r.token != InvalidCharacter ==> r.lex.state == 0)
            && (r.token == More ==> r.consumed)
            && (!r.consumed ==> r.token == InvalidCharacter || (r.token == NumberToken && IsCloser(c)))
  {
    if 1 <= lex.state <= 6 {
      TextRunAppend(1, lex.text.value, c);
      StringAcceptance(lex.text.value);
    } else if 17 <= lex.state {
      var t := lex.text.value;
      TextRunAppend(NumberStart(t[0]), t[1..], c);
      assert (t + [c])[1..] == t[1..] + [c];
      NumberAcceptance(t);
    }
  }
}

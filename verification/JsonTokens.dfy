/** The lexer between tokens: what the text of each token is, and what a text without one is. */
module JsonTokens {
  import opened Wrappers
  import opened JsonTree
  import opened JsonGrammar
  import opened JsonLexer
  import opened JsonMachine
  import opened JsonFeed
  import opened JsonText

  // The text s is the token, with the collected text where it has one.
  predicate Spells(s: string, token: Token, text: string) {
    match token
    case BeginObject => s == "{"
    case EndObject => s == "}"
    case BeginArray => s == "["
    case EndArray => s == "]"
    case NameSeparator => s == ":"
    case ValueSeparator => s == ","
    case StringToken => IsString(s, text)
    case NumberToken => ValidNumberText(s) && s == text
    case TrueToken => s == "true"
    case FalseToken => s == "false"
    case NullToken => s == "null"
    case _ => false
  }

  // What may stand behind a number.
  predicate EndsNumber(s: string) {
    s != "" && (IsCloser(s[0]) || IsWhitespace(s[0]))
  }

  // ----- texts that can be continued -----

  lemma {:induction false} TextRunSplit(q: nat, a: string, b: string)
    ensures TextRun(q, a + b) == TextRun(TextRun(q, a), b)
    decreases |a|
  {
    if a == "" {
      assert a + b == b;
    } else {
      assert (a + b)[0] == a[0] && (a + b)[1..] == a[1..] + b;
      TextRunSplit(TextNext(q, a[0]), a[1..], b);
    }
  }

  lemma {:induction false} TextRunRange(q: nat, s: string)
    ensures 1 <= q <= 6 ==> TextRun(q, s) <= 6
    ensures 17 <= q <= 24 ==> TextRun(q, s) == 0 || 17 <= TextRun(q, s) <= 24
    decreases |s|
  {
    if s != "" {
      if TextNext(q, s[0]) == 0 { DeadStaysDead(s[1..]); } else { TextRunRange(TextNext(q, s[0]), s[1..]); }
    }
  }

  // The shortest way to the end of the text.
  function Completion(q: nat): string {
    if q == 2 then "n" else if 3 <= q <= 6 then Zeros(7 - q)
    else if q == 17 || q == 20 || q == 22 || q == 23 then "0" else ""
  }

  function Zeros(n: nat): string {
    if n == 0 then "" else ['0'] + Zeros(n - 1)
  }

  lemma {:induction false} ZerosRun(q: nat)
    requires 3 <= q <= 7
    ensures TextRun(if q == 7 then 1 else q, Zeros(7 - q)) == 1
    decreases 7 - q
  {
    if q < 7 {
      ZerosRun(q + 1);
      assert Zeros(7 - q)[0] == '0' && Zeros(7 - q)[1..] == Zeros(7 - (q + 1));
    }
  }

  lemma CompletionRun(q: nat)
    ensures 1 <= q <= 6 ==> TextRun(q, Completion(q)) == 1
    ensures 17 <= q <= 24 ==> NumberMayEnd(TextRun(q, Completion(q)))
  {
    if 3 <= q <= 6 {
      ZerosRun(q);
    } else if Completion(q) != "" {
      assert Completion(q)[1..] == "";
    }
  }

  lemma StringPrefix(s: string)
    ensures TextRun(1, s) != 0 <==> exists more: string :: ValidStringText(s + more)
  {
    hide TextRun, ValidStringText, Completion;
    var q := TextRun(1, s);
    if q != 0 {
      TextRunRange(1, s);
      CompletionRun(q);
      TextRunSplit(1, s, Completion(q));
      StringAcceptance(s + Completion(q));
    }
    if more: string :| ValidStringText(s + more) {
      TextRunSplit(1, s, more);
      StringAcceptance(s + more);
      DeadStaysDead(more);
    }
  }

  lemma NumberRunSplit(s: string, more: string)
    requires s != ""
    ensures NumberRun(s + more) == TextRun(NumberRun(s), more)
  {
    assert (s + more)[0] == s[0] && (s + more)[1..] == s[1..] + more;
    TextRunSplit(NumberStart(s[0]), s[1..], more);
  }

  lemma NumberRange(s: string)
    ensures NumberRun(s) == 0 || 17 <= NumberRun(s) <= 24
  {
    if s != "" {
      if NumberStart(s[0]) == 0 { DeadStaysDead(s[1..]); } else { TextRunRange(NumberStart(s[0]), s[1..]); }
    }
  }

  lemma NumberPrefix(s: string)
    requires s != ""
    ensures NumberRun(s) != 0 <==> exists more: string :: ValidNumberText(s + more)
  {
    hide TextRun, ValidNumberText, NumberRun, Completion;
    var q := NumberRun(s);
    if q != 0 {
      NumberRange(s);
      CompletionRun(q);
      NumberRunSplit(s, Completion(q));
      NumberAcceptance(s + Completion(q));
    }
    if more: string :| ValidNumberText(s + more) {
      NumberRunSplit(s, more);
      NumberAcceptance(s + more);
      DeadStaysDead(more);
    }
  }

  // ----- inside a token -----

  // A string goes on exactly while its text does, and ends at its quote.
  lemma {:induction false} StringRun(lex: Lex, s: string, i: nat)
    requires LexOk(lex) && 1 <= lex.state <= 6 && i <= |s|
    ensures var (l, token, at) := LexFrom(lex, s, i);
            && (token == More <==> TextRun(lex.state, s[i..]) != 0)
            && (token == More ==> l.state != 0)
            && (token != More && token != InvalidCharacter ==>
                  && token == StringToken && at.Some? && i < at.value <= |s| && s[at.value - 1] == '\"'
                  && l.text == Some(lex.text.value + s[i..at.value - 1]))
    decreases |s| - i
  {
    hide TextRun, LexOk;
    StringRunOn(lex, s, i);
    if i < |s| {
      var r := LexChar(lex, s[i]);
      if r.token == More {
        StringRun(r.lex, s, i + 1);
        var (l, token, at) := LexFrom(r.lex, s, i + 1);
        if token == StringToken {
          assert lex.text.value + [s[i]] + s[i + 1..at.value - 1] == lex.text.value + s[i..at.value - 1];
        }
      } else if r.token == StringToken {
        assert lex.text.value + s[i..i] == lex.text.value;
      }
    }
  }

  lemma StringRunOn(lex: Lex, s: string, i: nat)
    requires LexOk(lex) && 1 <= lex.state <= 6 && i <= |s|
    ensures lex.text.Some?
    ensures i == |s| ==> TextRun(lex.state, s[i..]) != 0
    ensures i < |s| ==>
              var r := LexChar(lex, s[i]);
              && (r.token == More || r.token == InvalidCharacter || r.token == StringToken)
              && (r.token == More ==>
                    && LexOk(r.lex) && 1 <= r.lex.state <= 6 && r.lex.text == Some(lex.text.value + [s[i]])
                    && TextRun(lex.state, s[i..]) == TextRun(r.lex.state, s[i + 1..]))
              && (r.token != More ==> TextRun(lex.state, s[i..]) == 0)
              && (r.token == StringToken ==> s[i] == '\"' && r.consumed && r.lex.text == lex.text)
  {
    if i < |s| {
      LexCharOk(lex, s[i]);
      assert s[i..][0] == s[i] && s[i..][1..] == s[i + 1..];
      DeadStaysDead(s[i + 1..]);
    }
  }

  // A number goes on exactly while its text does, and ends before or at what is behind it.
  lemma {:induction false} DigitsRun(lex: Lex, s: string, i: nat) returns (e: nat)
    requires LexOk(lex) && 17 <= lex.state <= 24 && i <= |s|
    ensures var (l, token, at) := LexFrom(lex, s, i);
            && (token == More <==> TextRun(lex.state, s[i..]) != 0)
            && (token == More ==> l.state != 0)
            && (token != More && token != InvalidCharacter ==>
                  && token == NumberToken && i <= e < |s| && EndsNumber(s[e..])
                  && l.text == Some(lex.text.value + s[i..e]))
    decreases |s| - i
  {
    hide TextRun, LexOk, EndsNumber;
    DigitsRunOn(lex, s, i);
    e := i;
    if i < |s| {
      var r := LexChar(lex, s[i]);
      if r.token == More {
        e := DigitsRun(r.lex, s, i + 1);
        var (l, token, at) := LexFrom(r.lex, s, i + 1);
        if token == NumberToken { assert lex.text.value + [s[i]] + s[i + 1..e] == lex.text.value + s[i..e]; }
      } else if r.token == NumberToken {
        assert lex.text.value + s[i..i] == lex.text.value;
      }
    }
  }

  lemma DigitsRunOn(lex: Lex, s: string, i: nat)
    requires LexOk(lex) && 17 <= lex.state <= 24 && i <= |s|
    ensures lex.text.Some?
    ensures i == |s| ==> TextRun(lex.state, s[i..]) != 0
    ensures i < |s| ==>
              var r := LexChar(lex, s[i]);
              && (r.token == More || r.token == InvalidCharacter || r.token == NumberToken)
              && (r.token == More ==>
                    && LexOk(r.lex) && 17 <= r.lex.state <= 24 && r.lex.text == Some(lex.text.value + [s[i]])
                    && TextRun(lex.state, s[i..]) == TextRun(r.lex.state, s[i + 1..]))
              && (r.token != More ==> TextRun(lex.state, s[i..]) == 0)
              && (r.token == NumberToken ==> EndsNumber(s[i..]) && r.lex.text == lex.text)
  {
    if i < |s| {
      LexCharOk(lex, s[i]);
      assert s[i..][0] == s[i] && s[i..][1..] == s[i + 1..];
      DeadStaysDead(s[i + 1..]);
    }
  }

  // A literal name is spelled out, or the text ends inside it.
  lemma {:induction false} WordRun(lex: Lex, s: string, i: nat)
    requires 7 <= lex.state <= 16 && i <= |s|
    ensures var (l, token, at) := LexFrom(lex, s, i);
            && (token == More <==> exists more: string :: more != "" && WordRest(lex.state) == s[i..] + more)
            && (token == More ==> l.state != 0)
            && (token != More && token != InvalidCharacter ==>
                  && token == WordToken(lex.state) && at.Some? && i < at.value <= |s|
                     && s[i..at.value] == WordRest(lex.state)
                  && l.text == lex.text)
    decreases |s| - i
  {
    var q := lex.state;
    if i == |s| {
      assert WordRest(q) == s[i..] + WordRest(q);
    } else {
      var c := s[i];
      assert s[i..] == [c] + s[i + 1..];
      if c == ExpectedLetter(q) && q != 9 && q != 13 && q != 16 {
        WordRun(lex.(state := q + 1), s, i + 1);
        var (l, token, at) := LexFrom(lex.(state := q + 1), s, i + 1);
        ContinueWord(q, s[i + 1..]);
        if token != More && token != InvalidCharacter { assert s[i..at.value] == [c] + s[i + 1..at.value]; }
      } else {
        StopWord(q, s[i..]);
      }
    }
  }

  lemma ContinueWord(q: nat, s: string)
    requires 7 <= q <= 16 && q != 9 && q != 13 && q != 16
    ensures (exists more: string :: more != "" && WordRest(q + 1) == s + more)
            <==> exists more: string :: more != "" && WordRest(q) == [ExpectedLetter(q)] + s + more
  {
    var c := ExpectedLetter(q);
    assert WordRest(q) == [c] + WordRest(q + 1);
    if more: string :| more != "" && WordRest(q + 1) == s + more {
      assert WordRest(q) == [c] + s + more;
    }
    if more: string :| more != "" && WordRest(q) == [c] + s + more {
      assert WordRest(q)[1..] == s + more;
    }
  }

  lemma StopWord(q: nat, s: string)
    requires 7 <= q <= 16 && s != "" && (s[0] != ExpectedLetter(q) || q == 9 || q == 13 || q == 16)
    ensures !exists more: string :: more != "" && WordRest(q) == s + more
  {
    forall more: string | more != ""
      ensures WordRest(q) != s + more
    {
      assert (s + more)[0] == s[0] && |s + more| >= 2;
    }
  }

  // ----- the beginning of a token -----

  lemma NoNumber(s: string)
    requires s != "" && NumberStart(s[0]) == 0
    ensures !exists more: string :: ValidNumberText(s + more)
  {
    hide ValidNumberText;
    DeadStaysDead(s[1..]);
    NumberPrefix(s);
  }

  lemma NoWord(s: string)
    requires s != "" && s[0] != 't' && s[0] != 'f' && s[0] != 'n'
    ensures !exists more: string :: more != "" && IsWord(s + more)
  {
    forall more: string
      ensures !IsWord(s + more)
    {
      assert (s + more)[0] == s[0];
    }
  }

  lemma UnfinishedString(s: string)
    requires s != "" && s[0] == '\"'
    ensures Unfinished(s) <==> TextRun(1, s[1..]) != 0
  {
    hide TextRun, ValidStringText, ValidNumberText, IsWord;
    NoWord(s);
    NoNumber(s);
    StringPrefix(s[1..]);
  }

  lemma UnfinishedNumber(s: string)
    requires s != "" && s[0] != '\"' && s[0] != 't' && s[0] != 'f' && s[0] != 'n'
    ensures Unfinished(s) <==> NumberRun(s) != 0
  {
    hide TextRun, ValidStringText, ValidNumberText, IsWord, NumberRun;
    NoWord(s);
    NumberPrefix(s);
  }

  lemma UnfinishedWord(s: string, token: Token)
    requires token == TrueToken || token == FalseToken || token == NullToken
    requires s != "" && s[0] == Word(token)[0]
    ensures Unfinished(s) <==> exists more: string :: more != "" && WordRest(WordStart(token)) == s[1..] + more
  {
    hide TextRun, ValidStringText, ValidNumberText, WordRest, IsWord;
    var rest := WordRest(WordStart(token));
    WordSpelled(token);
    NoNumber(s);
    forall more: string
      ensures IsWord(s + more) <==> rest == s[1..] + more
    {
      WordIs(s + more, token);
      assert (s + more)[0] == s[0] && (s + more)[1..] == s[1..] + more;
      assert Word(token)[1..] == rest;
    }
  }

  lemma WordIs(s: string, token: Token)
    requires token == TrueToken || token == FalseToken || token == NullToken
    requires s != "" && s[0] == Word(token)[0]
    ensures IsWord(s) <==> s[1..] == Word(token)[1..]
  {
    assert s == [s[0]] + s[1..] && Word(token) == [Word(token)[0]] + Word(token)[1..];
  }

  // What one call of the lexer between tokens finds: white space up to a, then the
  // token between a and b, or the end of the text, or a token the text ends in.
  ghost predicate Found(lex: Lex, s: string, i: nat, a: nat, b: nat)
    requires LexOk(lex) && i <= |s|
  {
    var (l, token, at) := LexFrom(lex, s, i);
    && i <= a <= b <= |s| && Blank(s[i..a]) && (a < |s| ==> !IsWhitespace(s[a]))
    && (token == More <==> a == |s| || Unfinished(s[a..]))
    && (token == More ==> (l.state == 0 <==> a == |s|))
    && (token != More && token != InvalidCharacter ==> a < b && Spells(s[a..b], token, TextOf(l)))
    && (token == NumberToken ==> EndsNumber(s[b..]))
  }

  lemma {:induction false} FirstToken(lex: Lex, s: string, i: nat) returns (a: nat, b: nat)
    requires LexOk(lex) && lex.state == 0 && i <= |s|
    ensures Found(lex, s, i, a, b)
    decreases |s| - i
  {
    hide Found, LexOk;
    if i == |s| {
      a, b := i, i;
      FoundNothing(lex, s);
    } else if IsWhitespace(s[i]) {
      LexCharOk(lex, s[i]);
      a, b := FirstToken(LexChar(lex, s[i]).lex, s, i + 1);
      FoundLater(lex, s, i, a, b);
    } else {
      a := i;
      b := TokenHere(lex, s, i);
    }
  }

  lemma FoundNothing(lex: Lex, s: string)
    requires LexOk(lex) && lex.state == 0
    ensures Found(lex, s, |s|, |s|, |s|)
  {
    hide LexOk;
  }

  lemma FoundLater(lex: Lex, s: string, i: nat, a: nat, b: nat)
    requires LexOk(lex) && lex.state == 0 && i < |s| && IsWhitespace(s[i]) && LexOk(LexChar(lex, s[i]).lex)
    requires Found(LexChar(lex, s[i]).lex, s, i + 1, a, b)
    ensures Found(lex, s, i, a, b)
  {
    hide LexOk, Unfinished, Spells, EndsNumber;
    assert s[i..a] == [s[i]] + s[i + 1..a];
  }

  lemma TokenHere(lex: Lex, s: string, i: nat) returns (b: nat)
    requires LexOk(lex) && lex.state == 0 && i < |s| && !IsWhitespace(s[i])
    ensures Found(lex, s, i, i, b)
  {
    hide Found, LexOk, LexRoot, LexFrom;
    var c := s[i];
    if c == '\"' {
      b := StringHere(lex, s, i);
    } else if c == 't' {
      b := WordHere(lex, s, i, TrueToken);
    } else if c == 'f' {
      b := WordHere(lex, s, i, FalseToken);
    } else if c == 'n' {
      b := WordHere(lex, s, i, NullToken);
    } else if NumberStart(c) != 0 {
      b := NumberHere(lex, s, i);
    } else {
      b := i + 1;
      PunctHere(lex, s, i);
    }
  }

  lemma PunctHere(lex: Lex, s: string, i: nat)
    requires LexOk(lex) && lex.state == 0 && i < |s| && !IsWhitespace(s[i])
    requires s[i] != '\"' && s[i] != 't' && s[i] != 'f' && s[i] != 'n' && NumberStart(s[i]) == 0
    ensures Found(lex, s, i, i, i + 1)
  {
    hide LexOk, Unfinished, TextRun;
    DeadStaysDead(s[i..][1..]);
    UnfinishedNumber(s[i..]);
  }

  lemma StringHere(lex: Lex, s: string, i: nat) returns (b: nat)
    requires LexOk(lex) && lex.state == 0 && i < |s| && s[i] == '\"'
    ensures Found(lex, s, i, i, b)
  {
    hide LexOk, Unfinished, TextRun, ValidStringText, ValidNumberText;
    LexCharOk(lex, s[i]);
    var r := LexChar(lex, s[i]).lex;
    StringRun(r, s, i + 1);
    LexFromOk(r, s, i + 1);
    assert s[i..][1..] == s[i + 1..];
    UnfinishedString(s[i..]);
    var (l, token, at) := LexFrom(r, s, i + 1);
    b := if token == StringToken then at.value else i + 1;
    if token == StringToken {
      assert s[i..b] == "\"" + s[i + 1..b - 1] + "\"";
      assert "" + s[i + 1..b - 1] == s[i + 1..b - 1];
    }
  }

  lemma WordHere(lex: Lex, s: string, i: nat, token: Token) returns (b: nat)
    requires token == TrueToken || token == FalseToken || token == NullToken
    requires LexOk(lex) && lex.state == 0 && i < |s| && s[i] == Word(token)[0]
    ensures Found(lex, s, i, i, b)
  {
    hide LexOk, Unfinished, WordRest, LexChar;
    WordOpens(lex, token);
    WordSpelled(token);
    var r := lex.(state := WordStart(token));
    WordRun(r, s, i + 1);
    assert s[i..][1..] == s[i + 1..];
    UnfinishedWord(s[i..], token);
    var (l, found, at) := LexFrom(r, s, i + 1);
    b := if found == token then at.value else i + 1;
    if found == token { assert s[i..b] == [s[i]] + s[i + 1..b]; }
  }

  lemma NumberHere(lex: Lex, s: string, i: nat) returns (b: nat)
    requires LexOk(lex) && lex.state == 0 && i < |s| && NumberStart(s[i]) != 0
    ensures Found(lex, s, i, i, b)
  {
    hide LexOk, Unfinished, TextRun, ValidStringText, ValidNumberText, EndsNumber;
    LexCharOk(lex, s[i]);
    var r := LexChar(lex, s[i]).lex;
    var e := DigitsRun(r, s, i + 1);
    LexFromOk(r, s, i + 1);
    assert s[i..][1..] == s[i + 1..];
    UnfinishedNumber(s[i..]);
    var (l, token, at) := LexFrom(r, s, i + 1);
    b := if token == NumberToken then e else i + 1;
    if token == NumberToken { assert s[i..b] == [s[i]] + s[i + 1..e]; }
  }
}

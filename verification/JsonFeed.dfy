/** Whole fragments and sequences of fragments: where the text is cut does not matter. */
module JsonFeed {
  import opened Wrappers
  import opened JsonTree
  import opened JsonGrammar
  import opened JsonLexer
  import opened JsonMachine

  // One character. A closer that ended a number is read a second time, as itself.
  function Step(m: Machine, c: char): (r: (Machine, Verdict))
    ensures r.1.Stop? ==> ErrorCode(r.1.code)
    ensures r.0.state == 0 ==> m.state == 0
  {
    hide OnToken, LexChar;
    OpenOk(m);
    var o := Open(m);
    LexCharOk(o.lex, c);
    var x := LexChar(o.lex, c);
    var n := o.(lex := x.lex);
    if x.token == More then (n, Go)
    else
      OnTokenOk(n, x.token);
      var (n1, v) := OnToken(n, x.token);
      if v.Stop? || x.consumed then (n1, v)
      else Reread(n1, c)
  }

  function Reread(m: Machine, c: char): (r: (Machine, Verdict))
    requires m.state != 1 && m.state != 7 && m.lex.state == 0 && IsCloser(c)
    ensures r.1.Stop? ==> ErrorCode(r.1.code)
    ensures r.0.state == 0 ==> m.state == 0
  {
    LexCharOk(m.lex, c);
    var x := LexChar(m.lex, c);
    OnTokenOk(m.(lex := x.lex), x.token);
    OnToken(m.(lex := x.lex), x.token)
  }

  // One step in terms of what the lexer makes of the character.
  lemma StepByToken(m: Machine, c: char)
    requires m.state != 1 && m.state != 7
    ensures var x := LexChar(m.lex, c);
            && Grounded(m.state, m.stack)
            && (x.token == More ==> Step(m, c) == (m.(lex := x.lex), Go))
            && (x.token != More ==>
                  && var r := OnToken(m.(lex := x.lex), x.token);
                  && ConfigOk(r.0)
                  && (r.1.Stop? || x.consumed ==> Step(m, c) == r)
                  && (r.1.Go? && !x.consumed ==> Step(m, c) == Step(r.0, c)))
  {
    hide OnToken, Reread, LexChar;
    LexCharOk(m.lex, c);
    var x := LexChar(m.lex, c);
    if x.token != More {
      var n := m.(lex := x.lex);
      OnTokenOk(n, x.token);
      var r := OnToken(n, x.token);
      if r.1.Go? && !x.consumed {
        NoTokenStops(n, x.token);
        NumberMovesOn(n);
        RereadIsStep(r.0, c);
      }
    }
  }

  lemma NoTokenStops(m: Machine, token: Token)
    requires m.state != 1 && m.state != 7
    ensures Grounded(m.state, m.stack)
    ensures token == More || token == InvalidCharacter ==> OnToken(m, token) == (m, Stop(CodeFor(m.state, token)))
  {
  }

  lemma StepMore(m: Machine, c: char)
    requires m.state != 1 && m.state != 7 && LexChar(m.lex, c).token == More
    ensures Step(m, c) == (m.(lex := LexChar(m.lex, c).lex), Go)
  {
    hide LexChar, Step, OnToken;
    StepByToken(m, c);
  }

  lemma StepToken(m: Machine, c: char)
    requires m.state != 1 && m.state != 7
    requires LexChar(m.lex, c).token != More && LexChar(m.lex, c).consumed
    ensures Grounded(m.state, m.stack)
    ensures Step(m, c) == OnToken(m.(lex := LexChar(m.lex, c).lex), LexChar(m.lex, c).token)
  {
    hide LexChar, Step, OnToken;
    StepByToken(m, c);
  }

  lemma NumberMovesOn(m: Config)
    requires Grounded(m.state, m.stack) && m.state != 1 && m.state != 7 && m.lex.state == 0
    requires OnToken(m, NumberToken).1.Go?
    ensures var n := OnToken(m, NumberToken).0; (n.state == 3 || n.state == 9) && n.lex.state == 0
  {
  }

  lemma RereadIsStep(m: Machine, c: char)
    requires m.state != 1 && m.state != 7 && m.lex.state == 0 && IsCloser(c)
    ensures Reread(m, c) == Step(m, c)
  {
    hide OnToken;
  }

  function Feed(m: Machine, s: string): (r: (Machine, Verdict))
    ensures r.1.Stop? ==> ErrorCode(r.1.code)
    ensures r.0.state == 0 ==> m.state == 0
    decreases |s|
  {
    if s == "" then (m, Go)
    else
      var (m1, v) := Step(m, s[0]);
      if v.Stop? then (m1, v) else Feed(m1, s[1..])
  }

  function AtEnd(state: nat): Code {
    if state == 99 then WaitingForEof else IncompleteDocument
  }

  // json_parse_fragment. Running dry in state 0 is reported as malformed, unlike
  // in every other state.
  function Fragment(m: Machine, s: string): (r: (Machine, Code))
    ensures Resumable(r.1) || ErrorCode(r.1)
  {
    var (m1, v) := Feed(m, s);
    if v.Stop? then (m1, v.code)
    else if s != "" && m1.state == 0 then (m1, MalformedDocument)
    else (m1, AtEnd(m1.state))
  }

  // Fragments in turn, until one of them is refused.
  function Session(m: Machine, fragments: seq<string>): (r: (Machine, Code))
    ensures Resumable(r.1) || ErrorCode(r.1)
    decreases |fragments|
  {
    if fragments == [] then (m, AtEnd(m.state))
    else
      var (m1, code) := Fragment(m, fragments[0]);
      if Resumable(code) then Session(m1, fragments[1..]) else (m1, code)
  }

  function Concat(fragments: seq<string>): string {
    if fragments == [] then "" else fragments[0] + Concat(fragments[1..])
  }

  // json_parse_document
  function ParseDocument(text: string): (r: (Option<Tree>, Code))
    ensures r.0.Some? ==> ValidDocument(r.0.value)
    ensures r.1 == Ok <==> r.0.Some?
  {
    var (m, code) := Fragment(INITIAL, text);
    if code == WaitingForEof then
      assert FrameOk(m.stack[0]);
      (Some(Closed(m.stack[0])), Ok)
    else (None, code)
  }

  // ----- whole tokens -----

  // A call of the lexer: what it may return, and that it makes progress.
  lemma {:induction false} LexFromOk(lex: Lex, buffer: string, i: nat)
    requires LexOk(lex) && i <= |buffer|
    ensures var (l, token, at) := LexFrom(lex, buffer, i);
            && LexOk(l)
            && (token == StringToken ==> l.text.Some? && ValidStringText(l.text.value))
            && (token == NumberToken ==> l.text.Some? && ValidNumberText(l.text.value))
            && (token == More <==> at == None)
            && (token != More && token != InvalidCharacter ==>
                  && l.state == 0 && i <= at.value <= |buffer|
                  && (at.value == i ==> lex.state != 0))
    decreases |buffer| - i
  {
    if i < |buffer| {
      LexCharOk(lex, buffer[i]);
      var r := LexChar(lex, buffer[i]);
      if r.token == More { LexFromOk(r.lex, buffer, i + 1); }
    }
  }

  lemma TokenOk(m: Machine, buffer: string, i: nat)
    requires m.state != 1 && m.state != 7 && i <= |buffer|
    ensures var (l, token, at) := LexFrom(m.lex, buffer, i);
            && Grounded(m.state, m.stack)
            && ConfigOk(m.(lex := l))
            && ConfigOk(OnToken(m.(lex := l), token).0)
  {
    hide OnToken, Grounded;
    LexFromOk(m.lex, buffer, i);
    var (l, token, at) := LexFrom(m.lex, buffer, i);
    if token != More { OnTokenOk(m.(lex := l), token); } else { NoTokenStops(m.(lex := l), token); }
  }

  // Feeding the text is the same as taking tokens off it one by one.
  lemma {:induction false} TokenByToken(m: Machine, buffer: string, i: nat)
    requires m.state != 1 && m.state != 7 && i <= |buffer|
    ensures var (l, token, at) := LexFrom(m.lex, buffer, i);
            && Grounded(m.state, m.stack)
            && ConfigOk(m.(lex := l))
            && ConfigOk(OnToken(m.(lex := l), token).0)
            && (token == More ==> Feed(m, buffer[i..]) == (m.(lex := l), Go))
            && (token != More ==>
                  && at.Some? && at.value <= |buffer|
                  && var r := OnToken(m.(lex := l), token);
                  Feed(m, buffer[i..]) == if r.1.Stop? then r else Feed(r.0, buffer[at.value..]))
    decreases |buffer| - i
  {
    hide OnToken, Step;
    TokenOk(m, buffer, i);
    if i < |buffer| {
      var c := buffer[i];
      assert buffer[i..][0] == c && buffer[i..][1..] == buffer[i + 1..];
      StepByToken(m, c);
      LexCharOk(m.lex, c);
      var r := LexChar(m.lex, c);
      if r.token == More {
        TokenByToken(Step(m, c).0, buffer, i + 1);
      } else if !r.consumed {
        assert Feed(Step(m, c).0, []) == (Step(m, c).0, Go);
      }
    }
  }

  // Opening a container reads nothing.
  lemma OpenFeed(m: Machine, s: string)
    requires s != ""
    ensures ConfigOk(Open(m)) && Feed(m, s) == Feed(Open(m), s)
  {
    hide OnToken, LexChar;
    OpenOk(m);
    assert Open(Open(m)) == Open(m);
    assert Step(m, s[0]) == Step(Open(m), s[0]);
  }

  lemma FeedNothing(m: Machine)
    ensures Feed(m, "") == (m, Go)
  {
  }

  // An accepted token leaves the start state for good and the lexer between tokens.
  lemma TokenMovesOn(m: Machine, token: Token)
    requires m.state != 1 && m.state != 7
    ensures Grounded(m.state, m.stack)
    ensures OnToken(m, token).1.Go? ==> OnToken(m, token).0.state != 0 && OnToken(m, token).0.lex.state == m.lex.state
    ensures token == InvalidCharacter ==> OnToken(m, token).1.Stop?
  {
  }

  // ----- cutting the text -----

  lemma {:induction false} FeedSplit(m: Machine, a: string, b: string)
    ensures Feed(m, a + b) == if Feed(m, a).1.Stop? then Feed(m, a) else Feed(Feed(m, a).0, b)
    decreases |a|
  {
    if a == "" {
      assert a + b == b;
    } else {
      assert (a + b)[0] == a[0] && (a + b)[1..] == a[1..] + b;
      if Step(m, a[0]).1.Go? { FeedSplit(Step(m, a[0]).0, a[1..], b); }
    }
  }

  // Past state 0, any cut gives the same machine and the same code.
  lemma {:induction false} SessionPastStart(m: Machine, fragments: seq<string>)
    requires m.state != 0
    ensures Session(m, fragments) == Fragment(m, Concat(fragments))
    decreases |fragments|
  {
    if fragments != [] {
      var (f, rest) := (fragments[0], fragments[1..]);
      var (m1, v) := Feed(m, f);
      FeedSplit(m, f, Concat(rest));
      if v.Go? {
        SessionPastStart(m1, rest);
      }
    }
  }

  lemma {:induction false} BlankStaysAtStart(m: Machine, s: string)
    requires m.state == 0 && m.lex.state == 0 && Blank(s)
    ensures Feed(m, s).1.Go? && Feed(m, s).0.state == 0 && Feed(m, s).0.lex.state == 0
    decreases |s|
  {
    if s != "" {
      BlankStaysAtStart(Step(m, s[0]).0, s[1..]);
    }
  }

  // What is left to compare when a document is refused before its first brace.
  predicate SameOutcome(x: (Machine, Code), y: (Machine, Code)) {
    && x.1 == y.1
    && x.0.state == y.0.state
    && x.0.stack == y.0.stack
    && (x.0.state != 0 ==> x == y)
  }

  function FirstText(fragments: seq<string>): string {
    if fragments == [] then "" else if fragments[0] != "" then fragments[0] else FirstText(fragments[1..])
  }

  // A document that does not open with a brace is never taken past state 0.
  lemma {:induction false} NoBraceAhead(m: Machine, s: string)
    requires m.state == 0 && m.lex.state != 0
    ensures var r := Feed(m, s);
            && r.0.state == 0 && r.0.stack == []
            && (if r.1.Go? then r.0.lex.state != 0 else r.1.code == MalformedDocument)
    decreases |s|
  {
    if s != "" {
      var r := Step(m, s[0]);
      if r.1.Go? { NoBraceAhead(r.0, s[1..]); }
    }
  }

  lemma {:induction false} TextLeavesStart(m: Machine, s: string)
    requires m.state == 0 && m.lex.state == 0 && !Blank(s)
    ensures var r := Feed(m, s);
            r.0.state == 0 ==>
              && r.0.stack == []
              && (if r.1.Go? then r.0.lex.state != 0 else r.1.code == MalformedDocument)
    decreases |s|
  {
    var r := Step(m, s[0]);
    if r.1.Go? && r.0.state == 0 {
      if r.0.lex.state == 0 {
        assert IsWhitespace(s[0]);
        TextLeavesStart(r.0, s[1..]);
      } else {
        NoBraceAhead(r.0, s[1..]);
      }
    }
  }

  // Wherever a document is cut, feeding the pieces in turn gives the tree, the
  // parser state and the code of feeding it whole, and the same lexer state
  // unless it was refused before its first brace. The first piece with any text
  // must hold something besides white space.
  lemma {:induction false} FragmentIndependence(fragments: seq<string>)
    requires !Blank(FirstText(fragments))
    ensures SameOutcome(Session(INITIAL, fragments), Fragment(INITIAL, Concat(fragments)))
    decreases |fragments|
  {
    var (f, rest) := (fragments[0], fragments[1..]);
    if f == "" {
      assert Fragment(INITIAL, f) == (INITIAL, IncompleteDocument);
      assert Concat(fragments) == Concat(rest);
      FragmentIndependence(rest);
    } else {
      var (m1, v) := Feed(INITIAL, f);
      FeedSplit(INITIAL, f, Concat(rest));
      TextLeavesStart(INITIAL, f);
      if v.Go? {
        if m1.state == 0 {
          NoBraceAhead(m1, Concat(rest));
        } else {
          SessionPastStart(m1, rest);
        }
      }
    }
  }

  lemma {:induction false} BlankFirstFragment(fragments: seq<string>)
    requires FirstText(fragments) != "" && Blank(FirstText(fragments))
    ensures Session(INITIAL, fragments).1 == MalformedDocument
    decreases |fragments|
  {
    if fragments[0] == "" {
      assert Fragment(INITIAL, "") == (INITIAL, IncompleteDocument);
      BlankFirstFragment(fragments[1..]);
    } else {
      BlankStaysAtStart(INITIAL, fragments[0]);
    }
  }

  lemma {:induction false} NoTextNoDifference(fragments: seq<string>)
    requires FirstText(fragments) == ""
    ensures Concat(fragments) == "" && Session(INITIAL, fragments) == (INITIAL, IncompleteDocument)
    decreases |fragments|
  {
    if fragments != [] {
      assert Fragment(INITIAL, "") == (INITIAL, IncompleteDocument);
      NoTextNoDifference(fragments[1..]);
    }
  }

  // The first character that is not white space is a brace.
  predicate BraceFirst(s: string) {
    s != "" && if IsWhitespace(s[0]) then BraceFirst(s[1..]) else s[0] == '{'
  }

  lemma {:induction false} BraceLeavesStart(m: Machine, s: string)
    requires m.state == 0 && m.lex.state == 0
    ensures Feed(m, s).0.state != 0 <==> BraceFirst(s)
    ensures !BraceFirst(s) && s != "" ==> Fragment(m, s).1 == MalformedDocument && Fragment(m, s).0.stack == []
    decreases |s|
  {
    if s != "" {
      var r := Step(m, s[0]);
      if IsWhitespace(s[0]) {
        BraceLeavesStart(r.0, s[1..]);
        BlankStaysAtStart(m, [s[0]]);
      } else if r.1.Go? && r.0.state == 0 {
        NoBraceAhead(r.0, s[1..]);
      }
    }
  }

  lemma {:induction false} BlankFirstOutcome(fragments: seq<string>)
    requires FirstText(fragments) != "" && Blank(FirstText(fragments))
    ensures var x := Session(INITIAL, fragments).0; x.state == 0 && x.stack == []
    ensures Concat(fragments) != ""
    decreases |fragments|
  {
    if fragments[0] == "" {
      assert Fragment(INITIAL, "") == (INITIAL, IncompleteDocument);
      BlankFirstOutcome(fragments[1..]);
    } else {
      BlankStaysAtStart(INITIAL, fragments[0]);
    }
  }

  // Cutting a text is harmless exactly when its first non-empty piece is not all white
  // space, or the text is refused anyway because no brace comes first. Where the text is
  // not refused, the whole machine is then the same, the lexer in it included.
  lemma CuttingIsHarmlessIff(fragments: seq<string>)
    ensures var (x, y) := (Session(INITIAL, fragments), Fragment(INITIAL, Concat(fragments)));
            var late := FirstText(fragments) != "" && Blank(FirstText(fragments));
            && (SameOutcome(x, y) <==> !late || !BraceFirst(Concat(fragments)))
            && (Resumable(y.1) ==> (x == y <==> !late))
  {
    hide Step, Session, Blank, FirstText, Concat, Feed, BraceFirst;
    BraceLeavesStart(INITIAL, Concat(fragments));
    if FirstText(fragments) == "" {
      NoTextNoDifference(fragments);
      FeedNothing(INITIAL);
    } else if Blank(FirstText(fragments)) {
      BlankFirstFragment(fragments);
      BlankFirstOutcome(fragments);
    } else {
      FragmentIndependence(fragments);
      ConcatHasFirstText(fragments);
    }
  }

  // A text refused before any brace may leave the lexer at different places.
  lemma LexerLeftBehind()
    ensures Session(INITIAL, ["t", "r"]).1 == Fragment(INITIAL, Concat(["t", "r"])).1 == MalformedDocument
    ensures Session(INITIAL, ["t", "r"]).0.lex.state == 7 && Fragment(INITIAL, Concat(["t", "r"])).0.lex.state == 8
  {
    hide Step, Session;
    var a: Machine := INITIAL.(lex := INITIAL.lex.(state := 7));
    var b: Machine := INITIAL.(lex := INITIAL.lex.(state := 8));
    StepMore(INITIAL, 't');
    StepMore(a, 'r');
    assert "t"[1..] == "" && "r"[1..] == "" && "tr"[1..] == "r";
    assert Feed(INITIAL, "t") == (a, Go) && Feed(a, "r") == (b, Go) && Feed(INITIAL, "tr") == (b, Go);
    assert ["t", "r"][1..] == ["r"] && ["r"][1..] == [] && Concat(["t", "r"]) == "tr";
    RefusedFirst(["t", "r"]);
  }

  lemma RefusedFirst(fragments: seq<string>)
    requires fragments != [] && !Resumable(Fragment(INITIAL, fragments[0]).1)
    ensures Session(INITIAL, fragments) == Fragment(INITIAL, fragments[0])
  {
  }

  lemma {:induction false} ConcatHasFirstText(fragments: seq<string>)
    ensures |FirstText(fragments)| <= |Concat(fragments)|
  {
    if fragments != [] { ConcatHasFirstText(fragments[1..]); }
  }

  // The known exception: a leading blank line sent on its own.
  lemma LeadingBlankLineSample()
    ensures Session(INITIAL, ["\n", "{"]).1 == MalformedDocument
    ensures Fragment(INITIAL, Concat(["\n", "{"])).1 == IncompleteDocument
  {
    BlankFirstFragment(["\n", "{"]);
    assert ["\n", "{"][1..] == ["{"] && ["{"][1..] == [];
    assert Concat(["\n", "{"]) == "\n{" && "\n{"[1..] == "{" && "{"[1..] == "";
  }
}

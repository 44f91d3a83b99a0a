/** Exactly which texts json_parse_document accepts, and as what. */
module JsonAccept {
  import opened Wrappers
  import opened JsonTree
  import opened JsonGrammar
  import opened JsonLexer
  import opened JsonMachine
  import opened JsonFeed
  import opened JsonText
  import opened JsonRoundTrip
  import opened JsonTokens

  // How a run ends, up to the line number.
  datatype End = End(state: nat, stack: seq<Frame>, between: bool, verdict: Verdict)

  function Ending(m: Machine, s: string): End {
    var (n, v) := Feed(m, s);
    End(n.state, n.stack, n.lex.state == 0, v)
  }

  predicate Finished(e: End) {
    e.verdict.Go? && e.state == 99
  }

  // ----- the line number does not matter -----

  predicate SameButLine(m: Config, n: Config) {
    n == m.(lex := m.lex.(line := n.lex.line))
  }

  predicate SameLex(x: LexResult, y: LexResult) {
    y == x.(lex := x.lex.(line := y.lex.line))
  }

  lemma RootLine(lex: Lex, k: nat, c: char)
    ensures SameLex(LexRoot(lex, c), LexRoot(lex.(line := k), c))
  {
  }

  lemma TextLine(lex: Lex, k: nat, c: char)
    ensures SameLex(LexString(lex, c), LexString(lex.(line := k), c))
    ensures SameLex(LexNumber(lex, c), LexNumber(lex.(line := k), c))
    ensures 7 <= lex.state <= 16 ==> SameLex(LexLiteral(lex, c), LexLiteral(lex.(line := k), c))
  {
    hide StringNext, NumberNext, ExpectedLetter;
  }

  lemma LexLine(lex: Lex, k: nat, c: char)
    ensures SameLex(LexChar(lex, c), LexChar(lex.(line := k), c))
  {
    hide LexRoot, LexString, LexNumber, LexLiteral;
    RootLine(lex, k, c);
    TextLine(lex, k, c);
  }

  predicate SameResult(x: (Config, Verdict), y: (Config, Verdict)) {
    x.1 == y.1 && SameButLine(x.0, y.0)
  }

  lemma CloseLine(m: Config, n: Config)
    requires SameButLine(m, n) && m.stack != []
    ensures SameResult(CloseContainer(m), CloseContainer(n))
  {
    hide CloseTop;
  }

  lemma TokenLine(m: Config, n: Config, token: Token)
    requires SameButLine(m, n) && Grounded(m.state, m.stack)
    ensures SameResult(OnToken(m, token), OnToken(n, token))
  {
    hide CloseContainer, CloseTop, AddKid, Nested;
    if m.stack != [] { CloseLine(m, n); }
  }

  lemma StepLine(m: Machine, n: Machine, c: char)
    requires SameButLine(m, n)
    ensures SameResult(Step(m, c), Step(n, c))
  {
    hide LexChar, OnToken, Reread;
    OpenOk(m);
    var (o, p) := (Open(m), Open(n));
    LexLine(o.lex, p.lex.line, c);
    LexCharOk(o.lex, c);
    var (x, y) := (LexChar(o.lex, c), LexChar(p.lex, c));
    if x.token != More {
      var (m1, n1) := (o.(lex := x.lex), p.(lex := y.lex));
      OnTokenOk(m1, x.token);
      TokenLine(m1, n1, x.token);
      var (m2, n2) := (OnToken(m1, x.token), OnToken(n1, y.token));
      if m2.1.Go? && !x.consumed {
        NoTokenStops(m1, x.token);
        NumberMovesOn(m1);
        RereadLine(m2.0, n2.0, c);
      }
    }
  }

  lemma RereadLine(m: Machine, n: Machine, c: char)
    requires SameButLine(m, n) && m.state != 1 && m.state != 7 && m.lex.state == 0 && IsCloser(c)
    ensures SameResult(Reread(m, c), Reread(n, c))
  {
    hide LexChar, OnToken;
    LexLine(m.lex, n.lex.line, c);
    LexCharOk(m.lex, c);
    var (x, y) := (LexChar(m.lex, c), LexChar(n.lex, c));
    TokenLine(m.(lex := x.lex), n.(lex := y.lex), x.token);
  }

  lemma {:induction false} LineFree(m: Machine, n: Machine, s: string)
    requires SameButLine(m, n)
    ensures Ending(m, s) == Ending(n, s)
    decreases |s|
  {
    hide Step;
    if s != "" {
      StepLine(m, n, s[0]);
      if Step(m, s[0]).1.Go? { LineFree(Step(m, s[0]).0, Step(n, s[0]).0, s[1..]); }
    }
  }

  // ----- reading what the grammar describes -----

  lemma {:induction false} SkipBlank(m: Machine, b: string, rest: string)
    requires Ready(m) && Blank(b)
    ensures Ending(m, b + rest) == Ending(m, rest)
    decreases |b|
  {
    hide Step, Feed, LexChar;
    if b == "" {
      assert b + rest == rest;
    } else {
      BlankStep(m, b[0]);
      FeedCons(m, b[0], b[1..] + rest);
      assert b + rest == [b[0]] + (b[1..] + rest);
      SkipBlank(m, b[1..], rest);
      LineFree(m, Step(m, b[0]).0, b[1..] + rest);
    }
  }

  lemma BlankStep(m: Machine, c: char)
    requires Ready(m) && IsWhitespace(c)
    ensures Step(m, c).1.Go? && SameButLine(m, Step(m, c).0)
  {
    hide Step;
    StepMore(m, c);
  }

  lemma NumberRead(m: Machine, t: Tree, tail: string)
    requires Ready(m) && (m.state == 6 || m.state == 8)
    requires t.kind == Number && ValidValue(t) && EndsNumber(tail)
    ensures ConfigOk(After(m, t)) && Ending(m, t.text + tail) == Ending(After(m, t), tail)
  {
    hide Step, OnToken, After, Feed;
    AfterReady(m, t);
    if IsCloser(tail[0]) {
      LeafBack(m, t, tail);
    } else {
      var (c, rest) := (tail[0], tail[1..]);
      assert tail == [c] + rest;
      FeedNumberText(m, t.text);
      FeedThen(m, t.text, c, rest);
      NumberThenSpace(m, t, Feed(m, t.text).0, c);
      SkipBlank(After(m, t), [c], rest);
    }
  }

  lemma NumberThenSpace(m: Machine, t: Tree, n: Machine, c: char)
    requires Ready(m) && (m.state == 6 || m.state == 8) && IsWhitespace(c)
    requires t.kind == Number && ValidValue(t) && NumberMayEnd(n.lex.state)
    requires n == m.(lex := m.lex.(state := n.lex.state, text := Some(t.text)))
    ensures Step(n, c) == (After(m, t), Go)
  {
    hide Step, OnToken, After;
    StepToken(n, c);
    LeafToken(m, t.text, NumberToken);
    assert t == Tree(Number, t.text, []);
  }

  lemma LeafRead(m: Machine, s: string, t: Tree, tail: string)
    requires Ready(m) && (m.state == 6 || m.state == 8)
    requires IsValue(s, t, true) && t.kind != Object && t.kind != Array && (t.kind == Number ==> EndsNumber(tail))
    ensures ValidValue(t) && ConfigOk(After(m, t)) && Ending(m, s + tail) == Ending(After(m, t), tail)
  {
    hide After, Feed, Word;
    match t.kind
    case String => StringBack(m, t, tail);
    case Number => NumberRead(m, t, tail);
    case True => WordBack(m, t, TrueToken, tail); assert Word(TrueToken) == s by { Words(); }
    case False => WordBack(m, t, FalseToken, tail); assert Word(FalseToken) == s by { Words(); }
    case Null => WordBack(m, t, NullToken, tail); assert Word(NullToken) == s by { Words(); }
  }

  lemma Words()
    ensures Word(TrueToken) == "true" && Word(FalseToken) == "false" && Word(NullToken) == "null"
  {
  }

  lemma OpenNode(m: Machine)
    requires 2 <= m.state <= 9
    ensures m.stack != []
  {
  }

  lemma AddNothing(stack: seq<Frame>)
    requires stack != []
    ensures AddKids(stack, []) == stack
  {
    assert Top(stack).kids + [] == Top(stack).kids;
  }

  // Reading a value leaves the machine as if its tree had been inserted.
  lemma {:induction false} ValueRead(m: Machine, s: string, t: Tree, tail: string)
    requires Ready(m) && (m.state == 6 || m.state == 8) && IsValue(s, t, true) && EndsNumber(tail)
    ensures ValidValue(t) && ConfigOk(After(m, t)) && Ending(m, s + tail) == Ending(After(m, t), tail)
    decreases t, 0
  {
    hide After, Ending;
    if t.kind == Object || t.kind == Array {
      ValueIsValid(s, t, true);
      ContainerRead(m, s, t, tail);
    } else {
      LeafRead(m, s, t, tail);
    }
  }

  function Opener(kind: Kind): char {
    if kind == Object then '{' else '['
  }

  function Ender(kind: Kind): char {
    if kind == Object then '}' else ']'
  }

  ghost predicate Body(s: string, t: Tree) {
    if t.kind == Object then Members(s, t.kids, true) else t.kind == Array && Elements(s, t.kids, true)
  }

  lemma Unwrap(s: string, t: Tree)
    requires IsValue(s, t, true) && (t.kind == Object || t.kind == Array)
    ensures |s| >= 2 && Body(Inner(s), t) && s == [Opener(t.kind)] + Inner(s) + [Ender(t.kind)]
  {
  }

  lemma {:induction false} ContainerRead(m: Machine, s: string, t: Tree, tail: string)
    requires Ready(m) && (m.state == 6 || m.state == 8) && IsValue(s, t, true) && ValidValue(t)
    requires t.kind == Object || t.kind == Array
    ensures ConfigOk(After(m, t)) && Ending(m, s + tail) == Ending(After(m, t), tail)
    decreases t, -1
  {
    hide After, IsValue, Feed, ValidValue, Elements, Members;
    Unwrap(s, t);
    var (inner, close) := (Inner(s), [Ender(t.kind)] + tail);
    FeedOpen(m, t.kind, inner + close);
    var n: Machine := Inside(m, if t.kind == Object then 2 else 8, t.kind, []);
    var state;
    if t.kind == Object {
      state := MembersRead(n, inner, t.kids, close);
    } else {
      state := ElementsRead(n, inner, t.kids, close);
    }
    InsideKids(m, n, state, t);
    FeedClose(m, state, t, tail);
    assert s + tail == [Opener(t.kind)] + (inner + close);
  }

  lemma InsideKids(m: Machine, n: Machine, state: nat, t: Tree)
    requires n == Inside(m, n.state, t.kind, [])
    ensures Config(state, n.lex, AddKids(n.stack, t.kids)) == Inside(m, state, t.kind, t.kids)
  {
    assert n.stack[..|n.stack| - 1] == m.stack;
    assert [] + t.kids == t.kids;
  }

  lemma {:induction false} PaddedRead(m: Machine, s: string, t: Tree, tail: string)
    requires Ready(m) && (m.state == 6 || m.state == 8) && Padded(s, t, true) && EndsValue(tail)
    ensures ValidValue(t) && ConfigOk(After(m, t)) && Ready(After(m, t))
    ensures Ending(m, s + tail) == Ending(After(m, t), tail)
    decreases t, 1
  {
    hide After, Ending, IsValue, ValidValue;
    var before, v, after := PadParts(s, t, true);
    SkipBlank(m, before, v + (after + tail));
    EndsAfterBlank(after, tail);
    ValueRead(m, v, t, after + tail);
    AfterReady(m, t);
    SkipBlank(After(m, t), after, tail);
    assert s + tail == before + (v + (after + tail));
  }

  lemma EndsAfterBlank(b: string, tail: string)
    requires Blank(b) && EndsValue(tail)
    ensures EndsNumber(b + tail)
  {
    if b != "" { assert (b + tail)[0] == b[0]; } else { assert b + tail == tail; }
  }

  lemma {:induction false} ElementsRead(m: Machine, s: string, kids: seq<Tree>, tail: string) returns (state: nat)
    requires Ready(m) && m.state == 8 && Elements(s, kids, true) && EndsValue(tail)
    ensures 8 <= state <= 9 && m.stack != []
    ensures var n := Config(state, m.lex, AddKids(m.stack, kids));
            ConfigOk(n) && Ending(m, s + tail) == Ending(n, tail)
    decreases kids
  {
    hide Ending, Padded, LexOk, FrameOk, Grounded, AddKids, AddKid;
    OpenNode(m);
    if kids == [] {
      AddNothing(m.stack);
      SkipBlank(m, s, tail);
      state := 8;
    } else if |kids| == 1 && Padded(s, kids[0], true) {
      PaddedRead(m, s, kids[0], tail);
      AddKidsStep(m.stack, kids);
      state := 9;
    } else {
      var k :| 0 <= k < |s| && s[k] == ',' && Padded(s[..k], kids[0], true) && Elements(s[k + 1..], kids[1..], true);
      var more := s[k + 1..] + tail;
      PaddedRead(m, s[..k], kids[0], [','] + more);
      CommaRead(m, kids[0], more);
      AddKidsStep(m.stack, kids);
      state := ElementsRead(Config(8, m.lex, AddKid(m.stack, kids[0])), s[k + 1..], kids[1..], tail);
      assert s + tail == s[..k] + ([','] + more);
    }
  }

  // An element and the comma behind it.
  lemma CommaRead(m: Machine, t: Tree, more: string)
    requires Ready(m) && m.state == 8 && ValidValue(t)
    ensures m.stack != []
    ensures var n := Config(8, m.lex, AddKid(m.stack, t));
            && ConfigOk(n) && Ready(n) && ConfigOk(After(m, t))
            && Ending(After(m, t), [','] + more) == Ending(n, more)
  {
    hide Ending, Feed, ValidValue;
    AfterReady(m, t);
    var n: Machine := After(m, t);
    CommaInArray(n);
    FeedPunct(n, ',', ValueSeparator, more);
    SameFeed(n, [','] + more, n.(state := 8), more);
  }

  // A member and the comma behind it.
  lemma CommaAfterMember(m: Machine, k: Tree, more: string)
    requires m.stack != [] && ConfigOk(AfterLabels(m, [k])) && Ready(AfterLabels(m, [k]))
    ensures var n := Config(4, m.lex, AddKid(m.stack, k));
            ConfigOk(n) && Ready(n) && Ending(AfterLabels(m, [k]), [','] + more) == Ending(n, more)
  {
    hide Ending, Feed;
    assert AddKids(m.stack, [k]) == AddKid(m.stack, k);
    var n: Machine := AfterLabels(m, [k]);
    CommaInObject(n);
    FeedPunct(n, ',', ValueSeparator, more);
    SameFeed(n, [','] + more, n.(state := 4), more);
  }

  lemma SameFeed(m: Machine, s: string, n: Machine, t: string)
    requires Feed(m, s) == Feed(n, t)
    ensures Ending(m, s) == Ending(n, t)
  {
  }

  // A name, white space around it, and the text behind the colon.
  lemma MemberParts(s: string, k: Tree, tail: string) returns (before: string, after: string, v: string)
    requires Member(s, k, true)
    ensures Blank(before) && ValidStringText(k.text) && Blank(after) && Padded(v, k.kids[0], true)
    ensures s + tail == before + ("\"" + k.text + "\"" + (after + ([':'] + (v + tail))))
  {
    hide Padded, PaddedString;
    var i :| 0 <= i < |s| && s[i] == ':' && PaddedString(s[..i], k.text) && Padded(s[i + 1..], k.kids[0], true);
    before, after := PadStringParts(s[..i], k.text);
    v := s[i + 1..];
    assert s == s[..i] + [':'] + v;
    Regroup(before, "\"" + k.text + "\"", after, v, tail);
  }

  lemma Regroup(before: string, name: string, after: string, v: string, tail: string)
    ensures before + name + after + [':'] + v + tail == before + (name + (after + ([':'] + (v + tail))))
  {
  }

  lemma {:induction false} MemberRead(m: Machine, s: string, k: Tree, tail: string)
    requires Ready(m) && (m.state == 2 || m.state == 4) && Member(s, k, true) && EndsValue(tail)
    ensures m.stack != [] && ConfigOk(AfterLabels(m, [k])) && Ready(AfterLabels(m, [k]))
    ensures Ending(m, s + tail) == Ending(AfterLabels(m, [k]), tail)
    decreases k
  {
    hide Feed, OnToken, After, Padded, PaddedString, ValidLabel, Ending, LexOk, FrameOk;
    MemberIsValid(s, k, true);
    var before, after, v := MemberParts(s, k, tail);
    LabelCloses(m, k);
    assert |k.kids| == 1 by { OneKid(k); }
    var n6: Machine := Config(6, m.lex, m.stack + [Frame(String, k.text, [])]);
    NameRead(m, before, k.text, after, v + tail);
    PaddedRead(n6, v, k.kids[0], tail);
    LabelReady(m, k);
  }

  lemma OneKid(k: Tree)
    requires ValidLabel(k)
    ensures |k.kids| == 1
  {
  }

  lemma LabelReady(m: Machine, k: Tree)
    requires Ready(m) && (m.state == 2 || m.state == 4) && ValidLabel(k)
    ensures m.stack != [] && ConfigOk(AfterLabels(m, [k])) && Ready(AfterLabels(m, [k]))
  {
    hide After;
    LabelCloses(m, k);
    AfterReady(Config(6, m.lex, m.stack + [Frame(String, k.text, [])]), k.kids[0]);
  }

  // A name and its colon, with white space around the name.
  lemma NameRead(m: Machine, before: string, text: string, after: string, rest: string)
    requires Ready(m) && (m.state == 2 || m.state == 4) && ValidStringText(text) && Blank(before) && Blank(after)
    ensures m.stack != []
    ensures var n6 := Config(6, m.lex, m.stack + [Frame(String, text, [])]);
            && ConfigOk(n6)
            && Ending(m, before + ("\"" + text + "\"" + (after + ([':'] + rest)))) == Ending(n6, rest)
  {
    hide Feed, OnToken, Ending;
    var colon := [':'] + rest;
    LabelTokens(m, text);
    var n5: Machine := OnToken(WithText(m, text), StringToken).0;
    SkipBlank(m, before, "\"" + text + "\"" + (after + colon));
    FeedQuoted(m, text, after + colon);
    SameFeed(m, "\"" + text + "\"" + (after + colon), n5, after + colon);
    SkipBlank(n5, after, colon);
    FeedPunct(n5, ':', NameSeparator, rest);
    SameFeed(n5, colon, OnToken(n5, NameSeparator).0, rest);
  }

  lemma {:induction false} MembersRead(m: Machine, s: string, kids: seq<Tree>, tail: string) returns (state: nat)
    requires Ready(m) && (m.state == 2 || (m.state == 4 && kids != [])) && Members(s, kids, true) && EndsValue(tail)
    ensures 2 <= state <= 3 && m.stack != []
    ensures var n := Config(state, m.lex, AddKids(m.stack, kids));
            ConfigOk(n) && Ending(m, s + tail) == Ending(n, tail)
    decreases kids
  {
    hide Ending, Member, Feed, Grounded, LexOk, FrameOk, AddKids, AddKid;
    OpenNode(m);
    if kids == [] {
      AddNothing(m.stack);
      SkipBlank(m, s, tail);
      state := 2;
    } else if |kids| == 1 {
      MemberRead(m, s, kids[0], tail);
      AddKidsStep(m.stack, kids);
      assert [kids[0]] == kids;
      state := 3;
    } else {
      var k :| 0 <= k < |s| && s[k] == ',' && Member(s[..k], kids[0], true) && Members(s[k + 1..], kids[1..], true);
      var more := s[k + 1..] + tail;
      MemberRead(m, s[..k], kids[0], [','] + more);
      CommaAfterMember(m, kids[0], more);
      AddKidsStep(m.stack, kids);
      state := MembersRead(Config(4, m.lex, AddKid(m.stack, kids[0])), s[k + 1..], kids[1..], tail);
      assert s + tail == s[..k] + ([','] + more);
    }
  }

  // ----- what an accepted text must look like -----

  lemma VerdictFree(m: Machine, n: Machine, token: Token)
    requires n.state == m.state && n.stack == m.stack
    ensures Grounded(m.state, m.stack) && OnToken(m, token).1 == OnToken(n, token).1
  {
    hide CloseTop, AddKid;
  }

  // The next token of a text that will be accepted.
  lemma NextToken(m: Machine, s: string) returns (blank: string, v: string, rest: string, token: Token, text: string)
    requires Ready(m) && m.state != 99 && Finished(Ending(m, s))
    ensures Blank(blank) && s == blank + (v + rest) && v != "" && Spells(v, token, text)
    ensures token == NumberToken ==> EndsNumber(rest)
    ensures Grounded(m.state, m.stack) && OnToken(m, token).1.Go?
    ensures Ending(m, s) == Ending(m, v + rest)
  {
    hide Feed, OnToken, Spells, EndsNumber, LexFrom, Unfinished;
    TokenByToken(m, s, 0);
    assert s[0..] == s;
    var a, b := FirstToken(m.lex, s, 0);
    var (l, found, at) := LexFrom(m.lex, s, 0);
    TokenMovesOn(m.(lex := l), found);
    VerdictFree(m, m.(lex := l), found);
    blank, v, rest, token, text := s[..a], s[a..b], s[b..], found, TextOf(l);
    assert s[0..a] == blank && s == blank + (v + rest);
    SkipBlank(m, blank, v + rest);
  }

  lemma LeafSpelled(v: string, token: Token, text: string)
    requires Spells(v, token, text) && LeafKind(token).Some?
    ensures IsValue(v, Tree(LeafKind(token).value, if CarriesText(token) then text else "", []), true)
  {
    hide ValidNumberText, ValidStringText;
  }

  lemma ValueTokens(m: Machine, token: Token)
    requires m.state == 6 || m.state == 8
    ensures Grounded(m.state, m.stack)
    ensures OnToken(m, token).1.Go? ==>
              LeafKind(token).Some? || token == BeginObject || token == BeginArray
                || (m.state == 8 && token == EndArray)
  {
  }

  lemma MoreThanOpened(m: Machine, kind: Kind, rest: string)
    requires Ready(m) && (m.state == 6 || m.state == 8) && (kind == Object || kind == Array)
    requires Finished(Ending(m, [Opener(kind)] + rest))
    ensures rest != ""
  {
    hide OnToken, Feed;
    OpensContainer(m, kind);
    FeedPunct(m, Opener(kind), if kind == Object then BeginObject else BeginArray, rest);
    FeedNothing(OnToken(m, if kind == Object then BeginObject else BeginArray).0);
  }

  lemma Wrap(inner: string, t: Tree)
    requires t.text == "" && Body(inner, t)
    ensures IsValue([Opener(t.kind)] + inner + [Ender(t.kind)], t, true)
  {
    assert Inner([Opener(t.kind)] + inner + [Ender(t.kind)]) == inner;
  }

  lemma {:induction false} ValueAt(m: Machine, v: string, rest: string, token: Token, text: string)
    returns (w: string, tail: string, t: Tree)
    requires Ready(m) && (m.state == 6 || m.state == 8) && Finished(Ending(m, v + rest))
    requires v != "" && Spells(v, token, text) && (token == NumberToken ==> EndsNumber(rest))
    requires LeafKind(token).Some? || token == BeginObject || token == BeginArray
    ensures v + rest == w + tail && w != "" && IsValue(w, t, true) && ValidValue(t)
    ensures ConfigOk(After(m, t)) && Ready(After(m, t)) && Ending(m, v + rest) == Ending(After(m, t), tail)
    decreases |v + rest|, 0
  {
    hide Feed, After, IsValue, ValidValue, Ending;
    if LeafKind(token).Some? {
      w, tail, t := v, rest, Tree(LeafKind(token).value, if CarriesText(token) then text else "", []);
      LeafSpelled(v, token, text);
      LeafRead(m, w, t, tail);
    } else {
      w, tail, t := ContainerAt(m, if token == BeginObject then Object else Array, rest);
    }
    AfterReady(m, t);
  }

  lemma {:induction false} ContainerAt(m: Machine, kind: Kind, rest: string) returns (w: string, tail: string, t: Tree)
    requires Ready(m) && (m.state == 6 || m.state == 8) && (kind == Object || kind == Array)
    requires Finished(Ending(m, [Opener(kind)] + rest))
    ensures [Opener(kind)] + rest == w + tail && w != "" && IsValue(w, t, true) && ValidValue(t)
    ensures ConfigOk(After(m, t)) && Ending(m, [Opener(kind)] + rest) == Ending(After(m, t), tail)
    decreases |rest|, 3
  {
    hide Feed, After, IsValue, Elements, Members, ValidLabel;
    MoreThanOpened(m, kind, rest);
    FeedOpen(m, kind, rest);
    var n: Machine := Inside(m, if kind == Object then 2 else 8, kind, []);
    SameFeed(m, [Opener(kind)] + rest, n, rest);
    var inner, close, kids, state;
    if kind == Object {
      inner, close, kids, state := MembersAt(n, rest);
    } else {
      inner, close, kids, state := ElementsAt(n, rest);
    }
    t := Tree(kind, "", kids);
    w, tail := [Opener(kind)] + inner + [Ender(kind)], close[1..];
    assert ValidValue(t);
    Wrap(inner, t);
    InsideKids(m, n, state, t);
    FeedClose(m, state, t, tail);
    assert close == [Ender(kind)] + tail;
    SameFeed(Inside(m, state, kind, kids), close, After(m, t), tail);
  }

  // A value with the white space around it, up to the comma or bracket behind it.
  lemma {:induction false} PaddedAt(m: Machine, blank: string, v: string, rest: string, token: Token, text: string)
    returns (p: string, tail: string, t: Tree)
    requires Ready(m) && (m.state == 6 || m.state == 8) && Finished(Ending(m, v + rest)) && Blank(blank)
    requires v != "" && Spells(v, token, text) && (token == NumberToken ==> EndsNumber(rest))
    requires LeafKind(token).Some? || token == BeginObject || token == BeginArray
    ensures blank + (v + rest) == p + tail && |tail| < |v + rest| && Padded(p, t, true) && ValidValue(t)
    ensures ConfigOk(After(m, t)) && Ready(After(m, t)) && Ending(m, v + rest) == Ending(After(m, t), tail)
    ensures tail != "" && (tail[0] == ',' || tail[0] == if m.state == 6 then '}' else ']')
    decreases |v + rest|, 1
  {
    hide Feed, IsValue, ValidValue, Ending, Spells;
    var w, behind, u := ValueAt(m, v, rest, token, text);
    var n: Machine := After(m, u);
    var after, x, y, next, _ := NextToken(n, behind);
    SeparatorSpelled(n, next, x);
    p, tail, t := blank + w + after, x + y, u;
    Pad(blank, w, after, t, true);
    assert blank + (w + (after + (x + y))) == blank + w + after + (x + y);
  }

  lemma SeparatorSpelled(m: Machine, token: Token, v: string)
    requires (m.state == 3 || m.state == 9) && v != ""
    ensures Grounded(m.state, m.stack)
    ensures forall text: string :: OnToken(m, token).1.Go? && Spells(v, token, text) ==>
                               v[0] == ',' || v[0] == if m.state == 3 then '}' else ']'
  {
  }

  lemma {:induction false} ElementsAt(m: Machine, s: string)
    returns (inner: string, close: string, kids: seq<Tree>, state: nat)
    requires Ready(m) && m.state == 8 && Finished(Ending(m, s))
    ensures s == inner + close && close != "" && close[0] == ']' && Elements(inner, kids, true)
    ensures (forall i | 0 <= i < |kids| :: ValidValue(kids[i])) && 8 <= state <= 9 && m.stack != []
    ensures var n := Config(state, m.lex, AddKids(m.stack, kids));
            ConfigOk(n) && Ending(m, s) == Ending(n, close)
    decreases |s|, 2
  {
    hide Feed, ValidValue, Ending, Padded, LexOk, FrameOk, Grounded, OnToken, AddKids, AddKid;
    OpenNode(m);
    var blank, v, rest, token, text := NextToken(m, s);
    ValueTokens(m, token);
    if token == EndArray {
      AddNothing(m.stack);
      inner, close, kids, state := blank, v + rest, [], 8;
    } else {
      var p, tail, t := PaddedAt(m, blank, v, rest, token, text);
      AddKidsStep(m.stack, [t]);
      if tail[0] == ']' {
        inner, close, kids, state := p, tail, [t], 9;
      } else {
        var more := tail[1..];
        assert tail == [','] + more;
        CommaRead(m, t, more);
        inner, close, kids, state := ElementsAt(Config(8, m.lex, AddKid(m.stack, t)), more);
        AddKidsStep(m.stack, [t] + kids);
        assert ([t] + kids)[1..] == kids;
        MoreElements(p, t, inner, kids);
        inner, kids := p + [','] + inner, [t] + kids;
      }
    }
  }

  lemma MoreElements(p: string, t: Tree, inner: string, kids: seq<Tree>)
    requires Padded(p, t, true) && Elements(inner, kids, true)
    ensures Elements(p + [','] + inner, [t] + kids, true)
  {
    hide Padded;
    var (s, k) := (p + [','] + inner, |p|);
    assert s[..k] == p && s[k] == ',' && s[k + 1..] == inner && ([t] + kids)[1..] == kids;
  }

  lemma MoreMembers(p: string, k: Tree, inner: string, kids: seq<Tree>)
    requires Member(p, k, true) && Members(inner, kids, true) && kids != []
    ensures Members(p + [','] + inner, [k] + kids, true)
  {
    hide Member;
    var (s, i) := (p + [','] + inner, |p|);
    assert s[..i] == p && s[i] == ',' && s[i + 1..] == inner && ([k] + kids)[1..] == kids;
  }

  lemma NameTokens(m: Machine, token: Token)
    requires 2 <= m.state <= 5
    ensures Grounded(m.state, m.stack)
    ensures OnToken(m, token).1.Go? ==>
              && (m.state == 2 ==> token == StringToken || token == EndObject)
              && (m.state == 4 ==> token == StringToken)
              && (m.state == 5 ==> token == NameSeparator)
  {
  }

  // A name, the colon, and the text behind it.
  lemma NameAt(m: Machine, text: string, rest: string) returns (after: string, more: string)
    requires Ready(m) && (m.state == 2 || m.state == 4) && ValidStringText(text)
    requires Finished(Ending(m, "\"" + text + "\"" + rest))
    ensures rest == after + ([':'] + more) && Blank(after) && m.stack != []
    ensures var n6 := Config(6, m.lex, m.stack + [Frame(String, text, [])]);
            && ConfigOk(n6) && Ready(n6)
            && Ending(m, "\"" + text + "\"" + rest) == Ending(n6, more)
  {
    hide Feed, OnToken, Ending;
    LabelTokens(m, text);
    var n5: Machine := OnToken(WithText(m, text), StringToken).0;
    FeedQuoted(m, text, rest);
    SameFeed(m, "\"" + text + "\"" + rest, n5, rest);
    assert n5.state == 5 by { NameState(m, text); }
    var v, token, word;
    after, v, more, token, word := NextToken(n5, rest);
    NameTokens(n5, token);
    FeedPunct(n5, ':', NameSeparator, more);
    SameFeed(n5, [':'] + more, OnToken(n5, NameSeparator).0, more);
  }

  lemma NameState(m: Machine, text: string)
    requires Ready(m) && (m.state == 2 || m.state == 4) && ValidStringText(text)
    ensures Grounded(m.state, m.stack) && OnToken(WithText(m, text), StringToken).0.state == 5
  {
  }

  lemma {:induction false} MemberAt(m: Machine, blank: string, text: string, rest: string)
    returns (p: string, tail: string, k: Tree)
    requires Ready(m) && (m.state == 2 || m.state == 4) && ValidStringText(text) && Blank(blank)
    requires Finished(Ending(m, "\"" + text + "\"" + rest))
    ensures blank + ("\"" + text + "\"" + rest) == p + tail && |tail| < |rest| && Member(p, k, true) && ValidLabel(k)
    ensures m.stack != [] && ConfigOk(AfterLabels(m, [k])) && Ready(AfterLabels(m, [k]))
    ensures Ending(m, "\"" + text + "\"" + rest) == Ending(AfterLabels(m, [k]), tail)
    ensures tail != "" && (tail[0] == ',' || tail[0] == '}')
    decreases |rest|, 2
  {
    hide Feed, Ending, OnToken, Padded, PaddedString, LexOk, FrameOk, After, ValidValue, Spells;
    var after, more := NameAt(m, text, rest);
    var n6: Machine := Config(6, m.lex, m.stack + [Frame(String, text, [])]);
    var b, v, r, token, word := NextToken(n6, more);
    ValueTokens(n6, token);
    var value, t;
    value, tail, t := PaddedAt(n6, b, v, r, token, word);
    k := Tree(String, text, [t]);
    OneMember(blank, text, after, value, t);
    LabelCloses(m, k);
    LabelReady(m, k);
    p := blank + ("\"" + text + "\"") + after + [':'] + value;
    Regroup(blank, "\"" + text + "\"", after, value, tail);
  }

  lemma OneMember(blank: string, text: string, after: string, value: string, t: Tree)
    requires Blank(blank) && ValidStringText(text) && Blank(after) && Padded(value, t, true) && ValidValue(t)
    ensures Member(blank + ("\"" + text + "\"") + after + [':'] + value, Tree(String, text, [t]), true)
    ensures ValidLabel(Tree(String, text, [t]))
  {
    hide Padded, ValidValue;
    PadString(blank, "\"" + text + "\"", after, text);
    var s := blank + ("\"" + text + "\"") + after;
    var (w, i) := (s + [':'] + value, |s|);
    assert w[i] == ':' && w[..i] == s && w[i + 1..] == value;
  }

  lemma {:induction false} MembersAt(m: Machine, s: string)
    returns (inner: string, close: string, kids: seq<Tree>, state: nat)
    requires Ready(m) && (m.state == 2 || m.state == 4) && Finished(Ending(m, s))
    ensures s == inner + close && close != "" && close[0] == '}' && Members(inner, kids, true)
    ensures (forall i | 0 <= i < |kids| :: ValidLabel(kids[i])) && 2 <= state <= 3 && m.stack != []
    ensures m.state == 4 ==> kids != []
    ensures var n := Config(state, m.lex, AddKids(m.stack, kids));
            ConfigOk(n) && Ending(m, s) == Ending(n, close)
    decreases |s|, 2
  {
    hide Feed, ValidLabel, Ending, Member, LexOk, FrameOk, OnToken, Grounded, AddKids, AddKid;
    OpenNode(m);
    var blank, v, rest, token, text := NextToken(m, s);
    NameTokens(m, token);
    if token == EndObject {
      AddNothing(m.stack);
      inner, close, kids, state := blank, v + rest, [], 2;
    } else {
      var p, tail, k := MemberAt(m, blank, text, rest);
      AddKidsStep(m.stack, [k]);
      if tail[0] == '}' {
        inner, close, kids, state := p, tail, [k], 3;
      } else {
        var more := tail[1..];
        assert tail == [','] + more;
        CommaAfterMember(m, k, more);
        inner, close, kids, state := MembersAt(Config(4, m.lex, AddKid(m.stack, k)), more);
        AddKidsStep(m.stack, [k] + kids);
        assert ([k] + kids)[1..] == kids;
        MoreMembers(p, k, inner, kids);
        inner, kids := p + [','] + inner, [k] + kids;
      }
    }
  }
}

/** What the printer writes for a tree, and that parsing it gives the tree back. */
module JsonText {
  import opened Wrappers
  import opened JsonTree
  import opened JsonLexer
  import opened JsonMachine
  import opened JsonFeed

  // The text json_tree_to_string writes for a node under a parent of the given
  // kind; None where it reports a label without a value.
  function Show(t: Tree, parent: Option<Kind>): Option<string> {
    match t.kind
    case String =>
      var labelled := parent == None || parent == Some(Object);
      if labelled && t.kids == [] then None
      else
        (match ShowKids(t.kids, String)
         case None => None
         case Some(inner) => Some("\"" + t.text + "\"" + (if labelled then ":" else "") + inner))
    case Number => Some(t.text)
    case Object =>
      (match ShowKids(t.kids, Object)
       case None => None
       case Some(inner) => Some("{" + inner + "}"))
    case Array =>
      (match ShowKids(t.kids, Array)
       case None => None
       case Some(inner) => Some("[" + inner + "]"))
    case True => Some("true")
    case False => Some("false")
    case Null => Some("null")
  }

  function ShowKids(kids: seq<Tree>, parent: Kind): Option<string> {
    if kids == [] then Some("")
    else
      match Show(kids[0], Some(parent))
      case None => None
      case Some(first) =>
        match ShowKids(kids[1..], parent)
        case None => None
        case Some(others) => Some(first + (if |kids| == 1 then "" else ",") + others)
  }

  // ----- valid trees print -----

  lemma {:induction false} ValidPrints(t: Tree, parent: Option<Kind>)
    requires if parent == Some(Object) then ValidLabel(t)
             else if parent == None then ValidDocument(t) else ValidValue(t)
    ensures Show(t, parent).Some? && Show(t, parent).value != ""
    decreases t, 0
  {
    match t.kind
    case String =>
      ValidKidsPrint(t.kids, String);
    case Object => ValidKidsPrint(t.kids, Object);
    case Array => ValidKidsPrint(t.kids, Array);
    case _ =>
  }

  lemma {:induction false} ValidKidsPrint(kids: seq<Tree>, parent: Kind)
    requires forall i | 0 <= i < |kids| :: ValidKid(parent, kids[i])
    ensures ShowKids(kids, parent).Some?
    decreases kids
  {
    if kids != [] {
      ValidPrints(kids[0], Some(parent));
      ValidKidsPrint(kids[1..], parent);
    }
  }

  // ----- reading texts back -----

  // A machine between tokens, in a state that reads one.
  predicate Ready(m: Machine) {
    m.lex.state == 0 && m.lex.text == None && m.state != 1 && m.state != 7
  }

  // Characters of a text are collected one by one.
  lemma {:induction false} FeedTextChars(m: Machine, s: string)
    requires m.state != 1 && m.state != 7
    requires (1 <= m.lex.state <= 6 || 17 <= m.lex.state <= 24) && TextRun(m.lex.state, s) != 0
    ensures m.lex.text.Some?
    ensures Feed(m, s) ==
            (m.(lex := m.lex.(state := TextRun(m.lex.state, s), text := Some(m.lex.text.value + s))), Go)
    decreases |s|
  {
    hide Step;
    if s == "" {
      assert m.lex.text.value + s == m.lex.text.value;
    } else {
      if TextNext(m.lex.state, s[0]) == 0 { DeadStaysDead(s[1..]); }
      StepMore(m, s[0]);
      FeedTextChars(Step(m, s[0]).0, s[1..]);
      assert m.lex.text.value + [s[0]] + s[1..] == m.lex.text.value + s;
    }
  }

  lemma FeedCons(m: Machine, c: char, s: string)
    ensures Feed(m, [c] + s) == if Step(m, c).1.Stop? then Step(m, c) else Feed(Step(m, c).0, s)
  {
    assert ([c] + s)[1..] == s;
  }

  function Then(r: (Machine, Verdict), s: string): (Machine, Verdict)
  {
    if r.1.Stop? then r else Feed(r.0, s)
  }

  // A machine that has read s from m and stands before the next character.
  lemma FeedThen(m: Machine, s: string, c: char, rest: string)
    requires Feed(m, s).1.Go?
    ensures Feed(m, s + ([c] + rest)) == Then(Step(Feed(m, s).0, c), rest)
  {
    hide Step;
    FeedSplit(m, s, [c] + rest);
    FeedCons(Feed(m, s).0, c, rest);
  }

  function WithText(m: Machine, s: string): Machine
    requires m.lex.state == 0
  {
    m.(lex := m.lex.(text := Some(s)))
  }

  lemma FeedString(m: Machine, s: string)
    requires Ready(m) && ValidStringText(s)
    ensures Feed(m, ['\"'] + s) == (m.(lex := m.lex.(state := 1, text := Some(s))), Go)
  {
    hide *;
    QuoteStarts(m);
    StringAcceptance(s);
    FeedTextChars(Step(m, '\"').0, s);
    assert "" + s == s;
    FeedCons(m, '\"', s);
  }

  lemma QuoteStarts(m: Machine)
    requires Ready(m)
    ensures m.state != 1 && m.state != 7
    ensures Step(m, '\"') == (m.(lex := m.lex.(state := 1, text := Some(""))), Go)
  {
    hide Step;
    StepMore(m, '\"');
  }

  // The machine after a string token, whatever the parser then does with it.
  lemma FeedQuoted(m: Machine, s: string, rest: string)
    requires Ready(m) && ValidStringText(s)
    ensures Grounded(m.state, m.stack)
    ensures ConfigOk(OnToken(WithText(m, s), StringToken).0)
    ensures Feed(m, "\"" + s + "\"" + rest) == Then(OnToken(WithText(m, s), StringToken), rest)
  {
    hide Step;
    FeedString(m, s);
    FeedThen(m, ['\"'] + s, '\"', rest);
    StepToken(Feed(m, ['\"'] + s).0, '\"');
    assert "\"" + s + "\"" + rest == ['\"'] + s + (['\"'] + rest);
  }

  lemma FeedNumberText(m: Machine, s: string)
    requires Ready(m) && ValidNumberText(s)
    ensures Feed(m, s) == (m.(lex := m.lex.(state := NumberRun(s), text := Some(s))), Go)
    ensures NumberMayEnd(NumberRun(s))
  {
    hide Step;
    NumberAcceptance(s);
    assert NumberStart(s[0]) != 0 by {
      if NumberStart(s[0]) == 0 { DeadStaysDead(s[1..]); }
    }
    StepMore(m, s[0]);
    FeedTextChars(Step(m, s[0]).0, s[1..]);
    assert [s[0]] + s[1..] == s;
  }

  // The character that ends a number is read as if it came after the number.
  lemma StepCloser(m: Machine, c: char)
    requires (m.state == 6 || m.state == 8) && NumberMayEnd(m.lex.state) && IsCloser(c)
    ensures Grounded(m.state, m.stack)
    ensures var n := OnToken(m.(lex := m.lex.(state := 0)), NumberToken);
            n.1.Go? && ConfigOk(n.0) && Step(m, c) == Step(n.0, c)
  {
    hide Step, OnToken;
    LexCharOk(m.lex, c);
    StepByToken(m, c);
    LeafOk(m.(lex := m.lex.(state := 0)), NumberToken);
  }

  lemma FeedNumber(m: Machine, s: string, tail: string)
    requires Ready(m) && (m.state == 6 || m.state == 8)
    requires ValidNumberText(s) && tail != "" && IsCloser(tail[0])
    ensures Grounded(m.state, m.stack)
    ensures var n := OnToken(WithText(m, s), NumberToken);
            ConfigOk(n.0) && Feed(m, s + tail) == Feed(n.0, tail)
  {
    hide Step, OnToken, LexChar;
    FeedNumberText(m, s);
    assert tail == [tail[0]] + tail[1..];
    FeedThen(m, s, tail[0], tail[1..]);
    StepCloser(Feed(m, s).0, tail[0]);
    FeedCons(OnToken(WithText(m, s), NumberToken).0, tail[0], tail[1..]);
  }

  // ----- literals -----

  function Word(token: Token): (w: string)
    ensures w != ""
  {
    match token
    case TrueToken => "true"
    case FalseToken => "false"
    case _ => "null"
  }

  function WordToken(q: nat): Token {
    if q <= 9 then TrueToken else if q <= 13 then FalseToken else NullToken
  }

  function WordRest(q: nat): string
    requires 7 <= q <= 16
    decreases 16 - q
  {
    [ExpectedLetter(q)] + if q == 9 || q == 13 || q == 16 then "" else WordRest(q + 1)
  }

  lemma {:induction false} FeedWordRest(m: Machine, tail: string)
    requires m.state != 1 && m.state != 7 && 7 <= m.lex.state <= 16
    ensures Grounded(m.state, m.stack)
    ensures var r := OnToken(m.(lex := m.lex.(state := 0)), WordToken(m.lex.state));
            ConfigOk(r.0) && Feed(m, WordRest(m.lex.state) + tail) == Then(r, tail)
    decreases 16 - m.lex.state
  {
    hide Step, OnToken;
    var q := m.lex.state;
    var c := ExpectedLetter(q);
    if q == 9 || q == 13 || q == 16 {
      StepToken(m, c);
      assert WordRest(q) + tail == [c] + tail;
      FeedCons(m, c, tail);
    } else {
      StepMore(m, c);
      FeedWordRest(Step(m, c).0, tail);
      assert WordRest(q) + tail == [c] + (WordRest(q + 1) + tail);
      FeedCons(m, c, WordRest(q + 1) + tail);
    }
  }

  function WordStart(token: Token): nat {
    match token
    case TrueToken => 7
    case FalseToken => 10
    case _ => 14
  }

  lemma WordSpelled(token: Token)
    ensures Word(token) == [Word(token)[0]] + WordRest(WordStart(token))
  {
    match token
    case TrueToken => assert WordRest(9) == "e" && WordRest(8) == "ue" && WordRest(7) == "rue";
    case FalseToken => assert WordRest(13) == "e" && WordRest(12) == "se" && WordRest(11) == "lse"
        && WordRest(10) == "alse";
    case _ => assert WordRest(16) == "l" && WordRest(15) == "ll" && WordRest(14) == "ull";
  }

  lemma WordOpens(lex: Lex, token: Token)
    requires lex.state == 0
    ensures LexChar(lex, Word(token)[0]) == Consume(lex.(state := WordStart(token)))
    ensures WordToken(WordStart(token))
            == match token case TrueToken => TrueToken case FalseToken => FalseToken case _ => NullToken
  {
  }

  // A word's first letter starts it.
  lemma FeedWordStart(m: Machine, token: Token, s: string)
    requires Ready(m) && (token == TrueToken || token == FalseToken || token == NullToken)
    ensures ConfigOk(m.(lex := m.lex.(state := WordStart(token))))
    ensures Feed(m, [Word(token)[0]] + s) == Feed(m.(lex := m.lex.(state := WordStart(token))), s)
  {
    hide Step, Word, LexChar, Feed;
    WordOpens(m.lex, token);
    StepMore(m, Word(token)[0]);
    FeedCons(m, Word(token)[0], s);
  }

  lemma FeedWord(m: Machine, token: Token, tail: string)
    requires Ready(m) && (token == TrueToken || token == FalseToken || token == NullToken)
    ensures Grounded(m.state, m.stack)
    ensures ConfigOk(OnToken(m, token).0)
    ensures Feed(m, Word(token) + tail) == Then(OnToken(m, token), tail)
  {
    hide OnToken, WordRest, Word, LexChar, Feed, Then, Step, Grounded, LexOk, FrameOk;
    var q := WordStart(token);
    var n: Machine := m.(lex := m.lex.(state := q)) by { FeedWordStart(m, token, ""); }
    FeedWordStart(m, token, WordRest(q) + tail);
    WordSpelled(token);
    WordOpens(m.lex, token);
    FeedWordRest(n, tail);
    assert n.(lex := n.lex.(state := 0)) == m;
    assert Word(token) + tail == [Word(token)[0]] + (WordRest(q) + tail);
  }

  // ----- whole values -----

  // The machine once the awaited value t has been read.
  function After(m: Machine, t: Tree): Config
    requires (m.state == 6 || m.state == 8)
  {
    if m.state == 8 then Config(9, m.lex, AddKid(m.stack, t))
    else
      assert |m.stack| >= 2;
      Config(3, m.lex, CloseTop(AddKid(m.stack, t)))
  }

  lemma AfterReady(m: Machine, t: Tree)
    requires Ready(m) && (m.state == 6 || m.state == 8) && ValidValue(t)
    ensures ConfigOk(After(m, t)) && Ready(After(m, t))
  {
    AddLeafOk(m, t);
    if m.state == 6 {
      assert MayHold(m.stack[|m.stack| - 2], String);
      CloseTopOk(AddKid(m.stack, t));
    }
  }

  // A leaf token does what reading the leaf should do.
  lemma LeafToken(m: Machine, text: string, token: Token)
    requires Ready(m) && (m.state == 6 || m.state == 8) && LeafKind(token).Some?
    requires token == StringToken ==> ValidStringText(text)
    requires token == NumberToken ==> ValidNumberText(text)
    ensures Grounded(m.state, m.stack)
    ensures var n := if CarriesText(token) then WithText(m, text) else m;
            OnToken(n, token) == (After(m, LeafOf(token, n.lex)), Go)
  {
  }

  lemma StringBack(m: Machine, t: Tree, tail: string)
    requires Ready(m) && (m.state == 6 || m.state == 8) && ValidValue(t) && t.kind == String
    ensures Show(t, Some(Top(m.stack).kind)) == Some("\"" + t.text + "\"")
    ensures ConfigOk(After(m, t))
    ensures Feed(m, "\"" + t.text + "\"" + tail) == Feed(After(m, t), tail)
  {
    hide Step, OnToken, After, Feed;
    AfterReady(m, t);
    LeafToken(m, t.text, StringToken);
    FeedQuoted(m, t.text, tail);
    assert t == Tree(String, t.text, []);
    assert ShowKids(t.kids, String) == Some("");
    assert "\"" + t.text + "\"" + "" + "" == "\"" + t.text + "\"";
  }

  lemma WordBack(m: Machine, t: Tree, token: Token, tail: string)
    requires Ready(m) && (m.state == 6 || m.state == 8) && ValidValue(t)
    requires (token == TrueToken && t.kind == True) || (token == FalseToken && t.kind == False)
             || (token == NullToken && t.kind == Null)
    ensures ConfigOk(After(m, t))
    ensures Feed(m, Word(token) + tail) == Feed(After(m, t), tail)
  {
    hide Step, OnToken, After, Feed, Word;
    AfterReady(m, t);
    LeafToken(m, "", token);
    FeedWord(m, token, tail);
    assert t == Tree(t.kind, "", []);
  }

  lemma LeafBack(m: Machine, t: Tree, tail: string)
    requires Ready(m) && (m.state == 6 || m.state == 8)
    requires ValidValue(t) && t.kind != Object && t.kind != Array
    requires tail != "" && IsCloser(tail[0])
    ensures Show(t, Some(Top(m.stack).kind)).Some?
    ensures ConfigOk(After(m, t))
    ensures Feed(m, Show(t, Some(Top(m.stack).kind)).value + tail) == Feed(After(m, t), tail)
  {
    hide Step, OnToken, After, Feed;
    match t.kind
    case String => StringBack(m, t, tail);
    case Number =>
      AfterReady(m, t);
      LeafToken(m, t.text, NumberToken);
      FeedNumber(m, t.text, tail);
      assert t == Tree(Number, t.text, []);
    case True => WordBack(m, t, TrueToken, tail);
    case False => WordBack(m, t, FalseToken, tail);
    case Null => WordBack(m, t, NullToken, tail);
  }
}

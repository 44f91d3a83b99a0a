/** Parsing what the printer writes gives the tree back. */
module JsonRoundTrip {
  import opened Wrappers
  import opened JsonTree
  import opened JsonLexer
  import opened JsonMachine
  import opened JsonFeed
  import opened JsonText

  function AddKids(stack: seq<Frame>, kids: seq<Tree>): seq<Frame>
    requires stack != []
  {
    stack[..|stack| - 1] + [Top(stack).(kids := Top(stack).kids + kids)]
  }

  lemma AddKidsStep(stack: seq<Frame>, kids: seq<Tree>)
    requires stack != [] && kids != []
    ensures AddKids(AddKid(stack, kids[0]), kids[1..]) == AddKids(stack, kids)
    ensures |kids| == 1 ==> AddKid(stack, kids[0]) == AddKids(stack, kids)
  {
    assert [kids[0]] + kids[1..] == kids;
    assert |kids| == 1 ==> [kids[0]] == kids;
    assert Top(stack).kids + [kids[0]] + kids[1..] == Top(stack).kids + kids;
    assert AddKid(stack, kids[0])[..|stack| - 1] == stack[..|stack| - 1];
  }

  // A punctuation token read between two values.
  lemma FeedPunct(m: Machine, c: char, token: Token, rest: string)
    requires Ready(m) && token != More && LexRoot(m.lex, c) == Emit(m.lex, token)
    ensures Grounded(m.state, m.stack) && ConfigOk(OnToken(m, token).0)
    ensures Feed(m, [c] + rest) == Then(OnToken(m, token), rest)
  {
    hide Step, OnToken, Feed;
    StepToken(m, c);
    FeedCons(m, c, rest);
  }

  // A container opened on a machine that awaits a value, with the kids read so far.
  function Inside(m: Config, state: nat, kind: Kind, kids: seq<Tree>): Config {
    Config(state, m.lex, m.stack + [Frame(kind, "", kids)])
  }

  lemma FeedOpen(m: Machine, kind: Kind, rest: string)
    requires Ready(m) && (m.state == 6 || m.state == 8) && (kind == Object || kind == Array) && rest != ""
    ensures var n := Inside(m, if kind == Object then 2 else 8, kind, []);
            && ConfigOk(n) && Ready(n)
            && Feed(m, [if kind == Object then '{' else '['] + rest) == Feed(n, rest)
  {
    hide Feed, OnToken, Open, Ready, Inside;
    OpensContainer(m, kind);
    if kind == Object {
      FeedPunct(m, '{', BeginObject, rest);
      OpenFeed(OnToken(m, BeginObject).0, rest);
    } else {
      FeedPunct(m, '[', BeginArray, rest);
      OpenFeed(OnToken(m, BeginArray).0, rest);
    }
  }

  lemma OpensContainer(m: Machine, kind: Kind)
    requires Ready(m) && (m.state == 6 || m.state == 8) && (kind == Object || kind == Array)
    ensures Grounded(m.state, m.stack)
    ensures var r := OnToken(m, if kind == Object then BeginObject else BeginArray);
            var n := Inside(m, if kind == Object then 2 else 8, kind, []);
            && r == (m.(state := if kind == Object then 1 else 7), Go)
            && ConfigOk(r.0) && Open(r.0) == n && ConfigOk(n) && Ready(n)
    ensures LexRoot(m.lex, '{') == Emit(m.lex, BeginObject) && LexRoot(m.lex, '[') == Emit(m.lex, BeginArray)
  {
    OpenOk(m.(state := if kind == Object then 1 else 7));
  }

  lemma CloseGives(m: Machine, state: nat, kind: Kind, kids: seq<Tree>)
    requires m.state == 6 || m.state == 8
    ensures CloseContainer(Inside(m, state, kind, kids)) == (After(m, Tree(kind, "", kids)), Go)
  {
    var s := Inside(m, state, kind, kids).stack;
    assert s[..|s| - 1] == m.stack;
  }

  lemma FeedClose(m: Machine, state: nat, t: Tree, rest: string)
    requires Ready(m) && (m.state == 6 || m.state == 8)
    requires (t.kind == Object && 2 <= state <= 3) || (t.kind == Array && 8 <= state <= 9)
    requires ValidValue(t)
    ensures ConfigOk(Inside(m, state, t.kind, t.kids)) && ConfigOk(After(m, t))
    ensures Feed(Inside(m, state, t.kind, t.kids), [if t.kind == Object then '}' else ']'] + rest)
            == Feed(After(m, t), rest)
  {
    hide Feed, After, OnToken, Ready, Inside, CloseContainer;
    var n := Inside(m, state, t.kind, t.kids);
    InsideOk(m, state, t);
    ClosesContainer(m, state, t);
    if t.kind == Object {
      FeedPunct(n, '}', EndObject, rest);
    } else {
      FeedPunct(n, ']', EndArray, rest);
    }
  }

  lemma ClosesContainer(m: Machine, state: nat, t: Tree)
    requires Ready(m) && (m.state == 6 || m.state == 8)
    requires (t.kind == Object && 2 <= state <= 3) || (t.kind == Array && 8 <= state <= 9)
    requires ValidValue(t)
    ensures ConfigOk(Inside(m, state, t.kind, t.kids)) && ConfigOk(After(m, t))
    ensures var n := Inside(m, state, t.kind, t.kids);
            && Ready(n) && Grounded(n.state, n.stack)
            && OnToken(n, if t.kind == Object then EndObject else EndArray) == (After(m, t), Go)
            && LexRoot(n.lex, '}') == Emit(n.lex, EndObject) && LexRoot(n.lex, ']') == Emit(n.lex, EndArray)
  {
    hide CloseContainer, After;
    InsideOk(m, state, t);
    CloseGives(m, state, t.kind, t.kids);
    AfterReady(m, t);
    assert t == Tree(t.kind, "", t.kids);
  }

  lemma InsideOk(m: Machine, state: nat, t: Tree)
    requires Ready(m) && (m.state == 6 || m.state == 8)
    requires (t.kind == Object && 2 <= state <= 3) || (t.kind == Array && 8 <= state <= 9)
    requires ValidValue(t)
    ensures ConfigOk(Inside(m, state, t.kind, t.kids))
  {
    var s := Inside(m, state, t.kind, t.kids).stack;
    forall i | 0 <= i < |s|
      ensures FrameOk(s[i])
    {
      assert i < |m.stack| ==> FrameOk(m.stack[i]);
    }
    assert MayHold(Top(m.stack), t.kind);
  }

  // ----- one label, one element, and lists of them -----

  predicate EndsValue(tail: string) {
    tail != "" && IsCloser(tail[0])
  }

  lemma ShowLabel(k: Tree)
    requires ValidLabel(k)
    ensures Show(k.kids[0], Some(String)).Some? && Show(k, Some(Object)).Some?
    ensures Show(k, Some(Object)).value == "\"" + k.text + "\"" + (":" + Show(k.kids[0], Some(String)).value)
  {
    ValidPrints(k.kids[0], Some(String));
    var v := Show(k.kids[0], Some(String)).value;
    assert ShowKids(k.kids[1..], String) == Some("");
    assert ShowKids(k.kids, String) == Some(v + "" + "");
    assert v + "" + "" == v;
  }

  // The machine once one more label has been read into the open object.
  function AfterLabels(m: Config, kids: seq<Tree>): Config
    requires m.stack != []
  {
    Config(3, m.lex, AddKids(m.stack, kids))
  }

  lemma LabelCloses(m: Machine, k: Tree)
    requires Ready(m) && (m.state == 2 || m.state == 4) && ValidLabel(k)
    ensures m.stack != []
    ensures var n := Config(6, m.lex, m.stack + [Frame(String, k.text, [])]);
            ConfigOk(n) && Ready(n) && After(n, k.kids[0]) == AfterLabels(m, [k])
  {
    var w := WithText(m, k.text);
    OpenLabelOk(w);
    var n := Config(6, m.lex, m.stack + [Frame(String, k.text, [])]);
    assert n == OpenLabel(w).(state := 6);
    assert n.stack[..|n.stack| - 1] == m.stack;
    var leaf := AddKid(n.stack, k.kids[0]);
    assert leaf[..|leaf| - 1] == m.stack;
    assert [] + [k.kids[0]] == k.kids;
    assert Closed(Top(leaf)) == k;
  }

  lemma {:induction false} LabelBack(m: Machine, k: Tree, tail: string)
    requires Ready(m) && (m.state == 2 || m.state == 4) && ValidLabel(k) && EndsValue(tail)
    ensures Show(k, Some(Object)).Some? && m.stack != [] && ConfigOk(AfterLabels(m, [k]))
    ensures Feed(m, Show(k, Some(Object)).value + tail) == Feed(AfterLabels(m, [k]), tail)
    decreases k, 0
  {
    hide Feed, OnToken, After, Show, ValidValue;
    ShowLabel(k);
    LabelCloses(m, k);
    var v := Show(k.kids[0], Some(String)).value;
    var n6: Machine := Config(6, m.lex, m.stack + [Frame(String, k.text, [])]);
    FeedQuoted(m, k.text, ":" + v + tail);
    LabelTokens(m, k.text);
    var n5 := OnToken(WithText(m, k.text), StringToken).0;
    FeedPunct(n5, ':', NameSeparator, v + tail);
    ValueBack(n6, k.kids[0], tail);
    assert [':'] + (v + tail) == ":" + v + tail;
    Associative("\"" + k.text + "\"", ":" + v, tail);
  }

  lemma LabelTokens(m: Machine, text: string)
    requires Ready(m) && (m.state == 2 || m.state == 4) && ValidStringText(text)
    ensures var n6 := Config(6, m.lex, m.stack + [Frame(String, text, [])]);
            && Grounded(m.state, m.stack)
            && var n5 := OnToken(WithText(m, text), StringToken);
            && n5.1.Go? && ConfigOk(n5.0) && Ready(n5.0)
            && Grounded(n5.0.state, n5.0.stack)
            && OnToken(n5.0, NameSeparator) == (n6, Go)
  {
    OpenLabelOk(WithText(m, text));
  }

  function Separated(kids: seq<Tree>, parent: Kind, tail: string): string
    requires kids != [] && ShowKids(kids[1..], parent).Some?
  {
    if |kids| == 1 then tail else [','] + (ShowKids(kids[1..], parent).value + tail)
  }

  lemma ShowKidsUnfold(kids: seq<Tree>, parent: Kind)
    requires kids != [] && ShowKids(kids, parent).Some?
    ensures ShowKids(kids[1..], parent).Some? && Show(kids[0], Some(parent)).Some?
    ensures ShowKids(kids, parent).value == Show(kids[0], Some(parent)).value + Separated(kids, parent, "")
  {
    hide Show;
    var first := Show(kids[0], Some(parent)).value;
    if |kids| == 1 {
      assert ShowKids(kids[1..], parent) == Some("");
      assert first + "" + "" == first + "";
    } else {
      var others := ShowKids(kids[1..], parent).value;
      assert first + "," + others == first + ([','] + (others + ""));
    }
  }

  lemma SeparatedTail(kids: seq<Tree>, parent: Kind, tail: string)
    requires kids != [] && ShowKids(kids[1..], parent).Some?
    ensures Separated(kids, parent, "") + tail == Separated(kids, parent, tail)
  {
    hide ShowKids;
    if |kids| > 1 {
      var others := ShowKids(kids[1..], parent).value;
      assert [','] + (others + "") + tail == [','] + (others + tail);
    }
  }

  lemma Associative(a: string, b: string, c: string)
    ensures (a + b) + c == a + (b + c)
  {
  }

  lemma ShowKidsStep(kids: seq<Tree>, parent: Kind, tail: string)
    requires kids != [] && forall i | 0 <= i < |kids| :: ValidKid(parent, kids[i])
    ensures ShowKids(kids, parent).Some? && ShowKids(kids[1..], parent).Some? && Show(kids[0], Some(parent)).Some?
    ensures ShowKids(kids, parent).value + tail == Show(kids[0], Some(parent)).value + Separated(kids, parent, tail)
  {
    hide Show, ShowKids;
    ValidKidsPrint(kids, parent);
    ShowKidsUnfold(kids, parent);
    SeparatedTail(kids, parent, tail);
    Associative(Show(kids[0], Some(parent)).value, Separated(kids, parent, ""), tail);
  }

  lemma {:induction false} LabelsBack(m: Machine, kids: seq<Tree>, tail: string)
    requires Ready(m) && (m.state == 2 || m.state == 4) && kids != []
    requires (forall i | 0 <= i < |kids| :: ValidLabel(kids[i])) && EndsValue(tail)
    ensures ShowKids(kids, Object).Some? && m.stack != [] && ConfigOk(AfterLabels(m, kids))
    ensures Feed(m, ShowKids(kids, Object).value + tail) == Feed(AfterLabels(m, kids), tail)
    decreases kids, 1
  {
    hide Feed, OnToken, Show, ShowKids;
    ShowKidsStep(kids, Object, tail);
    AddKidsStep(m.stack, kids);
    LabelBack(m, kids[0], Separated(kids, Object, tail));
    var n3: Machine := AfterLabels(m, [kids[0]]);
    assert AddKids(m.stack, [kids[0]]) == AddKid(m.stack, kids[0]);
    if |kids| > 1 {
      CommaInObject(n3);
      FeedPunct(n3, ',', ValueSeparator, ShowKids(kids[1..], Object).value + tail);
      LabelsBack(n3.(state := 4), kids[1..], tail);
    }
  }

  lemma CommaInObject(m: Machine)
    requires Ready(m) && m.state == 3
    ensures Grounded(m.state, m.stack) && ConfigOk(m.(state := 4)) && Ready(m.(state := 4))
    ensures OnToken(m, ValueSeparator) == (m.(state := 4), Go)
  {
  }

  function AfterElements(m: Config, kids: seq<Tree>): Config
    requires m.stack != []
  {
    Config(9, m.lex, AddKids(m.stack, kids))
  }

  lemma {:induction false} ElementsBack(m: Machine, kids: seq<Tree>, tail: string)
    requires Ready(m) && m.state == 8 && kids != []
    requires (forall i | 0 <= i < |kids| :: ValidValue(kids[i])) && EndsValue(tail)
    ensures ShowKids(kids, Array).Some? && m.stack != [] && ConfigOk(AfterElements(m, kids))
    ensures Feed(m, ShowKids(kids, Array).value + tail) == Feed(AfterElements(m, kids), tail)
    decreases kids, 1
  {
    hide Feed, OnToken, Show, ShowKids;
    ShowKidsStep(kids, Array, tail);
    AddKidsStep(m.stack, kids);
    ValueBack(m, kids[0], Separated(kids, Array, tail));
    AfterReady(m, kids[0]);
    var n9: Machine := After(m, kids[0]);
    if |kids| > 1 {
      CommaInArray(n9);
      FeedPunct(n9, ',', ValueSeparator, ShowKids(kids[1..], Array).value + tail);
      ElementsBack(n9.(state := 8), kids[1..], tail);
    }
  }

  lemma CommaInArray(m: Machine)
    requires Ready(m) && m.state == 9
    ensures Grounded(m.state, m.stack) && ConfigOk(m.(state := 8)) && Ready(m.(state := 8))
    ensures OnToken(m, ValueSeparator) == (m.(state := 8), Go)
  {
  }

  // Reading a printed value leaves the machine as if the tree had been inserted.
  lemma {:induction false} ValueBack(m: Machine, t: Tree, tail: string)
    requires Ready(m) && (m.state == 6 || m.state == 8) && ValidValue(t) && EndsValue(tail)
    ensures Show(t, Some(Top(m.stack).kind)).Some? && ConfigOk(After(m, t))
    ensures Feed(m, Show(t, Some(Top(m.stack).kind)).value + tail) == Feed(After(m, t), tail)
    decreases t, 2
  {
    hide Feed, After;
    if t.kind == Object || t.kind == Array {
      ContainerBack(m, t, tail);
    } else {
      LeafBack(m, t, tail);
    }
  }

  lemma ShowContainer(t: Tree, parent: Option<Kind>)
    requires ValidValue(t) && (t.kind == Object || t.kind == Array)
    ensures ShowKids(t.kids, t.kind).Some?
    ensures Show(t, parent) == Some([if t.kind == Object then '{' else '['] + ShowKids(t.kids, t.kind).value
                                    + [if t.kind == Object then '}' else ']'])
  {
    ValidKidsPrint(t.kids, t.kind);
  }

  lemma {:induction false} ContainerBack(m: Machine, t: Tree, tail: string)
    requires Ready(m) && (m.state == 6 || m.state == 8) && ValidValue(t) && EndsValue(tail)
    requires t.kind == Object || t.kind == Array
    ensures Show(t, Some(Top(m.stack).kind)).Some? && ConfigOk(After(m, t))
    ensures Feed(m, Show(t, Some(Top(m.stack).kind)).value + tail) == Feed(After(m, t), tail)
    decreases t, 1
  {
    hide Feed, After, Show, ShowKids;
    ShowContainer(t, Some(Top(m.stack).kind));
    var inner := ShowKids(t.kids, t.kind).value;
    var closer := [if t.kind == Object then '}' else ']'];
    FeedOpen(m, t.kind, inner + (closer + tail));
    BodyBack(m, t, inner, closer + tail);
    FeedClose(m, EndState(t), t, tail);
    assert [if t.kind == Object then '{' else '['] + inner + closer + tail
        == [if t.kind == Object then '{' else '['] + (inner + (closer + tail));
  }

  function EndState(t: Tree): nat {
    if t.kind == Object then (if t.kids == [] then 2 else 3) else if t.kids == [] then 8 else 9
  }

  lemma {:induction false} BodyBack(m: Machine, t: Tree, inner: string, tail: string)
    requires Ready(m) && (m.state == 6 || m.state == 8) && ValidValue(t) && EndsValue(tail)
    requires (t.kind == Object || t.kind == Array) && ShowKids(t.kids, t.kind) == Some(inner)
    ensures var n := Inside(m, if t.kind == Object then 2 else 8, t.kind, []);
            && ConfigOk(n) && ConfigOk(Inside(m, EndState(t), t.kind, t.kids))
            && Feed(n, inner + tail) == Feed(Inside(m, EndState(t), t.kind, t.kids), tail)
    decreases t, 0
  {
    hide Feed, Show;
    var state := if t.kind == Object then 2 else 8;
    var n := Inside(m, state, t.kind, []);
    InsideOk(m, state, Tree(t.kind, "", []));
    InsideOk(m, EndState(t), t);
    if t.kids == [] {
      assert inner + tail == tail;
    } else {
      assert n.stack[..|n.stack| - 1] == m.stack;
      assert [] + t.kids == t.kids;
      if t.kind == Object { LabelsBack(n, t.kids, tail); } else { ElementsBack(n, t.kids, tail); }
    }
  }

  // ----- documents -----

  lemma DocumentFeed(t: Tree)
    requires ValidDocument(t)
    ensures Show(t, None).Some?
    ensures Feed(INITIAL, Show(t, None).value) == (Config(99, INITIAL.lex, [Frame(Object, "", t.kids)]), Go)
  {
    hide Feed, Show, ShowKids, Step;
    ShowContainer(t, None);
    var inner := ShowKids(t.kids, Object).value;
    StepToken(INITIAL, '{');
    FeedCons(INITIAL, '{', inner + "}");
    var n1: Machine := INITIAL.(state := 1);
    OpenFeed(n1, inner + "}");
    assert Open(n1).stack == [Frame(Object, "", [])];
    var n2: Machine := Config(2, INITIAL.lex, [Frame(Object, "", [])]);
    if t.kids == [] {
      assert inner == "" by { EmptyBody(t); }
      assert inner + "}" == "}";
      RootClose(n2);
    } else {
      assert [] + t.kids == t.kids;
      assert IsCloser("}"[0]);
      LabelsBack(n2, t.kids, "}");
      assert AfterLabels(n2, t.kids).stack == [Frame(Object, "", t.kids)];
      RootClose(AfterLabels(n2, t.kids));
    }
    assert ['{'] + inner + ['}'] == ['{'] + (inner + "}");
  }

  lemma EmptyBody(t: Tree)
    requires t.kids == []
    ensures ShowKids(t.kids, t.kind) == Some("")
  {
  }

  lemma RootClose(m: Machine)
    requires Ready(m) && 2 <= m.state <= 3 && |m.stack| == 1
    ensures Feed(m, "}") == (m.(state := 99), Go)
  {
    StepToken(m, '}');
    assert "}"[1..] == "";
  }

  // Every valid document is printed, and parsing the text returns that document.
  lemma PrintThenParse(t: Tree)
    requires ValidDocument(t)
    ensures Show(t, None).Some?
    ensures ParseDocument(Show(t, None).value) == (Some(t), Ok)
  {
    hide Feed, Show;
    DocumentFeed(t);
    assert t == Closed(Frame(Object, "", t.kids));
  }

  // Whatever text is accepted, printing its tree and parsing again changes nothing,
  // and two accepted texts with the same printed form have the same tree.
  lemma ParseThenPrint(text: string)
    requires ParseDocument(text).1 == Ok
    ensures var t := ParseDocument(text).0.value;
            && ValidDocument(t)
            && Show(t, None).Some?
            && ParseDocument(Show(t, None).value) == ParseDocument(text)
  {
    PrintThenParse(ParseDocument(text).0.value);
  }

  // A printed tree comes back exactly when it is a document the grammar allows.
  lemma PrintThenParseIff(t: Tree)
    requires Show(t, None).Some?
    ensures ParseDocument(Show(t, None).value) == (Some(t), Ok) <==> ValidDocument(t)
  {
    hide Show, ParseDocument;
    var text := Show(t, None).value;
    if ValidDocument(t) { PrintThenParse(t); }
    if ParseDocument(text).1 == Ok { ParseThenPrint(text); }
  }

  lemma PrintIsInjective(t: Tree, u: Tree)
    requires ValidDocument(t) && ValidDocument(u) && Show(t, None) == Show(u, None)
    ensures t == u
  {
    PrintThenParse(t);
    PrintThenParse(u);
  }
}

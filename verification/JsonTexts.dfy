/** json_parse_document against the grammar: which texts it takes, and as which trees. */
module JsonTexts {
  import opened Wrappers
  import opened JsonTree
  import opened JsonGrammar
  import opened JsonLexer
  import opened JsonMachine
  import opened JsonFeed
  import opened JsonText
  import opened JsonRoundTrip
  import opened JsonTokens
  import opened JsonAccept

  // The machine once the root has been closed.
  function Rooted(t: Tree): Config {
    Config(99, INITIAL.lex, [Frame(Object, "", t.kids)])
  }

  lemma RootedOk(t: Tree)
    requires ValidDocument(t)
    ensures ConfigOk(Rooted(t)) && Ready(Rooted(t)) && Closed(Rooted(t).stack[0]) == t
  {
  }

  lemma RootOpens(rest: string)
    requires rest != ""
    ensures var n := Config(2, INITIAL.lex, [Frame(Object, "", [])]);
            ConfigOk(n) && Ready(n) && Ending(INITIAL, ['{'] + rest) == Ending(n, rest)
  {
    hide Feed, Step, OnToken;
    FeedPunct(INITIAL, '{', BeginObject, rest);
    RootToken();
    var n1: Machine := OnToken(INITIAL, BeginObject).0;
    OpenFeed(n1, rest);
    assert Open(n1).stack == [Frame(Object, "", [])];
    SameFeed(INITIAL, ['{'] + rest, Open(n1), rest);
  }

  lemma RootToken()
    ensures Grounded(0, []) && OnToken(INITIAL, BeginObject) == (INITIAL.(state := 1), Go)
    ensures forall token :: OnToken(INITIAL, token).1.Go? ==> token == BeginObject
  {
  }

  lemma RootCloses(n: Machine, t: Tree, rest: string)
    requires 2 <= n.state <= 3 && n.lex == INITIAL.lex && n.stack == [Frame(Object, "", t.kids)] && ValidDocument(t)
    ensures ConfigOk(Rooted(t)) && Ending(n, ['}'] + rest) == Ending(Rooted(t), rest)
  {
    hide Feed, OnToken, CloseContainer;
    RootedOk(t);
    CloseCases(n);
    BraceCloses(n);
    FeedPunct(n, '}', EndObject, rest);
    SameFeed(n, ['}'] + rest, Rooted(t), rest);
  }

  lemma BraceCloses(n: Machine)
    requires 2 <= n.state <= 3
    ensures Grounded(n.state, n.stack) && n.stack != [] && OnToken(n, EndObject) == CloseContainer(n)
  {
    hide CloseContainer;
  }

  lemma RootKids(kids: seq<Tree>, state: nat)
    ensures Config(state, INITIAL.lex, AddKids([Frame(Object, "", [])], kids))
            == Config(state, INITIAL.lex, [Frame(Object, "", kids)])
  {
    assert [] + kids == kids;
  }

  // A root with white space before it is read, whatever follows.
  lemma RootRead(before: string, v: string, t: Tree, rest: string)
    requires Blank(before) && IsValue(v, t, true) && t.kind == Object
    ensures ValidDocument(t) && ConfigOk(Rooted(t)) && Ending(INITIAL, before + v + rest) == Ending(Rooted(t), rest)
  {
    hide Ending, Members, ValidValue, IsValue;
    ValueIsValid(v, t, true);
    Unwrap(v, t);
    var (inner, close) := (Inner(v), ['}'] + rest);
    SkipBlank(INITIAL, before, v + rest);
    RootOpens(inner + close);
    var n: Machine := Config(2, INITIAL.lex, [Frame(Object, "", [])]);
    var state := MembersRead(n, inner, t.kids, close);
    RootKids(t.kids, state);
    RootCloses(Config(state, INITIAL.lex, [Frame(Object, "", t.kids)]), t, rest);
    assert v + rest == ['{'] + (inner + close);
    assert before + v + rest == before + (v + rest);
  }

  // An accepted text begins with white space and the text of a root.
  lemma RootAt(text: string) returns (before: string, v: string, rest: string, t: Tree)
    requires Finished(Ending(INITIAL, text))
    ensures text == before + v + rest && Blank(before) && IsValue(v, t, true) && t.kind == Object
    ensures ValidDocument(t) && ConfigOk(Rooted(t)) && Ending(INITIAL, text) == Ending(Rooted(t), rest)
  {
    hide Feed, IsValue, Members, ValidLabel, OnToken, Spells;
    var b, first, tail, token, word := NextToken(INITIAL, text);
    RootToken();
    assert first == "{" by { BraceSpelled(first, word); }
    assert tail != "" by { BraceAlone(tail); }
    RootOpens(tail);
    var n: Machine := Config(2, INITIAL.lex, [Frame(Object, "", [])]);
    var inner, close, kids, state := MembersAt(n, tail);
    before, v, rest, t := b, ['{'] + inner + ['}'], close[1..], Tree(Object, "", kids);
    assert ValidDocument(t);
    Wrap(inner, t);
    RootKids(kids, state);
    RootCloses(Config(state, INITIAL.lex, [Frame(Object, "", kids)]), t, rest);
    assert close == ['}'] + rest;
    assert b + ("{" + (inner + (['}'] + rest))) == b + v + rest;
  }

  lemma BraceSpelled(v: string, text: string)
    requires Spells(v, BeginObject, text)
    ensures v == "{"
  {
  }

  lemma BraceAlone(rest: string)
    requires Finished(Ending(INITIAL, "{" + rest))
    ensures rest != ""
  {
    hide Step, OnToken;
    FeedPunct(INITIAL, '{', BeginObject, rest);
    RootToken();
  }

  // ----- behind the root -----

  // White space, then nothing or a token without its end.
  ghost predicate Trailer(s: string) {
    exists i | 0 <= i <= |s| :: Blank(s[..i]) && (i == |s| || Unfinished(s[i..]))
  }

  lemma RootStops(m: Machine, token: Token)
    requires m.state == 99
    ensures Grounded(m.state, m.stack) && OnToken(m, token).1.Stop?
  {
  }

  lemma FirstLetter(s: string)
    requires Unfinished(s)
    ensures s != "" && !IsWhitespace(s[0])
  {
    if exists more: string :: ValidNumberText(s + more) {
      var more: string :| ValidNumberText(s + more);
      assert (s + more)[0] == s[0];
    }
    if exists more: string :: more != "" && IsWord(s + more) {
      var more: string :| more != "" && IsWord(s + more);
      assert (s + more)[0] == s[0];
    }
  }

  // Behind the root, what the lexer does not finish is not looked at.
  lemma TrailerIff(m: Machine, s: string)
    requires Ready(m) && m.state == 99
    ensures Finished(Ending(m, s)) <==> Trailer(s)
    ensures Finished(Ending(m, s)) ==> Ending(m, s).stack == m.stack && (Ending(m, s).between <==> Blank(s))
  {
    hide Feed, OnToken, LexFrom, Unfinished, Spells, EndsNumber;
    TokenByToken(m, s, 0);
    assert s[0..] == s;
    var a, b := FirstToken(m.lex, s, 0);
    var (l, token, at) := LexFrom(m.lex, s, 0);
    RootStops(m.(lex := l), token);
    assert s[0..a] == s[..a];
    FirstBlanks(s, a);
    if Trailer(s) {
      var i :| 0 <= i <= |s| && Blank(s[..i]) && (i == |s| || Unfinished(s[i..]));
      if i < |s| { FirstLetter(s[i..]); }
      SameStart(s, i, a);
    }
  }

  lemma FirstBlanks(s: string, a: nat)
    requires a <= |s| && Blank(s[..a]) && (a < |s| ==> !IsWhitespace(s[a]))
    ensures Blank(s) <==> a == |s|
  {
    assert s[..|s|] == s;
  }

  lemma SameStart(s: string, i: nat, a: nat)
    requires i <= |s| && Blank(s[..i]) && (i < |s| ==> !IsWhitespace(s[i]))
    requires a <= |s| && Blank(s[..a]) && (a < |s| ==> !IsWhitespace(s[a]))
    ensures i == a
  {
    BlankAt(s, i);
    BlankAt(s, a);
  }

  lemma BlankAt(s: string, a: nat)
    requires a <= |s| && Blank(s[..a])
    ensures forall i | 0 <= i < a :: IsWhitespace(s[i])
  {
    assert forall i | 0 <= i < a :: s[i] == s[..a][i];
  }

  // ----- what is accepted -----

  // The text of an object, and behind it perhaps a token without its end.
  ghost predicate Accepts(text: string, t: Tree) {
    exists k | 0 <= k <= |text| :: Denotes(text[..k], t, true) && (k == |text| || Unfinished(text[k..]))
  }

  lemma ParsedIsEnding(text: string)
    ensures var e := Ending(INITIAL, text);
            ParseDocument(text).0 == (if Finished(e) && e.stack != [] then Some(Closed(e.stack[0])) else None)
            && (Finished(e) ==> e.stack != [])
  {
    hide Step;
  }

  lemma ParsedTree(text: string, t: Tree, rest: string)
    requires ConfigOk(Rooted(t)) && Ready(Rooted(t)) && t == Tree(Object, "", t.kids)
    requires Ending(INITIAL, text) == Ending(Rooted(t), rest)
    ensures ParseDocument(text) == (Some(t), Ok) <==> Trailer(rest)
    ensures ParseDocument(text).1 == Ok <==> Trailer(rest)
    ensures Trailer(rest) ==> (Feed(INITIAL, text).0.lex.state == 0 <==> Blank(rest))
  {
    hide Feed, ParseDocument, Trailer, Blank;
    ParsedIsEnding(text);
    TrailerIff(Rooted(t), rest);
    CodeIsOk(text);
  }

  lemma CodeIsOk(text: string)
    ensures ParseDocument(text).1 == Ok <==> ParseDocument(text).0.Some?
  {
  }

  lemma AcceptedRoot(text: string, t: Tree, k: nat)
    requires k <= |text| && Denotes(text[..k], t, true)
    ensures ParseDocument(text) == (Some(t), Ok) <==> Trailer(text[k..])
    ensures Trailer(text[k..]) ==> (Feed(INITIAL, text).0.lex.state == 0 <==> Blank(text[k..]))
  {
    hide Feed, ParseDocument, IsValue, Unfinished, Ending, Trailer;
    var before, v, after := PadParts(text[..k], t, true);
    RootRead(before, v, t, after + text[k..]);
    RootedOk(t);
    assert text == before + v + (after + text[k..]) by { assert text == text[..k] + text[k..]; }
    ParsedTree(text, t, after + text[k..]);
    TrailerLater(after, text[k..]);
  }

  lemma TrailerLater(b: string, s: string)
    requires Blank(b)
    ensures Trailer(b + s) <==> Trailer(s)
    ensures Blank(b + s) <==> Blank(s)
  {
    hide Unfinished;
    var w := b + s;
    BlankBoth(b, s);
    if Trailer(s) {
      var i :| 0 <= i <= |s| && Blank(s[..i]) && (i == |s| || Unfinished(s[i..]));
      BlankBoth(b, s[..i]);
      assert w[..|b| + i] == b + s[..i] && w[|b| + i..] == s[i..];
    }
    if Trailer(w) {
      var i :| 0 <= i <= |w| && Blank(w[..i]) && (i == |w| || Unfinished(w[i..]));
      if i < |w| { FirstLetter(w[i..]); }
      assert i >= |b| by { assert w[..|b|] == b; BlankAt(w, |b|); }
      assert w[..i] == b + s[..i - |b|] && w[i..] == s[i - |b|..];
      BlankBoth(b, s[..i - |b|]);
    }
  }

  lemma BlankBoth(a: string, b: string)
    ensures Blank(a + b) <==> Blank(a) && Blank(b)
  {
    if Blank(a + b) {
      assert forall i | 0 <= i < |a| :: a[i] == (a + b)[i];
      assert forall i | 0 <= i < |b| :: b[i] == (a + b)[|a| + i];
    }
  }

  // json_parse_document takes exactly the texts of the grammar, with two additions: an
  // array may have a comma after its last element, and a token may be left without its
  // end behind the root.
  lemma AcceptedIff(text: string, t: Tree)
    ensures ParseDocument(text) == (Some(t), Ok) <==> Accepts(text, t)
  {
    hide ParseDocument, Denotes, Unfinished;
    if ParseDocument(text) == (Some(t), Ok) {
      var k := AcceptedParts(text, t);
    }
    if Accepts(text, t) {
      var k :| 0 <= k <= |text| && Denotes(text[..k], t, true) && (k == |text| || Unfinished(text[k..]));
      AcceptedRoot(text, t, k);
      assert Blank(text[k..][..0]) && text[k..][0..] == text[k..];
    }
  }

  lemma AcceptedParts(text: string, t: Tree) returns (k: nat)
    requires ParseDocument(text) == (Some(t), Ok)
    ensures k <= |text| && Denotes(text[..k], t, true) && (k == |text| || Unfinished(text[k..]))
    ensures Feed(INITIAL, text).0.lex.state == 0 ==> k == |text|
  {
    hide ParseDocument, IsValue, Unfinished, Feed;
    ParsedIsEnding(text);
    var before, v, rest, u := RootAt(text);
    RootedOk(u);
    ParsedTree(text, u, rest);
    var i :| 0 <= i <= |rest| && Blank(rest[..i]) && (i == |rest| || Unfinished(rest[i..]));
    Pad(before, v, rest[..i], u, true);
    k := |before| + |v| + i;
    assert text[..k] == before + v + rest[..i] && text[k..] == rest[i..];
    if i < |rest| { FirstLetter(rest[i..]); }
    FirstBlanks(rest, i);
  }

  // The tree is the one the text denotes exactly when the lexer ends between tokens.
  lemma DenotesIff(text: string, t: Tree)
    ensures Denotes(text, t, true) <==> ParseDocument(text) == (Some(t), Ok) && Feed(INITIAL, text).0.lex.state == 0
  {
    hide ParseDocument, Feed, Denotes;
    assert text[..|text|] == text && text[|text|..] == "";
    if Denotes(text, t, true) {
      AcceptedRoot(text, t, |text|);
      assert Blank(""[..0]);
    }
    if ParseDocument(text) == (Some(t), Ok) && Feed(INITIAL, text).0.lex.state == 0 {
      var k := AcceptedParts(text, t);
    }
  }

  // Every text of RFC 8259 with an object as its value is taken for what it denotes.
  lemma EveryJsonObject(text: string, t: Tree)
    requires Denotes(text, t, false)
    ensures ParseDocument(text) == (Some(t), Ok)
  {
    hide ParseDocument, Padded;
    PaddedLoosens(text, t);
    DenotesIff(text, t);
  }

  // No text denotes two trees.
  lemma DenotesOne(text: string, t: Tree, u: Tree)
    requires Denotes(text, t, true) && Denotes(text, u, true)
    ensures t == u
  {
    hide ParseDocument, Denotes;
    DenotesIff(text, t);
    DenotesIff(text, u);
  }

  // ----- the two additions -----

  // A document with any unfinished token behind it is taken for the document alone.
  lemma UnfinishedIsIgnored(text: string, t: Tree, s: string)
    requires Denotes(text, t, true) && Unfinished(s)
    ensures ParseDocument(text + s) == (Some(t), Ok)
    ensures forall u :: !Denotes(text + s, u, true)
  {
    hide ParseDocument, Feed, Denotes, Unfinished, Blank;
    var w := text + s;
    assert w[..|text|] == text && w[|text|..] == s;
    AcceptedRoot(w, t, |text|);
    assert s[..0] == "" && s[0..] == s && Blank("") by { NothingIsBlank(); }
    FirstLetter(s);
    assert !Blank(s) by { NotBlank(s); }
    forall u
      ensures !Denotes(w, u, true)
    {
      DenotesIff(w, u);
    }
  }

  lemma NothingIsBlank()
    ensures Blank("")
  {
  }

  lemma NotBlank(s: string)
    requires s != "" && !IsWhitespace(s[0])
    ensures !Blank(s)
  {
  }

  lemma EmptyObject()
    ensures Denotes("{}", Tree(Object, "", []), true)
  {
    var t := Tree(Object, "", []);
    assert Body("", t);
    Wrap("", t);
    assert [Opener(Object)] + "" + [Ender(Object)] == "{}";
    Pad("", "{}", "", t, true);
    assert "" + "{}" + "" == "{}";
  }

  lemma OneIsNumber()
    ensures ValidNumberText("1")
  {
    assert "1"[1..] == "";
  }

  lemma UnfinishedSample()
    ensures ParseDocument("{}1") == (Some(Tree(Object, "", [])), Ok)
    ensures forall t :: !Denotes("{}1", t, true)
  {
    hide ParseDocument, Denotes, ValidNumberText;
    EmptyObject();
    OneIsNumber();
    assert "1" + "" == "1" && Unfinished("1");
    UnfinishedIsIgnored("{}", Tree(Object, "", []), "1");
    assert "{}" + "1" == "{}1";
  }

  // An object of one member, whose value is an array of one number.
  function Sample(name: string, n: string): Tree {
    Tree(Object, "", [Tree(String, name, [Tree(Array, "", [Tree(Number, n, [])])])])
  }

  // Its text, with a comma after the number.
  function SampleText(name: string, n: string): string {
    ['{'] + ("\"" + name + "\"" + [':'] + CommaArray(n)) + ['}']
  }

  function CommaArray(n: string): string {
    ['['] + (n + [',']) + [']']
  }

  // No white space around a text.
  lemma Unpadded(s: string, t: Tree, loose: bool)
    requires IsValue(s, t, loose)
    ensures Padded(s, t, loose)
  {
    hide IsValue;
    NothingIsBlank();
    Pad("", s, "", t, loose);
    assert "" + s + "" == s;
  }

  lemma CommaArrayDenoted(n: string)
    requires ValidNumberText(n)
    ensures Padded(CommaArray(n), Tree(Array, "", [Tree(Number, n, [])]), true)
  {
    hide ValidNumberText, Padded, IsValue;
    var one := Tree(Number, n, []);
    assert IsValue(n, one, true) by { NumberIsValue(n); }
    Unpadded(n, one, true);
    NoElements();
    MoreElements(n, one, "", []);
    assert [one] + [] == [one] && n + [','] + "" == n + [','];
    Wrap(n + [','], Tree(Array, "", [one]));
    Unpadded(CommaArray(n), Tree(Array, "", [one]), true);
  }

  lemma NumberIsValue(n: string)
    requires ValidNumberText(n)
    ensures IsValue(n, Tree(Number, n, []), true)
  {
  }

  lemma NoElements()
    ensures Elements("", [], true)
  {
  }

  lemma SampleDenoted(name: string, n: string)
    requires ValidStringText(name) && ValidNumberText(n)
    ensures Denotes(SampleText(name, n), Sample(name, n), true)
  {
    hide Padded, ValidStringText, ValidNumberText, IsValue, ValidValue, Member, Blank, CommaArray;
    CommaArrayDenoted(n);
    var list := Tree(Array, "", [Tree(Number, n, [])]);
    PaddedIsValid(CommaArray(n), list, true);
    NothingIsBlank();
    OneMember("", name, "", CommaArray(n), list);
    var s := "\"" + name + "\"" + [':'] + CommaArray(n);
    assert "" + ("\"" + name + "\"") + "" + [':'] + CommaArray(n) == s;
    Wrap(s, Sample(name, n));
    Unpadded(SampleText(name, n), Sample(name, n), true);
  }

  // A text that neither starts nor ends with white space is a value itself.
  lemma NoPadding(s: string, t: Tree, loose: bool)
    requires Padded(s, t, loose) && s != "" && !IsWhitespace(s[0]) && !IsWhitespace(s[|s| - 1])
    ensures IsValue(s, t, loose)
  {
    hide IsValue;
    var before, v, after := PadParts(s, t, loose);
    BlankEdges(before, v, after);
    assert v == s;
  }

  lemma BlankEdges(before: string, v: string, after: string)
    requires Blank(before) && Blank(after)
    ensures var s := before + v + after;
            && (before != "" ==> IsWhitespace(s[0]))
            && (after != "" ==> IsWhitespace(s[|s| - 1]))
  {
  }

  lemma NumberFirst(n: string)
    requires ValidNumberText(n)
    ensures n != "" && !IsWhitespace(n[0])
  {
  }

  lemma CommaIsNoNumber(n: string)
    requires ValidNumberText(n)
    ensures !Padded(n + [','], Tree(Number, n, []), false)
  {
    hide ValidNumberText;
    NumberFirst(n);
    var s := n + [','];
    if Padded(s, Tree(Number, n, []), false) {
      NoPadding(s, Tree(Number, n, []), false);
    }
  }

  lemma CommaArrayIsNotStrict(n: string)
    requires ValidNumberText(n)
    ensures !Padded(CommaArray(n), Tree(Array, "", [Tree(Number, n, [])]), false)
  {
    hide Padded, ValidNumberText;
    var (one, s) := (Tree(Number, n, []), CommaArray(n));
    if Padded(s, Tree(Array, "", [one]), false) {
      NoPadding(s, Tree(Array, "", [one]), false);
      assert Inner(s) == n + [','];
      CommaIsNoNumber(n);
    }
  }

  lemma SampleIsNotStrict(name: string, n: string)
    requires ValidNumberText(n) && ':' !in name && ':' !in n
    ensures !Denotes(SampleText(name, n), Sample(name, n), false)
  {
    hide Padded, PaddedString, ValidNumberText, CommaArray;
    var (w, s) := (SampleText(name, n), "\"" + name + "\"" + [':'] + CommaArray(n));
    if Padded(w, Sample(name, n), false) {
      NoPadding(w, Sample(name, n), false);
      assert Inner(w) == s;
      var list := Tree(Array, "", [Tree(Number, n, [])]);
      assert Member(s, Tree(String, name, [list]), false);
      var k :| 0 <= k < |s| && s[k] == ':' && PaddedString(s[..k], name) && Padded(s[k + 1..], list, false);
      OneColon(name, n, k);
      CommaArrayIsNotStrict(n);
    }
  }

  lemma OneColon(name: string, n: string, k: nat)
    requires ':' !in name && ':' !in n
    requires var s := "\"" + name + "\"" + [':'] + CommaArray(n); k < |s| && s[k] == ':'
    ensures ("\"" + name + "\"" + [':'] + CommaArray(n))[k + 1..] == CommaArray(n)
  {
    var q := "\"" + name + "\"";
    assert ':' !in q && ':' !in CommaArray(n);
    assert k == |q|;
  }

  // A comma after the last element: taken as if it were not there, though no text of RFC 8259.
  lemma LastCommaIsTaken(name: string, n: string)
    requires ValidStringText(name) && ValidNumberText(n) && ':' !in name && ':' !in n
    ensures ParseDocument(SampleText(name, n)) == (Some(Sample(name, n)), Ok)
    ensures forall t :: !Denotes(SampleText(name, n), t, false)
  {
    hide ParseDocument, Padded, Sample, SampleText, ValidNumberText, ValidStringText;
    SampleDenoted(name, n);
    var w := SampleText(name, n);
    DenotesIff(w, Sample(name, n));
    forall t
      ensures !Denotes(w, t, false)
    {
      if Denotes(w, t, false) {
        PaddedLoosens(w, t);
        DenotesOne(w, t, Sample(name, n));
        SampleIsNotStrict(name, n);
      }
    }
  }

  lemma SampleSpelled()
    ensures SampleText("a", "1") == "{\"a\":[1,]}"
    ensures ValidStringText("a")
  {
    assert "a"[1..] == "";
  }

  lemma LastCommaSample()
    ensures ParseDocument("{\"a\":[1,]}") == (Some(Sample("a", "1")), Ok)
    ensures forall t :: !Denotes("{\"a\":[1,]}", t, false)
  {
    hide ParseDocument, Denotes, SampleText, Sample, ValidNumberText, ValidStringText;
    OneIsNumber();
    SampleSpelled();
    LastCommaIsTaken("a", "1");
  }
}

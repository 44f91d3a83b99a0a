/** The fragment parser as a pushdown machine: open nodes on a stack, one step a character. */
module JsonMachine {
  import opened Wrappers
  import opened JsonTree
  import opened JsonLexer

  // An open node: the children it already has are complete.
  datatype Frame = Frame(kind: Kind, text: string, kids: seq<Tree>)

  // The parser state number, the lexer, and the open nodes from the root to the cursor.
  datatype Config = Config(state: nat, lex: Lex, stack: seq<Frame>)

  datatype Verdict = Go | Stop(code: Code)

  // json_jpi_init
  const INITIAL: Machine := Config(0, Lex(0, None, 1), [])

  function Closed(f: Frame): Tree {
    Tree(f.kind, f.text, f.kids)
  }

  function Top(stack: seq<Frame>): Frame
    requires stack != []
  {
    stack[|stack| - 1]
  }

  function AddKid(stack: seq<Frame>, t: Tree): seq<Frame>
    requires stack != []
  {
    stack[..|stack| - 1] + [Top(stack).(kids := Top(stack).kids + [t])]
  }

  function CloseTop(stack: seq<Frame>): seq<Frame>
    requires |stack| >= 2
  {
    AddKid(stack[..|stack| - 1], Closed(Top(stack)))
  }

  // ----- which stacks each parser state can have -----

  predicate MayHold(f: Frame, kind: Kind) {
    match f.kind
    case Object => kind == String
    case Array => kind == Object || kind == Array
    case String => f.kids == [] && (kind == Object || kind == Array)
    case _ => false
  }

  predicate Nested(stack: seq<Frame>) {
    && (stack != [] ==> stack[0].kind == Object)
    && forall i | 0 < i < |stack| :: MayHold(stack[i - 1], stack[i].kind)
  }

  predicate AwaitsValue(stack: seq<Frame>) {
    stack != [] && (Top(stack).kind == Array || (Top(stack).kind == String && Top(stack).kids == []))
  }

  // The cursor type each state's assert demands.
  predicate CursorFits(state: nat, stack: seq<Frame>) {
    if state == 0 then stack == []
    else if state == 1 then stack == [] || AwaitsValue(stack)
    else if state == 7 then AwaitsValue(stack)
    else if 2 <= state <= 4 then stack != [] && Top(stack).kind == Object
    else if 5 <= state <= 6 then stack != [] && Top(stack).kind == String && Top(stack).kids == []
    else if 8 <= state <= 9 then stack != [] && Top(stack).kind == Array
    else state == 99 && |stack| == 1
  }

  predicate Grounded(state: nat, stack: seq<Frame>) {
    Nested(stack) && CursorFits(state, stack)
  }

  // ----- transitions -----

  // States 1 and 7 open a container without reading anything.
  function Open(m: Config): Config {
    if m.state == 1 then m.(state := 2, stack := m.stack + [Frame(Object, "", [])])
    else if m.state == 7 then m.(state := 8, stack := m.stack + [Frame(Array, "", [])])
    else m
  }

  predicate CarriesText(token: Token) {
    token == StringToken || token == NumberToken
  }

  function TextOf(lex: Lex): string {
    if lex.text.Some? then lex.text.value else ""
  }

  function LeafKind(token: Token): Option<Kind> {
    match token
    case StringToken => Some(String)
    case NumberToken => Some(Number)
    case TrueToken => Some(True)
    case FalseToken => Some(False)
    case NullToken => Some(Null)
    case _ => None
  }

  function LeafOf(token: Token, lex: Lex): Tree
    requires LeafKind(token).Some?
  {
    Tree(LeafKind(token).value, if CarriesText(token) then TextOf(lex) else "", [])
  }

  function DropText(token: Token, lex: Lex): Lex {
    if CarriesText(token) then lex.(text := None) else lex
  }

  // End of an object or array: back to the enclosing object or array.
  function CloseContainer(m: Config): (r: (Config, Verdict))
    requires m.stack != []
    ensures r.0.state == m.state || r.0.state == 99 || r.0.state == 9 || r.0.state == 3
  {
    var n := |m.stack|;
    if n == 1 then (m.(state := 99), Go)
    else if m.stack[n - 2].kind == Array then (m.(state := 9, stack := CloseTop(m.stack)), Go)
    else if n >= 3 && m.stack[n - 2].kind == String && m.stack[n - 3].kind == Object then
      (m.(state := 3, stack := CloseTop(CloseTop(m.stack))), Go)
    else (m, Stop(BadTreeStructure))
  }

  function OpenLabel(m: Config): Config {
    Config(5, DropText(StringToken, m.lex), m.stack + [Frame(String, TextOf(m.lex), [])])
  }

  function CodeFor(state: nat, token: Token): Code {
    if token == InvalidCharacter && (state == 4 || state == 6 || state == 8) then IllegalCharacter
    else MalformedDocument
  }

  // What one token does in each parser state (not 1 or 7, which read none).
  function OnToken(m: Config, token: Token): (r: (Config, Verdict))
    requires Grounded(m.state, m.stack)
    ensures r.0.state == 0 ==> m.state == 0
  {
    var fail := (m, Stop(CodeFor(m.state, token)));
    match m.state
    case 0 => if token == BeginObject then (m.(state := 1), Go) else fail
    case 2 =>
      if token == StringToken then (OpenLabel(m), Go)
      else if token == EndObject then CloseContainer(m)
      else fail
    case 3 =>
      if token == ValueSeparator then (m.(state := 4), Go)
      else if token == EndObject then CloseContainer(m)
      else fail
    case 4 => if token == StringToken then (OpenLabel(m), Go) else fail
    case 5 => if token == NameSeparator then (m.(state := 6), Go) else fail
    case 6 =>
      if LeafKind(token).Some? then
        (Config(3, DropText(token, m.lex), CloseTop(AddKid(m.stack, LeafOf(token, m.lex)))), Go)
      else if token == BeginObject then (m.(state := 1), Go)
      else if token == BeginArray then (m.(state := 7), Go)
      else fail
    case 8 =>
      if LeafKind(token).Some? then
        (Config(9, DropText(token, m.lex), AddKid(m.stack, LeafOf(token, m.lex))), Go)
      else if token == BeginObject then (m.(state := 1), Go)
      else if token == BeginArray then (m.(state := 7), Go)
      else if token == EndArray then CloseContainer(m)
      else fail
    case 9 =>
      if token == ValueSeparator then (m.(state := 8), Go)
      else if token == EndArray then CloseContainer(m)
      else fail
    case _ => fail
  }

  // An illegal character is reported where a label after a comma, a value or an element is
  // awaited, and a malformed document everywhere else and for every token that does not fit.
  lemma CodesAre(m: Config, token: Token)
    requires Grounded(m.state, m.stack) && m.state != 1 && m.state != 7
    ensures OnToken(m, token).1 == Stop(IllegalCharacter)
            <==> token == InvalidCharacter && (m.state == 4 || m.state == 6 || m.state == 8)
    ensures token == More || token == InvalidCharacter ==> OnToken(m, token).1.Stop?
  {
  }

  // ----- the invariant -----

  predicate ValidKid(parent: Kind, t: Tree) {
    if parent == Object then ValidLabel(t) else ValidValue(t)
  }

  predicate FrameOk(f: Frame) {
    && (if f.kind == String then ValidStringText(f.text) else f.text == "")
    && forall i | 0 <= i < |f.kids| :: ValidKid(f.kind, f.kids[i])
  }

  predicate ConfigOk(m: Config) {
    && Grounded(m.state, m.stack)
    && LexOk(m.lex)
    && (forall i | 0 <= i < |m.stack| :: FrameOk(m.stack[i]))
  }

  // A configuration that satisfies the invariant.
  type Machine = m: Config | ConfigOk(m) witness Config(0, Lex(0, None, 1), [])

  predicate ErrorCode(c: Code) {
    c == MalformedDocument || c == IllegalCharacter
  }

  predicate StepResultOk(r: (Config, Verdict)) {
    ConfigOk(r.0) && (r.1.Stop? ==> ErrorCode(r.1.code))
  }

  lemma OpenOk(m: Config)
    requires ConfigOk(m)
    ensures ConfigOk(Open(m)) && Open(m).state != 1 && Open(m).state != 7
  {
  }

  lemma CloseTopOk(stack: seq<Frame>)
    requires |stack| >= 2
    requires Nested(stack)
    requires forall i | 0 <= i < |stack| :: FrameOk(stack[i])
    requires Top(stack).kind == String ==> |Top(stack).kids| == 1
    ensures var s := CloseTop(stack);
            && |s| == |stack| - 1
            && (s[0].kind == Object)
            && (forall i | 0 <= i < |s| - 1 :: s[i] == stack[i])
            && s[|s| - 1] == stack[|s| - 1].(kids := stack[|s| - 1].kids + [Closed(Top(stack))])
            && (forall i | 0 <= i < |s| :: FrameOk(s[i]))
  {
    var n := |stack|;
    var s := CloseTop(stack);
    assert MayHold(stack[n - 2], stack[n - 1].kind);
    assert FrameOk(stack[n - 1]) && FrameOk(stack[n - 2]);
    assert ValidKid(stack[n - 2].kind, Closed(Top(stack)));
  }

  lemma CloseContainerOk(m: Config)
    requires ConfigOk(m) && (2 <= m.state <= 3 || 8 <= m.state <= 9)
    ensures StepResultOk(CloseContainer(m)) && CloseContainer(m).1.Go?
  {
    var n := |m.stack|;
    if n >= 2 {
      assert MayHold(m.stack[n - 2], m.stack[n - 1].kind);
      CloseTopOk(m.stack);
      if m.stack[n - 2].kind == String {
        assert MayHold(m.stack[n - 3], m.stack[n - 2].kind);
        CloseTopOk(CloseTop(m.stack));
      }
    }
  }

  // The two ways back up: into an array, or through a label into its object.
  lemma CloseCases(m: Machine)
    requires (2 <= m.state <= 3 || 8 <= m.state <= 9)
    ensures m.stack != []
    ensures |m.stack| == 1 ==> CloseContainer(m) == (m.(state := 99), Go)
    ensures |m.stack| >= 2 ==>
              var s := CloseTop(m.stack);
              && |s| == |m.stack| - 1
              && (Top(s).kind == Array || Top(s).kind == String)
              && (Top(s).kind == Array ==> CloseContainer(m) == (m.(state := 9, stack := s), Go))
              && (Top(s).kind == String ==>
                    && |s| >= 2 && Top(CloseTop(s)).kind == Object
                    && CloseContainer(m) == (m.(state := 3, stack := CloseTop(s)), Go))
  {
    var n := |m.stack|;
    if n >= 2 {
      assert MayHold(m.stack[n - 2], m.stack[n - 1].kind);
      var s := CloseTop(m.stack);
      assert s[..n - 2] == m.stack[..n - 2];
      if m.stack[n - 2].kind == String {
        assert n >= 3 && MayHold(m.stack[n - 3], m.stack[n - 2].kind);
        assert CloseTop(s)[n - 3].kind == m.stack[n - 3].kind;
      }
    }
  }

  lemma AddLeafOk(m: Config, leaf: Tree)
    requires ConfigOk(m) && (m.state == 6 || m.state == 8) && ValidValue(leaf)
    ensures var s := AddKid(m.stack, leaf);
            && |s| == |m.stack|
            && Nested(s)
            && (forall i | 0 <= i < |s| :: FrameOk(s[i]))
            && Top(s).kind == Top(m.stack).kind && |Top(s).kids| == |Top(m.stack).kids| + 1
  {
    var s := AddKid(m.stack, leaf);
    forall i | 0 <= i < |s|
      ensures FrameOk(s[i])
    {
      assert FrameOk(m.stack[i]);
    }
  }

  lemma OpenLabelOk(m: Config)
    requires ConfigOk(m) && (m.state == 2 || m.state == 4) && m.lex.state == 0
    requires ValidStringText(TextOf(m.lex))
    ensures ConfigOk(OpenLabel(m))
  {
    var s := OpenLabel(m).stack;
    assert MayHold(Top(m.stack), String);
    forall i | 0 <= i < |s|
      ensures FrameOk(s[i])
    {
      assert i < |m.stack| ==> FrameOk(m.stack[i]);
    }
  }

  lemma LeafOk(m: Config, token: Token)
    requires ConfigOk(m) && (m.state == 6 || m.state == 8) && m.lex.state == 0
    requires LeafKind(token).Some?
    requires token == StringToken ==> ValidStringText(TextOf(m.lex))
    requires token == NumberToken ==> ValidNumberText(TextOf(m.lex))
    ensures StepResultOk(OnToken(m, token)) && OnToken(m, token).1.Go?
  {
    var leaf := LeafOf(token, m.lex);
    AddLeafOk(m, leaf);
    if m.state == 6 {
      assert MayHold(m.stack[|m.stack| - 2], String);
      CloseTopOk(AddKid(m.stack, leaf));
    }
  }

  // Any token the lexer can emit keeps the invariant, and the only codes a
  // token ends with are the two error codes of a bad document.
  lemma OnTokenOk(m: Config, token: Token)
    requires ConfigOk(m) && m.state != 1 && m.state != 7
    requires token == StringToken ==> ValidStringText(TextOf(m.lex))
    requires token == NumberToken ==> ValidNumberText(TextOf(m.lex))
    requires token != InvalidCharacter ==> m.lex.state == 0
    ensures StepResultOk(OnToken(m, token))
  {
    if (m.state == 2 || m.state == 3) && token == EndObject {
      CloseContainerOk(m);
    } else if 8 <= m.state <= 9 && token == EndArray {
      CloseContainerOk(m);
    } else if (m.state == 6 || m.state == 8) && LeafKind(token).Some? {
      LeafOk(m, token);
    } else if (m.state == 2 || m.state == 4) && token == StringToken {
      OpenLabelOk(m);
    } else {
      assert OnToken(m, token).0.stack == m.stack;
    }
  }

  lemma LabelFits(m: Machine)
    requires m.state == 2 || m.state == 4
    ensures m.stack != [] && Top(m.stack).kind == Object
  {
  }

  // A leaf goes under the cursor; a label that has got its value is finished too.
  lemma LeafFits(m: Machine, token: Token)
    requires (m.state == 6 || m.state == 8) && LeafKind(token).Some?
    ensures Grounded(m.state, m.stack) && m.stack != []
    ensures Top(m.stack).kind == (if m.state == 6 then String else Array)
    ensures var s := AddKid(m.stack, LeafOf(token, m.lex));
            && |s| == |m.stack|
            && (m.state == 6 ==>
                  && |m.stack| >= 2
                  && OnToken(m, token) == (Config(3, DropText(token, m.lex), CloseTop(s)), Go))
            && (m.state == 8 ==> OnToken(m, token) == (Config(9, DropText(token, m.lex), s), Go))
  {
  }

  lemma OpenFits(m: Machine)
    requires m.state == 1 || m.state == 7
    ensures m.state == 7 ==> m.stack != []
    ensures m.stack != [] ==> Top(m.stack).kind == Array || Top(m.stack).kind == String
  {
  }
}

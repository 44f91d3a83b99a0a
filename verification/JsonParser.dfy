/** json_parse_fragment on the heap: the pointers it moves follow the machine. */
module JsonParser {
  import opened Wrappers
  import opened JsonTree
  import opened JsonLexer
  import opened JsonMachine
  import opened JsonFeed
  import opened JsonHeap
  import opened JsonShape

  // struct json_parsing_info; p is an index into the current fragment.
  class ParsingInfo {
    var state: nat
    var lexState: nat
    var lexText: Option<string>
    var p: Option<nat>
    var line: nat
    var cursor: Node?
    ghost var shape: Shape

    function Lexer(): Lex
      reads this
    {
      Lex(lexState, lexText, line)
    }

    ghost function Value(): Config
      reads this
    {
      Config(state, Lexer(), shape.stack)
    }

    // The document part of the invariant.
    ghost predicate Attached()
      reads this, shape.family.Keys, shape.spine, shape.closed.Keys
    {
      ShapeOk(shape) && Holds(shape) && Reached(shape) && cursor == Cursor(shape)
    }

    ghost predicate Valid()
      reads this, shape.family.Keys, shape.spine, shape.closed.Keys
    {
      Attached() && ConfigOk(Value())
    }

    // json_jpi_init
    constructor ()
      ensures Valid() && Value() == INITIAL
      ensures shape == NO_SHAPE
    {
      state, lexState, lexText := 0, 0, None;
      p, line, cursor := None, 1, null;
      shape := NO_SHAPE;
    }

    // ----- the lexer -----

    method LexAt(buffer: string) returns (token: Token)
      requires p.Some? && p.value <= |buffer|
      modifies this`p, this`lexState, this`lexText, this`line
      ensures (Lexer(), token, p) == LexFrom(old(Lexer()), buffer, old(p.value))
    {
      while p.value < |buffer|
        invariant p.Some? && p.value <= |buffer|
        invariant LexFrom(Lexer(), buffer, p.value) == LexFrom(old(Lexer()), buffer, old(p.value))
        decreases |buffer| - p.value
      {
        var c := buffer[p.value];
        var r := LexChar(Lexer(), c);
        lexState, lexText, line := r.lex.state, r.lex.text, r.lex.line;
        if r.token != More {
          p := Some(if r.consumed then p.value + 1 else p.value);
          return r.token;
        }
        p := Some(p.value + 1);
      }
      p := None;
      return More;
    }
 

    // ----- the three moves -----

    // json_new_value, then json_insert_child under the cursor. The insertion never
    // fails on a cursor that may hold the node.
    method Attach(kind: Kind, text: string) returns (temp: Node, code: Code)
      requires Attached() && cursor != null && MayInsert(cursor.kind, kind, false)
      modifies shape.family.Keys
      ensures code == Ok
      ensures fresh(temp) && temp.kind == kind && temp.text == text
      ensures shape.spine != [] && Cursor(shape) in shape.family
      ensures WellLinked(Hang(shape, temp)) && Named(shape)
    {
      assert OpenAt(shape, |shape.spine| - 1);
      temp := new Node(kind, text);
      code := AttachNode(temp);
    }

    method AttachNode(temp: Node) returns (code: Code)
      requires Attached() && cursor != null && cursor in shape.family && temp !in shape.family
      requires Detached(temp) && temp.child == null && temp.childEnd == null
      requires MayInsert(cursor.kind, temp.kind, false)
      modifies shape.family.Keys, temp`parent, temp`previous
      ensures code == Ok
      ensures Cursor(shape) in shape.family
      ensures WellLinked(Hang(shape, temp)) && Named(shape)
    {
      hide Named;
      NewNodeIsLinked(shape.family, temp);
      LastHasParent(shape.family, cursor);
      code := InsertChild(cursor, temp, shape.family[temp := []]);
      NamedStays(shape);
    }

    // States 1 and 7, and a label: the new node becomes the cursor.
    method Descend(kind: Kind, text: string)
      requires Attached() && (cursor != null ==> MayInsert(cursor.kind, kind, false))
      modifies this`cursor, this`shape, shape.family.Keys
      ensures Attached() && shape.stack == old(shape.stack) + [Frame(kind, text, [])]
      ensures fresh(shape.family.Keys - old(shape.family.Keys))
    {
      hide ShapeOk, Named, WellLinked, Reached;
      Aligned(shape);
      ghost var s := shape;
      var temp: Node;
      if cursor == null {
        temp := new Node(kind, text);
        NewNodeIsLinked(s.family, temp);
      } else {
        var code;
        temp, code := Attach(kind, text);
      }
      PushOk(s, temp, Frame(kind, text, []));
      NamedPush(s, temp, Frame(kind, text, []));
      ReachedPush(s, temp, Frame(kind, text, []));
      cursor := temp;
      shape := Push(s, temp, Frame(kind, text, []));
    }

    // A leaf under the cursor, which stays where it is.
    method AddLeaf(kind: Kind, text: string)
      requires Attached() && cursor != null && MayInsert(cursor.kind, kind, false)
      modifies this`shape, shape.family.Keys
      ensures Attached() && old(shape.stack) != [] && shape.stack == AddKid(old(shape.stack), Tree(kind, text, []))
      ensures fresh(shape.family.Keys - old(shape.family.Keys)) && cursor in shape.family
    {
      hide ShapeOk, Named, WellLinked, Reached;
      Aligned(shape);
      ghost var s := shape;
      var temp, code := Attach(kind, text);
      NamedPut(s, temp, Tree(kind, text, []));
      ReachedPut(s, temp, Tree(kind, text, []));
      PutOk(s, temp, Tree(kind, text, []));
      shape := Put(s, temp, Tree(kind, text, []));
    }

    // info->cursor = info->cursor->parent
    method Ascend()
      requires Attached() && |shape.stack| >= 2
      modifies this`cursor, this`shape
      ensures Attached() && shape.stack == CloseTop(old(shape.stack)) && shape.family == old(shape.family)
      ensures cursor == old(cursor.parent)
    {
      hide ShapeOk, Named, WellLinked, Reached;
      Aligned(shape);
      PopOk(shape);
      NamedPop(shape);
      ReachedPop(shape);
      CursorParent(shape);
      cursor := cursor.parent;
      shape := Pop(shape);
    }

    // ----- what the parser does with a token -----

    // END_OBJECT and END_ARRAY. The tree checks the source makes here never fail.
    method CloseCursor() returns (v: Verdict)
      requires Valid() && (2 <= state <= 3 || 8 <= state <= 9)
      modifies this`cursor, this`shape, this`state
      ensures Attached() && shape.family == old(shape.family)
      ensures (Value(), v) == CloseContainer(old(Value())) && v.Go?
    {
      hide ShapeOk, Holds, Reached, ConfigOk, CloseContainer, CloseTop;
      CloseCases(Value());
      Aligned(shape);
      CursorFacts(shape);
      if cursor.parent == null {
        state := 99;
        v := Go;
      } else {
        Ascend();
        Aligned(shape);
        CursorFacts(shape);
        if cursor.kind == String {
          Ascend();
          Aligned(shape);
          CursorFacts(shape);
          v := if cursor.kind == Object then Go else Stop(BadTreeStructure);
          state := 3;
        } else {
          v := if cursor.kind == Array then Go else Stop(BadTreeStructure);
          state := 9;
        }
      }
    }

    // LEX_STRING in states 2 and 4
    method AddLabel()
      requires Valid() && (state == 2 || state == 4)
      modifies this`cursor, this`shape, this`state, this`lexText, shape.family.Keys
      ensures Attached() && Value() == OpenLabel(old(Value()))
      ensures fresh(shape.family.Keys - old(shape.family.Keys))
    {
      hide ShapeOk, Holds, Reached, Grounded;
      LabelFits(Value());
      Aligned(shape);
      CursorFacts(shape);
      Descend(String, if lexText.Some? then lexText.value else "");
      lexText := None;
      state := 5;
    }

    // The leaf cases of states 6 and 8
    method AddValue(token: Token) returns (v: Verdict)
      requires Valid() && (state == 6 || state == 8) && LeafKind(token).Some?
      modifies this`cursor, this`shape, this`state, this`lexText, shape.family.Keys
      ensures Attached() && (Value(), v) == OnToken(old(Value()), token)
      ensures fresh(shape.family.Keys - old(shape.family.Keys))
    {
      hide ShapeOk, Holds, Reached, OnToken, ConfigOk, AddKid, CloseTop;
      LeafFits(Value(), token);
      Aligned(shape);
      CursorFacts(shape);
      var leaf := LeafOf(token, Lexer());
      AddLeaf(leaf.kind, leaf.text);
      if CarriesText(token) {
        lexText := None;
      }
      if state == 6 {
        Ascend();
        state := 3;
      } else {
        state := 9;
      }
      v := Go;
    }

    // The switch of json_parse_fragment, for a state that reads a token.
    method OnTokenRead(token: Token) returns (v: Verdict)
      requires Valid() && state != 1 && state != 7
      requires Grounded(state, shape.stack) && ConfigOk(OnToken(Value(), token).0)
      modifies this`cursor, this`shape, this`state, this`lexText, shape.family.Keys
      ensures Valid() && (Value(), v) == OnToken(old(Value()), token)
      ensures fresh(shape.family.Keys - old(shape.family.Keys))
    {
      hide ShapeOk, Holds, Reached, ConfigOk, CloseContainer, OpenLabel;
      v := Go;
      if (state == 2 || state == 3) && token == EndObject {
        v := CloseCursor();
      } else if (state == 8 || state == 9) && token == EndArray {
        v := CloseCursor();
      } else if (state == 2 || state == 4) && token == StringToken {
        AddLabel();
      } else if (state == 6 || state == 8) && LeafKind(token).Some? {
        v := AddValue(token);
      } else if (state == 0 || state == 6 || state == 8) && token == BeginObject {
        state := 1;
      } else if (state == 6 || state == 8) && token == BeginArray {
        state := 7;
      } else if state == 3 && token == ValueSeparator {
        state := 4;
      } else if state == 5 && token == NameSeparator {
        state := 6;
      } else if state == 9 && token == ValueSeparator {
        state := 8;
      } else {
        v := Stop(CodeFor(state, token));
      }
    }

    // States 1 and 7
    method OpenContainer()
      requires Valid() && (state == 1 || state == 7)
      modifies this`cursor, this`shape, this`state, shape.family.Keys
      ensures Valid() && Value() == Open(old(Value())) && state != 1 && state != 7
      ensures fresh(shape.family.Keys - old(shape.family.Keys))
    {
      hide ShapeOk, Holds, Reached, ConfigOk;
      OpenOk(Value());
      OpenFits(Value());
      Aligned(shape);
      if shape.spine != [] { CursorFacts(shape); }
      if state == 1 {
        Descend(Object, "");
        state := 2;
      } else {
        Descend(Array, "");
        state := 8;
      }
    }

    // ----- fragments and documents -----

    // One token taken from the buffer and acted on.
    method ReadToken(buffer: string) returns (v: Verdict)
      requires Valid() && state != 1 && state != 7 && p.Some? && p.value < |buffer|
      modifies this, shape.family.Keys
      ensures Valid() && fresh(shape.family.Keys - old(shape.family.Keys))
      ensures v.Stop? ==> Feed(old(Value()), buffer[old(p.value)..]) == (Value(), v)
      ensures v.Go? && p == None ==> Feed(old(Value()), buffer[old(p.value)..]) == (Value(), Go) && state == old(state)
      ensures v.Go? && p.Some? ==>
                && old(p.value) <= p.value <= |buffer| && lexState == 0 && state != 0
                && (p.value == old(p.value) ==> old(lexState) != 0)
                && Feed(old(Value()), buffer[old(p.value)..]) == Feed(Value(), buffer[p.value..])
    {
      hide Feed, OnToken, ShapeOk, Holds, Reached, Grounded, LexFrom;
      ghost var m := Value();
      TokenByToken(m, buffer, p.value);
      LexFromOk(m.lex, buffer, p.value);
      var token := LexAt(buffer);
      v := Go;
      if token != More {
        TokenMovesOn(Value(), token);
        v := OnTokenRead(token);
      }
    }

    // json_parse_fragment
    method ParseFragment(buffer: string) returns (code: Code)
      requires Valid()
      modifies this, shape.family.Keys
      ensures Valid() && fresh(shape.family.Keys - old(shape.family.Keys))
      ensures (Value(), code) == Fragment(old(Value()), buffer)
    {
      hide Feed, Step, ShapeOk, Holds, Reached;
      ghost var m := Value();
      p := Some(0);
      assert buffer[0..] == buffer;
      while p.value < |buffer|
        invariant Valid() && fresh(shape.family.Keys - old(shape.family.Keys))
        invariant p.Some? && p.value <= |buffer| && (p.value > 0 ==> state != 0)
        invariant Feed(m, buffer) == Feed(Value(), buffer[p.value..])
        decreases |buffer| - p.value, lexState != 0, state == 1 || state == 7
      {
        if state == 1 || state == 7 {
          OpenFeed(Value(), buffer[p.value..]);
          OpenContainer();
        } else {
          var v := ReadToken(buffer);
          if v.Stop? {
            return v.code;
          }
          if p == None {
            return if state == 0 then MalformedDocument else AtEnd(state);
          }
        }
      }
      p := None;
      FeedNothing(Value());
      assert buffer[|buffer|..] == "";
      return AtEnd(state);
    }
  }
}

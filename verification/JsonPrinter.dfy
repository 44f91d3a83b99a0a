/** json_tree_to_string on the heap. */
module JsonPrinter {
  import opened Wrappers
  import opened JsonTree
  import opened JsonText
  import opened JsonHeap
  import opened JsonWalk
  import RcString

  // The nodes from the root to the cursor, and which kid leads from each to the next.
  datatype Spot = Spot(nodes: seq<Node>, path: seq<Down>)

  ghost predicate SpotOk(f: Family, trees: Trees, s: Spot) {
    && f.Keys == trees.Keys
    && |s.nodes| == |s.path| + 1
    && (forall i | 0 <= i < |s.nodes| :: s.nodes[i] in f)
    && (forall i | 0 <= i < |s.path| :: StepOk(f, trees, s, i))
    && (forall i | 0 <= i < |s.nodes| :: Work(trees[s.nodes[i]]) + i <= Work(trees[s.nodes[0]]))
  }

  ghost predicate StepOk(f: Family, trees: Trees, s: Spot, i: nat)
    requires i < |s.path| < |s.nodes| && s.nodes[i] in f && s.nodes[i] in trees
  {
    var d := s.path[i];
    && d.tree == trees[s.nodes[i]]
    && Descends(d.tree)
    && d.index < |d.tree.kids| == |f[s.nodes[i]]|
    && f[s.nodes[i]][d.index] == s.nodes[i + 1]
  }

  function Cursor(s: Spot): Node
    requires s.nodes != []
  {
    s.nodes[|s.nodes| - 1]
  }

  // The printer stands at s in the document f below root.
  ghost predicate Standing(f: Family, trees: Trees, root: Node, s: Spot)
    reads f.Keys, trees.Keys
  {
    Forest(f, trees) && SpotOk(f, trees, s) && s.nodes[0] == root
  }

  lemma PathIsOk(f: Family, trees: Trees, s: Spot)
    requires SpotOk(f, trees, s)
    ensures PathOk(s.path)
  {
    forall i | 0 <= i < |s.path|
      ensures Descends(s.path[i].tree) && s.path[i].index < |s.path[i].tree.kids|
    {
      assert StepOk(f, trees, s, i);
    }
  }

  // What the cursor's links say of its place.
  lemma CursorLinks(f: Family, trees: Trees, root: Node, s: Spot)
    requires Standing(f, trees, root, s)
    ensures PathOk(s.path) && |s.nodes| == |s.path| + 1 && f.Keys == trees.Keys
    ensures var c := Cursor(s);
            && c in f && c in trees && c.kind == trees[c].kind && c.text == trees[c].text
            && c.child == At(f[c], 0) && |f[c]| == |trees[c].kids|
            && (c == root <==> s.path == [])
            && (s.path != [] ==>
                  var d := s.path[|s.path| - 1];
                  var n := s.nodes[|s.path| - 1];
                  && c.parent == n && n.kind == d.tree.kind
                  && (c.previous == null <==> d.index == 0)
                  && c.next == At(f[n], d.index + 1)
                  && trees[c] == d.tree.kids[d.index])
  {
    hide PathOk, Work;
    PathIsOk(f, trees, s);
    var c := Cursor(s);
    assert Linked(c, f[c]);
    assert KidsAre(trees, f[c], trees[c].kids);
    if s.path != [] {
      var n := s.nodes[|s.path| - 1];
      assert StepOk(f, trees, s, |s.path| - 1);
      assert Linked(n, f[n]);
      assert KidsAre(trees, f[n], trees[n].kids);
    }
  }

  function Enter(s: Spot, t: Tree, kid: Node): Spot {
    Spot(s.nodes + [kid], s.path + [Down(t, 0)])
  }

  function Next(s: Spot, sibling: Node): Spot
    requires s.path != [] && s.nodes != []
  {
    Spot(s.nodes[..|s.nodes| - 1] + [sibling], Sibling(s.path))
  }

  function Leave(s: Spot): Spot
    requires s.path != [] && s.nodes != []
  {
    Spot(s.nodes[..|s.nodes| - 1], s.path[..|s.path| - 1])
  }

  lemma {:induction false} KidWork(kids: seq<Tree>, i: nat)
    requires i < |kids|
    ensures Work(kids[i]) <= WorkAll(kids)
  {
    if i > 0 { KidWork(kids[1..], i - 1); }
  }

  lemma EnterOk(f: Family, trees: Trees, root: Node, s: Spot)
    requires Standing(f, trees, root, s) && Descends(trees[Cursor(s)])
    ensures f[Cursor(s)] != [] && Standing(f, trees, root, Enter(s, trees[Cursor(s)], f[Cursor(s)][0]))
  {
    hide WellLinked, Labelled, WorkAll;
    var c := Cursor(s);
    assert KidsAre(trees, f[c], trees[c].kids);
    KidWork(trees[c].kids, 0);
    var e := Enter(s, trees[c], f[c][0]);
    forall i | 0 <= i < |e.path|
      ensures StepOk(f, trees, e, i)
    {
      assert i < |s.path| ==> StepOk(f, trees, s, i);
    }
  }

  lemma NextOk(f: Family, trees: Trees, root: Node, s: Spot, sibling: Node)
    requires Standing(f, trees, root, s) && s.path != []
    requires sibling == At(f[s.nodes[|s.path| - 1]], s.path[|s.path| - 1].index + 1)
    ensures Standing(f, trees, root, Next(s, sibling))
    ensures s.path[|s.path| - 1].index + 1 < |s.path[|s.path| - 1].tree.kids|
  {
    hide WellLinked, Labelled, WorkAll;
    var k := |s.path| - 1;
    var n := s.nodes[k];
    assert StepOk(f, trees, s, k);
    assert KidsAre(trees, f[n], trees[n].kids);
    KidWork(trees[n].kids, s.path[k].index + 1);
    var e := Next(s, sibling);
    forall i | 0 <= i < |e.path|
      ensures StepOk(f, trees, e, i)
    {
      assert StepOk(f, trees, s, i);
    }
  }

  lemma LeaveOk(f: Family, trees: Trees, root: Node, s: Spot)
    requires Standing(f, trees, root, s) && s.path != []
    ensures Standing(f, trees, root, Leave(s))
  {
    hide WellLinked, Labelled, Work, KidsAre;
    var e := Leave(s);
    forall i | 0 <= i < |e.path|
      ensures StepOk(f, trees, e, i)
    {
      assert StepOk(f, trees, s, i);
    }
  }

  function ParentKind(n: Node): Option<Kind>
    reads n, n.parent
  {
    if n.parent == null then None else Some(n.parent.kind)
  }

  // A node as far as opening it is concerned: which kids it has does not matter.
  ghost function Opened(n: Node): Tree
    reads n
  {
    Tree(n.kind, n.text, if n.child == null then [] else [Tree(Null, "", [])])
  }

  // The text case of state1; bad is a label without a value.
  method OpenString(cursor: Node, output: RcString.Buffer) returns (bad: bool)
    requires output.Valid() && cursor.kind == String
    modifies output, output.text
    ensures output.Valid() && (output.text == old(output.text) || fresh(output.text))
    ensures bad == Opener(Opened(cursor), ParentKind(cursor)).None?
    ensures !bad ==> output.Contents() == old(output.Contents()) + Opener(Opened(cursor), ParentKind(cursor)).value
  {
    ghost var before := output.Contents();
    output.CatChar('\"');
    output.CatString(cursor.text);
    output.CatChar('\"');
    assert output.Contents() == before + ("\"" + cursor.text + "\"");
    bad := false;
    if cursor.parent == null || cursor.parent.kind == Object {
      if cursor.child != null {
        output.CatChar(':');
        assert output.Contents() == before + ("\"" + cursor.text + "\":");
      } else {
        bad := true;
      }
    }
  }

  // state1 up to the first goto: what is written when the cursor is opened.
  method OpenValue(cursor: Node, output: RcString.Buffer) returns (bad: bool)
    requires output.Valid()
    modifies output, output.text
    ensures output.Valid() && (output.text == old(output.text) || fresh(output.text))
    ensures bad == Opener(Opened(cursor), ParentKind(cursor)).None?
    ensures !bad ==> output.Contents() == old(output.Contents()) + Opener(Opened(cursor), ParentKind(cursor)).value
  {
    bad := false;
    match cursor.kind
    case String => bad := OpenString(cursor, output);
    case Number => output.CatString(cursor.text);
    case Object => output.CatChar('{');
    case Array => output.CatChar('[');
    case True => output.CatString("true");
    case False => output.CatString("false");
    case Null => output.CatString("null");
  }

  // state2 before its goto
  method CloseValue(cursor: Node, output: RcString.Buffer)
    requires output.Valid()
    modifies output, output.text
    ensures output.Valid() && (output.text == old(output.text) || fresh(output.text))
    ensures output.Contents() == old(output.Contents()) + Closer(cursor.kind)
  {
    match cursor.kind
    case Object => output.CatChar('}');
    case Array => output.CatChar(']');
    case _ =>
  }

  // What the printer still has to write: from the opening of the cursor, or from its closing.
  ghost function Remaining(trees: Trees, s: Spot, opening: bool, top: Option<Kind>): Output
    requires s.nodes != [] && Cursor(s) in trees && PathOk(s.path)
  {
    var t := trees[Cursor(s)];
    if opening then
      Join(Some(Comma(s.path)),
           Join(Show(t, if s.path == [] then top else Some(s.path[|s.path| - 1].tree.kind)), TextAfter(s.path)))
    else
      Join(Some(Closer(t.kind)), TextAfter(s.path))
  }

  ghost function Effort(trees: Trees, s: Spot, opening: bool): nat
    requires s.nodes != [] && Cursor(s) in trees && PathOk(s.path)
  {
    (if opening then Work(trees[Cursor(s)]) else 1) + WorkAfter(s.path)
  }

  lemma OpenerOf(n: Node, t: Tree, parent: Option<Kind>)
    requires n.kind == t.kind && n.text == t.text && (n.child == null <==> t.kids == [])
    ensures Opener(Opened(n), parent) == Opener(t, parent)
  {
  }

  // The moves of state1 after writing, and what is then still to be written.
  lemma AfterOpening(f: Family, trees: Trees, root: Node, s: Spot, top: Option<Kind>)
    requires Standing(f, trees, root, s)
    ensures PathOk(s.path)
    ensures var t := trees[Cursor(s)];
            var parent := if s.path == [] then top else Some(s.path[|s.path| - 1].tree.kind);
            var written := Join(Some(Comma(s.path)), Opener(t, parent));
            if Descends(t) then
              && f[Cursor(s)] != []
              && var e := Enter(s, t, f[Cursor(s)][0]);
              && Standing(f, trees, root, e) && PathOk(e.path)
              && Effort(trees, e, true) < Effort(trees, s, true)
              && Remaining(trees, s, true, top) == Join(written, Remaining(trees, e, true, top))
            else
              && Effort(trees, s, false) < Effort(trees, s, true)
              && Remaining(trees, s, true, top) == Join(written, Remaining(trees, s, false, top))
  {
    hide Show, Opener, TextAfter, Standing, WorkAfter, WorkAll;
    CursorLinks(f, trees, root, s);
    var t := trees[Cursor(s)];
    var parent := if s.path == [] then top else Some(s.path[|s.path| - 1].tree.kind);
    if Descends(t) {
      EnterOk(f, trees, root, s);
      EnterFirst(f, trees, root, s);
      EnterKids(t, parent, s.path);
      EnterWork(t, s.path);
      var e := Enter(s, t, f[Cursor(s)][0]);
      var rest := Join(Show(t.kids[0], Some(t.kind)), TextAfter(e.path));
      NoComma(rest);
      JoinAssociative(Some(Comma(s.path)), Opener(t, parent), rest);
    } else {
      SkipKids(t, parent, s.path);
      JoinAssociative(Some(Comma(s.path)), Opener(t, parent), Join(Some(Closer(t.kind)), TextAfter(s.path)));
    }
  }

  lemma NoComma(o: Output)
    ensures Join(Some(""), o) == o
  {
    assert o.Some? ==> "" + o.value == o.value;
  }

  lemma EnterFirst(f: Family, trees: Trees, root: Node, s: Spot)
    requires Standing(f, trees, root, s) && Descends(trees[Cursor(s)])
    ensures f[Cursor(s)] != [] && f[Cursor(s)][0] in trees && trees[f[Cursor(s)][0]] == trees[Cursor(s)].kids[0]
  {
    assert KidsAre(trees, f[Cursor(s)], trees[Cursor(s)].kids);
  }

  // The moves of state2, and what is then still to be written.
  lemma AfterLast(trees: Trees, s: Spot, top: Option<Kind>)
    requires |s.nodes| == 1 && s.path == [] && Cursor(s) in trees
    ensures Remaining(trees, s, false, top) == Some(Closer(trees[Cursor(s)].kind))
  {
    var c := Closer(trees[Cursor(s)].kind);
    assert c + "" == c;
  }

  // The next sibling of the cursor.
  ghost function Follower(f: Family, s: Spot): Node?
    requires |s.nodes| == |s.path| + 1 && s.path != [] && s.nodes[|s.path| - 1] in f
  {
    At(f[s.nodes[|s.path| - 1]], s.path[|s.path| - 1].index + 1)
  }

  lemma ToSibling(f: Family, trees: Trees, root: Node, s: Spot, top: Option<Kind>)
    requires Standing(f, trees, root, s) && s.path != [] && Follower(f, s) != null
    ensures PathOk(s.path)
    ensures var e := Next(s, Follower(f, s));
            && Standing(f, trees, root, e) && PathOk(e.path)
            && Effort(trees, e, true) < Effort(trees, s, false)
            && Remaining(trees, s, false, top)
               == Join(Some(Closer(trees[Cursor(s)].kind)), Remaining(trees, e, true, top))
  {
    hide Show, Standing, WorkAll, TextAfter, WorkAfter;
    CursorLinks(f, trees, root, s);
    KidCount(f, trees, root, s);
    var e := Next(s, Follower(f, s));
    NextOk(f, trees, root, s, Follower(f, s));
    CursorLinks(f, trees, root, e);
    NextSibling(s.path);
    SiblingWork(s.path);
    assert e.path == Sibling(s.path) && Cursor(e) == Follower(f, s);
  }

  lemma ToParent(f: Family, trees: Trees, root: Node, s: Spot, top: Option<Kind>)
    requires Standing(f, trees, root, s) && s.path != [] && Follower(f, s) == null
    ensures PathOk(s.path)
    ensures var e := Leave(s);
            && Standing(f, trees, root, e) && PathOk(e.path)
            && Effort(trees, e, false) < Effort(trees, s, false)
            && Remaining(trees, s, false, top)
               == Join(Some(Closer(trees[Cursor(s)].kind)), Remaining(trees, e, false, top))
  {
    hide Show, Standing, WorkAll, TextAfter, WorkAfter;
    CursorLinks(f, trees, root, s);
    KidCount(f, trees, root, s);
    LeaveOk(f, trees, root, s);
    CursorLinks(f, trees, root, Leave(s));
    LeaveKids(s.path);
    LeaveWork(s.path);
    assert Cursor(Leave(s)) == s.nodes[|s.path| - 1];
  }

  lemma KidCount(f: Family, trees: Trees, root: Node, s: Spot)
    requires Standing(f, trees, root, s) && s.path != []
    ensures var d := s.path[|s.path| - 1];
            && s.nodes[|s.path| - 1] in f && s.nodes[|s.path| - 1] in trees
            && d.index < |f[s.nodes[|s.path| - 1]]| == |d.tree.kids|
            && d.tree == trees[s.nodes[|s.path| - 1]]
  {
    assert StepOk(f, trees, s, |s.path| - 1);
  }

  lemma JoinTexts(a: string, b: string, c: Output)
    ensures Join(Some(a), Join(Some(b), c)) == Join(Some(a + b), c)
  {
    JoinAssociative(Some(a), Some(b), c);
  }

  // The printer is at s, about to open or to close the cursor.
  ghost predicate Printing(f: Family, trees: Trees, root: Node, cursor: Node, s: Spot)
    reads f.Keys, trees.Keys
  {
    && Standing(f, trees, root, s) && PathOk(s.path) && |s.nodes| == |s.path| + 1
    && cursor == Cursor(s) && cursor in trees
  }

  // state1: down to the first kid, or on to closing this node.
  method OpenStep(cursor: Node, root: Node, output: RcString.Buffer,
                  ghost f: Family, ghost trees: Trees, ghost s: Spot)
    returns (bad: bool, next: Node, opening: bool, ghost e: Spot)
    requires Printing(f, trees, root, cursor, s) && output.Valid()
    modifies output, output.text
    ensures output.Valid() && (output.text == old(output.text) || fresh(output.text))
    ensures bad ==> Remaining(trees, s, true, ParentKind(root)).None?
    ensures !bad ==>
              && Printing(f, trees, root, next, e)
              && Effort(trees, e, opening) < Effort(trees, s, true)
              && Join(Some(output.Contents()), Remaining(trees, e, opening, ParentKind(root)))
                 == Join(Some(old(output.Contents())), Remaining(trees, s, true, ParentKind(root)))
  {
    hide Show, Standing, Opener, Remaining, Effort, Opened;
    ghost var t := trees[cursor];
    ghost var before := output.Contents();
    CursorLinks(f, trees, root, s);
    AfterOpening(f, trees, root, s, ParentKind(root));
    if cursor.previous != null && cursor != root {
      output.CatChar(',');
    }
    assert output.Contents() == before + Comma(s.path);
    OpenerOf(cursor, t, ParentKind(cursor));
    bad := OpenValue(cursor, output);
    next, opening, e := cursor, false, s;
    if !bad {
      ghost var written := Comma(s.path) + Opener(t, ParentKind(cursor)).value;
      assert output.Contents() == before + written;
      if (cursor.kind == String || cursor.kind == Object || cursor.kind == Array) && cursor.child != null {
        e := Enter(s, t, cursor.child);
        next, opening := cursor.child, true;
        CursorLinks(f, trees, root, e);
      }
      JoinTexts(before, written, Remaining(trees, e, opening, ParentKind(root)));
    }
  }

  // state2: to the next sibling, or up to close the parent, or done.
  method CloseStep(cursor: Node, root: Node, output: RcString.Buffer,
                   ghost f: Family, ghost trees: Trees, ghost s: Spot)
    returns (done: bool, next: Node, opening: bool, ghost e: Spot)
    requires Printing(f, trees, root, cursor, s) && output.Valid()
    modifies output, output.text
    ensures output.Valid() && (output.text == old(output.text) || fresh(output.text))
    ensures done ==>
              Some(output.Contents())
              == Join(Some(old(output.Contents())), Remaining(trees, s, false, ParentKind(root)))
    ensures !done ==>
              && Printing(f, trees, root, next, e)
              && Effort(trees, e, opening) < Effort(trees, s, false)
              && Join(Some(output.Contents()), Remaining(trees, e, opening, ParentKind(root)))
                 == Join(Some(old(output.Contents())), Remaining(trees, s, false, ParentKind(root)))
  {
    hide Show, Standing, Remaining, Effort;
    ghost var before := output.Contents();
    CursorLinks(f, trees, root, s);
    CloseValue(cursor, output);
    done, next, opening, e := false, cursor, false, s;
    if cursor.parent == null || cursor == root {
      AfterLast(trees, s, ParentKind(root));
      done := true;
    } else {
      if cursor.next != null {
        ToSibling(f, trees, root, s, ParentKind(root));
        e := Next(s, cursor.next);
        next, opening := cursor.next, true;
      } else {
        ToParent(f, trees, root, s, ParentKind(root));
        e := Leave(s);
        next := cursor.parent;
      }
      CursorLinks(f, trees, root, e);
      JoinTexts(before, Closer(cursor.kind), Remaining(trees, e, opening, ParentKind(root)));
    }
  }

  // json_tree_to_string. The text is what the recursive description gives, and a
  // label without a value is the only failure.
  method TreeToString(root: Node, ghost f: Family, ghost trees: Trees) returns (text: string, code: Code)
    requires Forest(f, trees) && root in f
    ensures code == if Show(trees[root], ParentKind(root)).Some? then Ok else BadTreeStructure
    ensures code == Ok ==> text == Show(trees[root], ParentKind(root)).value
  {
    hide Show, Standing, Forest, Remaining, Effort;
    var output := new RcString.Buffer(8);
    var cursor, opening := root, true;
    ghost var s := Spot([root], []);
    StartsStanding(f, trees, root);
    CursorLinks(f, trees, root, s);
    WholeRemains(trees, root, ParentKind(root));
    while true
      invariant fresh(output) && fresh(output.text) && output.Valid()
      invariant Printing(f, trees, root, cursor, s)
      invariant Join(Some(output.Contents()), Remaining(trees, s, opening, ParentKind(root)))
                == Show(trees[root], ParentKind(root))
      decreases Effort(trees, s, opening)
    {
      if opening {
        var bad;
        bad, cursor, opening, s := OpenStep(cursor, root, output, f, trees, s);
        if bad {
          return "", BadTreeStructure;
        }
      } else {
        var done;
        done, cursor, opening, s := CloseStep(cursor, root, output, f, trees, s);
        if done {
          break;
        }
      }
    }
    text := output.text[..output.length];
    code := Ok;
  }

  lemma StartsStanding(f: Family, trees: Trees, root: Node)
    requires Forest(f, trees) && root in f
    ensures Standing(f, trees, root, Spot([root], []))
  {
  }

  lemma WholeRemains(trees: Trees, root: Node, top: Option<Kind>)
    requires root in trees
    ensures Join(Some(""), Remaining(trees, Spot([root], []), true, top)) == Show(trees[root], top)
  {
    var o := Show(trees[root], top);
    assert o.Some? ==> "" + ("" + (o.value + "")) == o.value;
  }
}

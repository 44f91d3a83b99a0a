/** The unfinished document: finished subtrees, and the open nodes down to the cursor. */
module JsonShape {
  import opened JsonTree
  import opened JsonMachine
  import opened JsonHeap

  // The nodes and children of a document being parsed, the nodes from the root to
  // the cursor with the machine's stack beside them, and the trees of the rest.
  datatype Shape = Shape(family: Family, spine: seq<Node>, stack: seq<Frame>, closed: Trees)

  const NO_SHAPE: Shape := Shape(map[], [], [], map[])

  // The open node at depth i has its finished children first and the next open node last.
  ghost predicate OpenAt(s: Shape, i: int)
    requires 0 <= i < |s.spine| == |s.stack|
  {
    var n := s.spine[i];
    var done := |s.stack[i].kids|;
    && n in s.family && n !in s.closed
    && |s.family[n]| >= done
    && KidsAre(s.closed, s.family[n][..done], s.stack[i].kids)
    && s.family[n][done..] == (if i + 1 < |s.spine| then [s.spine[i + 1]] else [])
  }

  ghost predicate ShapeOk(s: Shape) {
    && InFamily(s.family)
    && |s.spine| == |s.stack|
    && (forall i, j | 0 <= i < j < |s.spine| :: s.spine[i] != s.spine[j])
    && (forall i | 0 <= i < |s.spine| :: OpenAt(s, i))
    && (forall n | n in s.closed :: n in s.family && KidsAre(s.closed, s.family[n], s.closed[n].kids))
    && (forall n | n in s.family :: n in s.closed || n in s.spine)
  }

  function Cursor(s: Shape): Node? {
    if s.spine == [] then null else s.spine[|s.spine| - 1]
  }

  // Types, texts and the root are as the shape says.
  ghost predicate Named(s: Shape)
    requires |s.spine| == |s.stack|
    reads s.spine, s.closed.Keys
  {
    && Labelled(s.closed)
    && (forall i | 0 <= i < |s.spine| :: s.spine[i].kind == s.stack[i].kind && s.spine[i].text == s.stack[i].text)
    && (s.spine != [] ==> Detached(s.spine[0]))
  }

  twostate lemma NamedStays(s: Shape)
    requires ShapeOk(s) && old(Named(s))
    requires forall n | n in s.family :: n.kind == old(n.kind) && n.text == old(n.text) && n.parent == old(n.parent)
    requires forall n | n in s.family && old(n.parent) == null :: n.next == old(n.next) && n.previous == old(n.previous)
    ensures Named(s)
  {
    forall i | 0 <= i < |s.spine|
      ensures s.spine[i] in s.family
    {
      assert OpenAt(s, i);
    }
  }

  // The heap agrees with the shape.
  ghost predicate Holds(s: Shape)
    requires |s.spine| == |s.stack|
    reads s.family.Keys, s.spine, s.closed.Keys
  {
    WellLinked(s.family) && Named(s)
  }

  ghost predicate HasParent(f: Family, n: Node) {
    exists p: Node :: p in f && n in f[p]
  }

  // No node is lost: each is the root or somebody's child.
  ghost predicate Reached(s: Shape) {
    forall n | n in s.family :: (s.spine != [] && n == s.spine[0]) || HasParent(s.family, n)
  }

  // ----- the three moves of the parser -----

  function Hang(s: Shape, n: Node): Family
    requires s.spine != [] ==> Cursor(s) in s.family
  {
    var f := s.family[n := []];
    if s.spine == [] then f
    else var c := s.spine[|s.spine| - 1]; f[c := f[c] + [n]]
  }

  // A new node under the cursor becomes the cursor.
  function Push(s: Shape, n: Node, frame: Frame): Shape
    requires s.spine != [] ==> Cursor(s) in s.family
  {
    Shape(Hang(s, n), s.spine + [n], s.stack + [frame], s.closed)
  }

  // A new finished node under the cursor.
  function Put(s: Shape, n: Node, leaf: Tree): Shape
    requires s.spine != [] && Cursor(s) in s.family && s.stack != []
  {
    Shape(Hang(s, n), s.spine, AddKid(s.stack, leaf), s.closed[n := leaf])
  }

  // The cursor is finished; its parent becomes the cursor.
  function Pop(s: Shape): Shape
    requires s.spine != [] && |s.stack| >= 2
  {
    Shape(s.family, s.spine[..|s.spine| - 1], CloseTop(s.stack),
        s.closed[s.spine[|s.spine| - 1] := Closed(Top(s.stack))])
  }

  lemma PushOk(s: Shape, n: Node, frame: Frame)
    requires ShapeOk(s) && n !in s.family && frame.kids == []
    ensures s.spine != [] ==> Cursor(s) in s.family
    ensures ShapeOk(Push(s, n, frame))
  {
    var k := |s.spine|;
    if k > 0 { assert OpenAt(s, k - 1); }
    forall i | 0 <= i < k
      ensures s.spine[i] != n
    {
      assert OpenAt(s, i);
    }
    var t := Push(s, n, frame);
    forall i | 0 <= i < |t.spine|
      ensures OpenAt(t, i)
    {
      if i < k { assert OpenAt(s, i); }
    }
  }

  lemma PutOk(s: Shape, n: Node, leaf: Tree)
    requires ShapeOk(s) && n !in s.family && s.spine != [] && leaf.kids == []
    ensures Cursor(s) in s.family
    ensures ShapeOk(Put(s, n, leaf))
  {
    var k := |s.spine|;
    assert OpenAt(s, k - 1);
    var t := Put(s, n, leaf);
    forall i | 0 <= i < k
      ensures OpenAt(t, i)
    {
      assert OpenAt(s, i);
      if i == k - 1 {
        var c := s.spine[i];
        assert t.family[c] == s.family[c] + [n];
        assert s.family[c] == s.family[c][..|s.stack[i].kids|];
      }
    }
  }

  lemma PopOk(s: Shape)
    requires ShapeOk(s) && |s.spine| >= 2
    ensures ShapeOk(Pop(s))
  {
    var k := |s.spine|;
    assert OpenAt(s, k - 1) && OpenAt(s, k - 2);
    var t := Pop(s);
    var c := s.spine[k - 1];
    assert s.family[c] == s.family[c][..|s.stack[k - 1].kids|];
    forall i | 0 <= i < k - 1
      ensures OpenAt(t, i)
    {
      assert OpenAt(s, i);
      if i == k - 2 {
        var p := s.spine[i];
        assert s.family[p] == s.family[p][..|s.stack[i].kids|] + [c];
      }
    }
  }

  lemma Aligned(s: Shape)
    requires ShapeOk(s)
    ensures |s.spine| == |s.stack|
  {
  }

  lemma NamedPush(s: Shape, n: Node, frame: Frame)
    requires |s.spine| == |s.stack| && Named(s) && (s.spine != [] ==> Cursor(s) in s.family)
    requires n.kind == frame.kind && n.text == frame.text && (s.spine == [] ==> Detached(n))
    ensures Named(Push(s, n, frame))
  {
  }

  lemma NamedPut(s: Shape, n: Node, leaf: Tree)
    requires |s.spine| == |s.stack| && Named(s) && s.spine != [] && Cursor(s) in s.family
    requires n.kind == leaf.kind && n.text == leaf.text
    ensures Named(Put(s, n, leaf))
  {
  }

  lemma NamedPop(s: Shape)
    requires |s.spine| == |s.stack| && Named(s) && |s.spine| >= 2
    ensures Named(Pop(s))
  {
  }

  lemma ReachedHang(s: Shape, n: Node)
    requires Reached(s) && n !in s.family && (s.spine != [] ==> Cursor(s) in s.family)
    ensures forall m | m in s.family && HasParent(s.family, m) :: HasParent(Hang(s, n), m)
    ensures s.spine != [] ==> HasParent(Hang(s, n), n)
  {
    var f := Hang(s, n);
    forall m | m in s.family && HasParent(s.family, m) ensures HasParent(f, m) {
      var p: Node :| p in s.family && m in s.family[p];
      assert p in f && m in f[p];
    }
    if s.spine != [] { assert n in f[s.spine[|s.spine| - 1]]; }
  }

  lemma ReachedPush(s: Shape, n: Node, frame: Frame)
    requires Reached(s) && n !in s.family && (s.spine != [] ==> Cursor(s) in s.family)
    ensures Reached(Push(s, n, frame))
  {
    hide HasParent;
    ReachedHang(s, n);
  }

  lemma ReachedPut(s: Shape, n: Node, leaf: Tree)
    requires Reached(s) && n !in s.family && s.spine != [] && Cursor(s) in s.family && s.stack != []
    ensures Reached(Put(s, n, leaf))
  {
    hide HasParent;
    ReachedHang(s, n);
  }

  lemma ReachedPop(s: Shape)
    requires Reached(s) && |s.spine| >= 2 && |s.stack| >= 2
    ensures Reached(Pop(s))
  {
    hide HasParent;
  }

  // The cursor's parent is the open node above it.
  lemma CursorParent(s: Shape)
    requires ShapeOk(s) && Holds(s) && |s.spine| >= 2
    ensures Cursor(s).parent == s.spine[|s.spine| - 2] == Cursor(Pop(s))
  {
    hide Named;
    var k := |s.spine|;
    assert OpenAt(s, k - 2);
    var kids := s.family[s.spine[k - 2]];
    assert kids[|s.stack[k - 2].kids|..][0] == s.spine[k - 1];
    assert Linked(s.spine[k - 2], kids);
  }

  lemma CursorFacts(s: Shape)
    requires ShapeOk(s) && Holds(s) && s.spine != []
    ensures Cursor(s) in s.family && Cursor(s).kind == Top(s.stack).kind
    ensures (Cursor(s).parent == null) == (|s.spine| == 1)
  {
    assert OpenAt(s, |s.spine| - 1);
    if |s.spine| >= 2 { CursorParent(s); }
  }
}

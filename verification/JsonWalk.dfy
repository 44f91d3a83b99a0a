/** The printer's walk over a tree, as values: what is still to be written from a position. */
module JsonWalk {
  import opened Wrappers
  import opened JsonTree
  import opened JsonText

  // Text, or None once a label without a value has been met.
  type Output = Option<string>

  function Join(a: Output, b: Output): Output {
    if a.Some? && b.Some? then Some(a.value + b.value) else None
  }

  // A position below the root: the kid of a tree that the walk has gone into, for
  // every level from the root down.
  datatype Down = Down(tree: Tree, index: nat)

  predicate Descends(t: Tree) {
    (t.kind == String || t.kind == Object || t.kind == Array) && t.kids != []
  }

  predicate PathOk(path: seq<Down>) {
    forall i | 0 <= i < |path| :: Descends(path[i].tree) && path[i].index < |path[i].tree.kids|
  }

  // What is written when a node is opened, before its kids.
  function Opener(t: Tree, parent: Option<Kind>): Output {
    match t.kind
    case String =>
      if parent == None || parent == Some(Object) then
        if t.kids == [] then None else Some("\"" + t.text + "\":")
      else Some("\"" + t.text + "\"")
    case Number => Some(t.text)
    case Object => Some("{")
    case Array => Some("[")
    case True => Some("true")
    case False => Some("false")
    case Null => Some("null")
  }

  function Closer(k: Kind): string {
    if k == Object then "}" else if k == Array then "]" else ""
  }

  // The kids after the first, each with its comma.
  function ShowTail(kids: seq<Tree>, parent: Kind): Output {
    if kids == [] then Some("")
    else Join(Join(Some(","), Show(kids[0], Some(parent))), ShowTail(kids[1..], parent))
  }

  // What is written after the node at the end of the path is finished.
  function TextAfter(path: seq<Down>): Output
    requires PathOk(path)
  {
    if path == [] then Some("")
    else
      var d := path[|path| - 1];
      Join(ShowTail(d.tree.kids[d.index + 1..], d.tree.kind),
          Join(Some(Closer(d.tree.kind)), TextAfter(path[..|path| - 1])))
  }

  lemma JoinAssociative(a: Output, b: Output, c: Output)
    ensures Join(Join(a, b), c) == Join(a, Join(b, c))
  {
    if a.Some? && b.Some? && c.Some? {
      assert (a.value + b.value) + c.value == a.value + (b.value + c.value);
    }
  }

  lemma {:induction false} ShowKidsAsTail(kids: seq<Tree>, parent: Kind)
    requires kids != []
    ensures ShowKids(kids, parent) == Join(Show(kids[0], Some(parent)), ShowTail(kids[1..], parent))
    decreases |kids|
  {
    hide Show;
    if |kids| == 1 {
      assert ShowKids(kids[1..], parent) == Some("");
      assert Show(kids[0], Some(parent)).Some? ==>
          Show(kids[0], Some(parent)).value + "" + "" == Show(kids[0], Some(parent)).value + "";
    } else {
      var rest := kids[1..];
      ShowKidsAsTail(rest, parent);
      JoinAssociative(Some(","), Show(rest[0], Some(parent)), ShowTail(rest[1..], parent));
      JoinAssociative(Show(kids[0], Some(parent)), Some(","), ShowKids(rest, parent));
    }
  }

  // A node is its opener, its kids if the walk goes into them, and its closer.
  lemma ShowByParts(t: Tree, parent: Option<Kind>)
    ensures Show(t, parent) ==
            Join(Opener(t, parent),
                Join(if Descends(t) then ShowKids(t.kids, t.kind) else Some(""), Some(Closer(t.kind))))
  {
    hide Show, ShowKids;
    ShowUnfolded(t, parent);
    NoKids(t.kind);
    match t.kind
    case String =>
      if ShowKids(t.kids, String).Some? {
        var inner := ShowKids(t.kids, String).value;
        assert "\"" + t.text + "\"" + ":" + inner == "\"" + t.text + "\":" + (inner + "");
        assert "\"" + t.text + "\"" + "" + inner == "\"" + t.text + "\"" + (inner + "");
      }
    case Object =>
    case Array =>
    case _ =>
      var o := Opener(t, parent);
      assert o.value + ("" + "") == o.value;
  }

  lemma NoKids(k: Kind)
    ensures ShowKids([], k) == Some("")
  {
  }

  lemma ShowUnfolded(t: Tree, parent: Option<Kind>)
    ensures Show(t, parent) ==
            if t.kind == String then
              var labelled := parent == None || parent == Some(Object);
              if labelled && t.kids == [] then None
              else Join(Some("\"" + t.text + "\"" + (if labelled then ":" else "")), ShowKids(t.kids, String))
            else if t.kind == Object || t.kind == Array then
              Join(Some(if t.kind == Object then "{" else "["), Join(ShowKids(t.kids, t.kind), Some(Closer(t.kind))))
            else Opener(t, parent)
  {
    if (t.kind == Object || t.kind == Array) && ShowKids(t.kids, t.kind).Some? {
      var inner := ShowKids(t.kids, t.kind).value;
      assert "{" + inner + "}" == "{" + (inner + "}");
      assert "[" + inner + "]" == "[" + (inner + "]");
    }
  }

  // ----- the walk's four moves -----

  function Comma(path: seq<Down>): string {
    if path != [] && path[|path| - 1].index > 0 then "," else ""
  }

  // Into the first kid.
  lemma EnterKids(t: Tree, parent: Option<Kind>, path: seq<Down>)
    requires PathOk(path) && Descends(t)
    ensures PathOk(path + [Down(t, 0)])
    ensures Join(Show(t, parent), TextAfter(path)) ==
            Join(Opener(t, parent), Join(Show(t.kids[0], Some(t.kind)), TextAfter(path + [Down(t, 0)])))
  {
    hide Show, ShowTail, Opener;
    var p := path + [Down(t, 0)];
    assert p[..|p| - 1] == path;
    var (o, k, tail, c) := (Opener(t, parent), Show(t.kids[0], Some(t.kind)), ShowTail(t.kids[1..], t.kind),
        Some(Closer(t.kind)));
    ShowByParts(t, parent);
    ShowKidsAsTail(t.kids, t.kind);
    JoinAssociative(o, Join(Join(k, tail), c), TextAfter(path));
    JoinAssociative(Join(k, tail), c, TextAfter(path));
    JoinAssociative(k, tail, Join(c, TextAfter(path)));
  }

  // No kids to go into.
  lemma SkipKids(t: Tree, parent: Option<Kind>, path: seq<Down>)
    requires PathOk(path) && !Descends(t)
    ensures Join(Show(t, parent), TextAfter(path)) ==
            Join(Opener(t, parent), Join(Some(Closer(t.kind)), TextAfter(path)))
  {
    hide Show, Opener, TextAfter;
    ShowByParts(t, parent);
    var c := Some(Closer(t.kind));
    assert "" + c.value == c.value;
    JoinAssociative(Opener(t, parent), c, TextAfter(path));
  }

  function Sibling(path: seq<Down>): seq<Down>
    requires path != []
  {
    path[..|path| - 1] + [path[|path| - 1].(index := path[|path| - 1].index + 1)]
  }

  // On to the next sibling.
  lemma NextSibling(path: seq<Down>)
    requires PathOk(path) && path != [] && path[|path| - 1].index + 1 < |path[|path| - 1].tree.kids|
    ensures PathOk(Sibling(path))
    ensures var d := path[|path| - 1];
            TextAfter(path)
            == Join(Some(","), Join(Show(d.tree.kids[d.index + 1], Some(d.tree.kind)), TextAfter(Sibling(path))))
  {
    hide Show;
    var d := path[|path| - 1];
    var p := Sibling(path);
    assert p[..|p| - 1] == path[..|path| - 1];
    var kids := d.tree.kids[d.index + 1..];
    assert kids[1..] == d.tree.kids[d.index + 2..];
    var (k, tail) := (Show(kids[0], Some(d.tree.kind)), ShowTail(kids[1..], d.tree.kind));
    var after := Join(Some(Closer(d.tree.kind)), TextAfter(path[..|path| - 1]));
    assert d.tree.kids[p[|p| - 1].index + 1..] == kids[1..];
    JoinAssociative(Join(Some(","), k), tail, after);
    JoinAssociative(Some(","), k, Join(tail, after));
    assert ShowTail(kids, d.tree.kind) == Join(Join(Some(","), k), tail);
    assert p[|p| - 1] == Down(d.tree, d.index + 1);
    assert TextAfter(p) == Join(tail, after);
  }

  // Back to the parent after the last sibling.
  lemma LeaveKids(path: seq<Down>)
    requires PathOk(path) && path != [] && path[|path| - 1].index + 1 == |path[|path| - 1].tree.kids|
    ensures var d := path[|path| - 1];
            TextAfter(path) == Join(Some(Closer(d.tree.kind)), TextAfter(path[..|path| - 1]))
  {
    var d := path[|path| - 1];
    assert d.tree.kids[d.index + 1..] == [];
    var after := Join(Some(Closer(d.tree.kind)), TextAfter(path[..|path| - 1]));
    assert after.Some? ==> "" + after.value == after.value;
  }

  // ----- the walk ends -----

  function Work(t: Tree): nat {
    2 + WorkAll(t.kids)
  }

  function WorkAll(kids: seq<Tree>): nat {
    if kids == [] then 0 else Work(kids[0]) + WorkAll(kids[1..])
  }

  function WorkAfter(path: seq<Down>): nat
    requires PathOk(path)
  {
    if path == [] then 0
    else
      var d := path[|path| - 1];
      WorkAll(d.tree.kids[d.index + 1..]) + 1 + WorkAfter(path[..|path| - 1])
  }

  lemma EnterWork(t: Tree, path: seq<Down>)
    requires PathOk(path) && Descends(t)
    ensures PathOk(path + [Down(t, 0)])
    ensures Work(t.kids[0]) + WorkAfter(path + [Down(t, 0)]) < Work(t) + WorkAfter(path)
  {
    var p := path + [Down(t, 0)];
    assert p[..|p| - 1] == path;
  }

  lemma SiblingWork(path: seq<Down>)
    requires PathOk(path) && path != [] && path[|path| - 1].index + 1 < |path[|path| - 1].tree.kids|
    ensures PathOk(Sibling(path))
    ensures var d := path[|path| - 1]; Work(d.tree.kids[d.index + 1]) + WorkAfter(Sibling(path)) == WorkAfter(path)
  {
    var d := path[|path| - 1];
    var p := Sibling(path);
    assert p[..|p| - 1] == path[..|path| - 1];
    assert d.tree.kids[d.index + 1..][1..] == d.tree.kids[d.index + 2..];
  }

  lemma LeaveWork(path: seq<Down>)
    requires PathOk(path) && path != [] && path[|path| - 1].index + 1 == |path[|path| - 1].tree.kids|
    ensures WorkAfter(path) == 1 + WorkAfter(path[..|path| - 1])
  {
    var d := path[|path| - 1];
    assert d.tree.kids[d.index + 1..] == [];
  }
}

/** Document nodes on the heap, their links, and the insertion of a child. */
module JsonHeap {
  import opened JsonTree

  // json_t
  class Node {
    var kind: Kind
    var text: string
    var next: Node?
    var previous: Node?
    var parent: Node?
    var child: Node?
    var childEnd: Node?

    // json_new_value, and the text its caller sets
    constructor (kind: Kind, text: string)
      ensures this.kind == kind && this.text == text
      ensures next == null && previous == null && parent == null && child == null && childEnd == null
    {
      this.kind := kind;
      this.text := text;
      next, previous, parent, child, childEnd := null, null, null, null, null;
    }
  }

  // Which children each node of a document has, in sibling order.
  type Family = map<Node, seq<Node>>

  ghost function At(kids: seq<Node>, i: int): Node? {
    if 0 <= i < |kids| then kids[i] else null
  }

  // The five links of a parent and its children agree with the sequence of children.
  ghost predicate Linked(n: Node, kids: seq<Node>)
    reads n, kids
  {
    && n.child == At(kids, 0)
    && n.childEnd == At(kids, |kids| - 1)
    && (forall i, j | 0 <= i < j < |kids| :: kids[i] != kids[j])
    && (forall i {:trigger kids[i].parent} | 0 <= i < |kids| :: kids[i].parent == n)
    && (forall i {:trigger kids[i].previous} | 0 <= i < |kids| :: kids[i].previous == At(kids, i - 1))
    && (forall i {:trigger kids[i].next} | 0 <= i < |kids| :: kids[i].next == At(kids, i + 1))
  }

  ghost predicate InFamily(f: Family) {
    forall n, i | n in f && 0 <= i < |f[n]| :: f[n][i] in f
  }

  ghost predicate WellLinked(f: Family)
    reads f.Keys
  {
    InFamily(f) && forall n | n in f :: Linked(n, f[n])
  }

  // What json_insert_child accepts; hasChild is whether the child has children itself.
  predicate MayInsert(parent: Kind, child: Kind, hasChild: bool) {
    match parent
    case String => child == Object || child == Array || !hasChild
    case Object => child == String
    case Array => child == Object || child == Array || !hasChild
    case _ => false
  }

  // A node may be inserted exactly where some document has it: a label under an object, a
  // container or a leaf under a label or an array, and nothing under a leaf.
  lemma MayInsertIs(parent: Kind, child: Kind, hasChild: bool)
    ensures parent == Object ==> (MayInsert(parent, child, hasChild) <==> child == String)
    ensures parent == Number || parent == True || parent == False || parent == Null ==>
              !MayInsert(parent, child, hasChild)
    ensures parent == String || parent == Array ==>
              (!MayInsert(parent, child, hasChild) <==> hasChild && child != Object && child != Array)
  {
  }

  lemma EndsTogether(f: Family, n: Node)
    requires WellLinked(f) && n in f
    ensures n.child == null <==> n.childEnd == null
    ensures n.childEnd != null ==> n.childEnd in f
  {
    assert Linked(n, f[n]);
  }

  lemma LastHasParent(f: Family, n: Node)
    requires WellLinked(f) && n in f
    ensures n.childEnd != null ==> n.childEnd.parent == n
  {
    assert Linked(n, f[n]);
  }

  ghost predicate Detached(n: Node)
    reads n
  {
    n.parent == null && n.next == null && n.previous == null
  }

  ghost function LastOf(n: Node): set<Node>
    reads n
  {
    if n.childEnd == null then {} else {n.childEnd}
  }

  // The tail of json_insert_child: the pointer updates.
  method LinkLast(parent: Node, child: Node)
    requires parent != child && child.next == null && child.previous == null
    requires parent.child == null <==> parent.childEnd == null
    modifies parent`child, parent`childEnd, child`parent, child`previous, LastOf(parent)`next
    ensures child.parent == parent && child.previous == old(parent.childEnd)
    ensures parent.childEnd == child
    ensures parent.child == if old(parent.child) == null then child else old(parent.child)
    ensures old(parent.childEnd) != null ==> old(parent.childEnd).next == child
  {
    child.parent := parent;
    if parent.child != null {
      child.previous := parent.childEnd;
      parent.childEnd.next := child;
      parent.childEnd := child;
    } else {
      parent.child := child;
      parent.childEnd := child;
    }
  }

  // json_insert_child
  method InsertChild(parent: Node, child: Node, ghost f: Family) returns (code: Code)
    requires WellLinked(f) && parent in f && child in f && parent != child && Detached(child)
    modifies parent`child, parent`childEnd, child`parent, child`previous, LastOf(parent)`next
    ensures code == if MayInsert(parent.kind, child.kind, old(child.child) != null) then Ok else BadTreeStructure
    ensures code == Ok ==> child.parent == parent && WellLinked(f[parent := f[parent] + [child]])
    ensures code != Ok ==> WellLinked(f) && Detached(child)
  {
    if !MayInsert(parent.kind, child.kind, child.child != null) {
      return BadTreeStructure;
    }
    hide WellLinked, Linked;
    EndsTogether(f, parent);
    LinkLast(parent, child);
    InsertionIsWellLinked(Insertion(f, parent, child));
    return Ok;
  }

  // The arguments of an insertion: the family before it, and the two nodes.
  datatype Insertion = Insertion(f: Family, parent: Node, child: Node)

  // What LinkLast does to the nodes of a family.
  twostate predicate OnlyLastLinked(x: Insertion)
    reads x.parent, x.child, x.f.Keys
  {
    var (f, parent, child) := (x.f, x.parent, x.child);
    && parent in f && child in f && parent != child
    && child.parent == parent && child.previous == old(parent.childEnd) && child.next == null
    && parent.childEnd == child
    && parent.child == (if old(parent.child) == null then child else old(parent.child))
    && (var last := old(parent.childEnd); last != null && last in f ==> last.next == child)
    && (forall n | n in f && n != parent :: n.child == old(n.child) && n.childEnd == old(n.childEnd))
    && (forall n {:trigger n.next} | n in f && n != old(parent.childEnd) :: n.next == old(n.next))
    && (forall n {:trigger n.parent} | n in f && n != child :: n.parent == old(n.parent))
    && (forall n {:trigger n.previous} | n in f && n != child :: n.previous == old(n.previous))
  }

  twostate lemma OthersStayLinked(x: Insertion)
    requires OnlyLastLinked(x) && old(WellLinked(x.f)) && old(x.child.parent) == null
    ensures forall n | n in x.f && n != x.parent :: Linked(n, x.f[n])
  {
    var kids := x.f[x.parent];
    assert old(Linked(x.parent, kids));
    forall n | n in x.f && n != x.parent
      ensures Linked(n, x.f[n])
    {
      var ns := x.f[n];
      assert old(Linked(n, ns));
      forall i | 0 <= i < |ns|
        ensures ns[i] != x.child && ns[i] !in kids
      {
        assert old(ns[i].parent) == n;
      }
    }
  }

  twostate lemma KidsBefore(x: Insertion)
    requires x.parent in x.f && old(WellLinked(x.f)) && old(x.child.parent) == null
    ensures old(Linked(x.parent, x.f[x.parent])) && x.child !in x.f[x.parent]
    ensures forall k | k in x.f[x.parent] :: k in x.f
  {
    assert old(Linked(x.parent, x.f[x.parent]));
    assert forall i {:trigger x.f[x.parent][i]} | 0 <= i < |x.f[x.parent]| :: old(x.f[x.parent][i].parent) == x.parent;
  }

  twostate lemma ParentStaysLinked(x: Insertion)
    requires OnlyLastLinked(x) && old(WellLinked(x.f)) && old(x.child.parent) == null
    ensures Linked(x.parent, x.f[x.parent] + [x.child])
  {
    hide WellLinked;
    KidsBefore(x);
    var kids := x.f[x.parent];
    var all := kids + [x.child];
    forall i | 0 <= i < |all|
      ensures all[i].parent == x.parent && all[i].previous == At(all, i - 1) && all[i].next == At(all, i + 1)
    {
      assert i < |kids| ==>
          && all[i] == kids[i] && kids[i] in kids && old(kids[i].parent) == x.parent
          && old(kids[i].next) == At(kids, i + 1) && old(kids[i].previous) == At(kids, i - 1);
    }
  }

  twostate lemma InsertionIsWellLinked(x: Insertion)
    requires OnlyLastLinked(x) && old(WellLinked(x.f)) && old(x.child.parent) == null
    ensures WellLinked(x.f[x.parent := x.f[x.parent] + [x.child]])
  {
    hide Linked;
    OthersStayLinked(x);
    ParentStaysLinked(x);
  }

  lemma NewNodeIsLinked(f: Family, n: Node)
    requires WellLinked(f) && n !in f && n.child == null && n.childEnd == null
    ensures WellLinked(f[n := []])
  {
    forall m | m in f
      ensures Linked(m, f[m])
    {
    }
  }

  // ----- nodes and the trees they stand for -----

  // Since a tree is larger than its subtrees, no node of a forest is its own descendant.
  type Trees = map<Node, Tree>

  ghost predicate KidsAre(trees: Trees, nodes: seq<Node>, kids: seq<Tree>) {
    && |nodes| == |kids|
    && forall i | 0 <= i < |nodes| :: nodes[i] in trees && trees[nodes[i]] == kids[i]
  }

  ghost predicate Labelled(trees: Trees)
    reads trees.Keys
  {
    forall n | n in trees :: n.kind == trees[n].kind && n.text == trees[n].text
  }

  // Every node of f stands for its tree in trees.
  ghost predicate Forest(f: Family, trees: Trees)
    reads f.Keys, trees.Keys
  {
    && f.Keys == trees.Keys
    && WellLinked(f)
    && Labelled(trees)
    && forall n | n in f :: KidsAre(trees, f[n], trees[n].kids)
  }
}

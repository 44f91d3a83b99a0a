/** json_free_value and intern_json_free_value on the heap. */
module JsonFreeHeap {
  import opened JsonHeap
  import opened JsonFree

  ghost function Singleton(n: Node?): set<Node> {
    if n == null then {} else {n}
  }

  // The pointer updates of intern_json_free_value.
  method Unlink(value: Node)
    requires value.child == null && value.parent != value
    requires value.previous != value && value.next != value && (value.previous == null || value.previous != value.next)
    modifies Singleton(value.previous)`next, Singleton(value.next)`previous
    modifies Singleton(value.parent)`child, Singleton(value.parent)`childEnd
    ensures value.previous != null ==> value.previous.next == value.next
    ensures value.next != null ==> value.next.previous == value.previous
    ensures value.parent != null ==>
              && value.parent.child
                 == (if old(value.parent.child) == value then value.next else old(value.parent.child))
              && value.parent.childEnd
                 == (if old(value.parent.childEnd) == value then value.previous else old(value.parent.childEnd))
  {
    if value.previous != null && value.next != null {
      value.previous.next := value.next;
      value.next.previous := value.previous;
    } else {
      if value.previous != null {
        value.previous.next := null;
      }
      if value.next != null {
        value.next.previous := null;
      }
    }
    if value.parent != null {
      if value.parent.child == value {
        value.parent.child := if value.next != null then value.next else null;
      }
      if value.parent.childEnd == value {
        value.parent.childEnd := if value.previous != null then value.previous else null;
      }
    }
  }

  // A node to be taken out of a family: child number i of p, or a root.
  datatype Removal = Removal(g: Family, p: Node?, v: Node, i: nat)

  ghost predicate Placed(x: Removal)
    reads x.v
  {
    && x.v in x.g && x.p != x.v && x.v.parent == x.p
    && (x.p == null ==> x.v.next == null && x.v.previous == null)
    && (x.p != null ==> x.p in x.g && x.i < |x.g[x.p]| && x.g[x.p][x.i] == x.v)
  }

  ghost function Remainder(x: Removal): Family
    requires x.p != null ==> x.p in x.g && x.i < |x.g[x.p]|
  {
    Without(x.g, x.p, x.v, x.i)
  }

  // What Unlink does to the nodes of a family.
  twostate predicate OnlyUnlinked(x: Removal)
    reads x.v, x.g.Keys
  {
    && old(Placed(x))
    && (forall n {:trigger n.next} | n in x.g ::
          n.next == if n == old(x.v.previous) then old(x.v.next) else old(n.next))
    && (forall n {:trigger n.previous} | n in x.g ::
          n.previous == if n == old(x.v.next) then old(x.v.previous) else old(n.previous))
    && (forall n {:trigger n.parent} | n in x.g :: n.parent == old(n.parent))
    && (forall n {:trigger n.child} | n in x.g ::
          n.child == if n == x.p && old(n.child) == x.v then old(x.v.next) else old(n.child))
    && (forall n {:trigger n.childEnd} | n in x.g ::
          n.childEnd == if n == x.p && old(n.childEnd) == x.v then old(x.v.previous) else old(n.childEnd))
  }

  // Nodes of other families are not neighbours of v.
  twostate lemma NotNeighbours(x: Removal)
    requires old(Placed(x)) && old(WellLinked(x.g))
    ensures forall n, j | n in x.g && n != x.p && 0 <= j < |x.g[n]| ::
              var k := x.g[n][j]; k != x.v && k != old(x.v.previous) && k != old(x.v.next)
  {
    if x.p != null { assert old(Linked(x.p, x.g[x.p])); }
    forall n, j | n in x.g && n != x.p && 0 <= j < |x.g[n]|
      ensures x.g[n][j] != x.v && x.g[n][j] != old(x.v.previous) && x.g[n][j] != old(x.v.next)
    {
      assert old(Linked(n, x.g[n]));
      assert old(x.g[n][j].parent) == n;
    }
  }

  twostate lemma OthersStayLinked(x: Removal)
    requires OnlyUnlinked(x) && old(WellLinked(x.g))
    ensures forall n | n in x.g && n != x.p && n != x.v :: Linked(n, x.g[n])
  {
    NotNeighbours(x);
    forall n | n in x.g && n != x.p && n != x.v
      ensures Linked(n, x.g[n])
    {
      assert old(Linked(n, x.g[n]));
    }
  }

  twostate lemma ParentStaysLinked(x: Removal)
    requires OnlyUnlinked(x) && x.p != null && old(Linked(x.p, x.g[x.p])) && forall k | k in x.g[x.p] :: k in x.g
    ensures Linked(x.p, x.g[x.p][..x.i] + x.g[x.p][x.i + 1..])
  {
    var ks := x.g[x.p];
    var rest := ks[..x.i] + ks[x.i + 1..];
    assert old(x.v.previous) == At(ks, x.i - 1) && old(x.v.next) == At(ks, x.i + 1);
    forall j | 0 <= j < |rest|
      ensures rest[j].parent == x.p && rest[j].previous == At(rest, j - 1) && rest[j].next == At(rest, j + 1)
    {
      var k := if j < x.i then j else j + 1;
      assert ks[k] in ks;
      assert rest[j] == ks[k] && old(ks[k].parent) == x.p;
      assert old(ks[k].next) == At(ks, k + 1) && old(ks[k].previous) == At(ks, k - 1);
    }
  }

  twostate lemma ParentBefore(x: Removal)
    requires old(Placed(x)) && old(WellLinked(x.g))
    ensures x.p != null ==> x.p in x.g && old(Linked(x.p, x.g[x.p])) && forall k | k in x.g[x.p] :: k in x.g
  {
  }

  twostate lemma RemovalIsWellLinked(x: Removal)
    requires OnlyUnlinked(x) && old(WellLinked(x.g))
    ensures WellLinked(Remainder(x))
  {
    hide Linked;
    OthersStayLinked(x);
    RemainderInFamily(x);
    ParentBefore(x);
    if x.p != null { ParentStaysLinked(x); }
  }

  twostate lemma RemainderInFamily(x: Removal)
    requires OnlyUnlinked(x) && old(WellLinked(x.g))
    ensures InFamily(Remainder(x))
  {
    NotNeighbours(x);
    if x.p != null { assert old(Linked(x.p, x.g[x.p])); }
    var h := Remainder(x);
    forall n, j | n in h && 0 <= j < |h[n]|
      ensures h[n][j] in h
    {
      var k := if n == x.p && j >= x.i then j + 1 else j;
      assert h[n][j] == x.g[n][k];
    }
  }

  lemma PlacedFamily(x: Removal)
    requires WellLinked(x.g) && Placed(x)
    ensures Linked(x.v, x.g[x.v])
    ensures x.p != null ==> x.p in x.g && Linked(x.p, x.g[x.p]) && forall k | k in x.g[x.p] :: k in x.g
  {
  }

  lemma PlacedLinks(x: Removal)
    requires WellLinked(x.g) && Placed(x)
    ensures x.g[x.v] == [] ==> x.v.child == null
    ensures x.v.previous != x.v && x.v.next != x.v && (x.v.previous == null || x.v.previous != x.v.next)
    ensures x.v.previous != null ==> x.v.previous in x.g && x.v.previous.parent == x.p
    ensures x.v.next != null ==> x.v.next in x.g && x.v.next.parent == x.p
    ensures x.p != null ==> x.p in x.g
  {
    hide WellLinked;
    PlacedFamily(x);
    if x.p != null {
      var ks := x.g[x.p];
      assert ks[x.i].previous == At(ks, x.i - 1) && ks[x.i].next == At(ks, x.i + 1);
      assert At(ks, x.i - 1) != null ==> ks[x.i - 1] in ks && ks[x.i - 1].parent == x.p;
      assert At(ks, x.i + 1) != null ==> ks[x.i + 1] in ks && ks[x.i + 1].parent == x.p;
    }
  }

  // intern_json_free_value: the node leaves its family, which stays well linked.
  method InternFree(value: Node, ghost x: Removal)
    requires WellLinked(x.g) && Placed(x) && x.v == value && x.g[value] == []
    modifies x.g.Keys`next, x.g.Keys`previous, x.g.Keys`child, x.g.Keys`childEnd
    ensures WellLinked(Remainder(x))
    ensures forall n | n in x.g && n.parent != value.parent :: n.next == old(n.next) && n.previous == old(n.previous)
  {
    hide WellLinked;
    PlacedLinks(x);
    Unlink(value);
    RemovalIsWellLinked(x);
  }

  lemma LinkedHasOneParent(g: Family)
    requires WellLinked(g)
    ensures OneParent(g)
  {
    forall m, n, i, j | m in g && n in g && 0 <= i < |g[m]| && 0 <= j < |g[n]| && g[m][i] == g[n][j]
      ensures m == n && i == j
    {
      assert Linked(m, g[m]) && Linked(n, g[n]);
      assert g[m][i].parent == m && g[n][j].parent == n;
    }
  }

  // How far the freeing has got: the nodes on the way to the cursor, what is freed,
  // and the family that is left.
  ghost predicate Freeing(f: Family, rank: Ranks, root: Node, g: Family, ns: seq<Node>, freed: seq<Node>)
  {
    && Ranked(f, rank) && root in f
    && Ranked(g, rank) && OneParent(g) && Leftmost(g, ns) && ns[0] == root
    && Post(f, rank, root) == freed + Post(g, rank, root)
    && g.Keys == (set n | n in f && n !in freed)
    && (forall n | n in f && n !in Post(f, rank, root) :: n in g && g[n] == f[n])
  }

  lemma FreeingStarts(f: Family, rank: Ranks, root: Node)
    requires Ranked(f, rank) && OneParent(f) && root in f
    ensures Freeing(f, rank, root, f, [root], [])
  {
    assert [] + Post(f, rank, root) == Post(f, rank, root);
  }

  lemma FreeingDescends(f: Family, rank: Ranks, root: Node, g: Family, ns: seq<Node>, freed: seq<Node>)
    requires Freeing(f, rank, root, g, ns, freed) && g[ns[|ns| - 1]] != []
    ensures Freeing(f, rank, root, g, ns + [g[ns[|ns| - 1]][0]], freed)
    ensures g[ns[|ns| - 1]][0] in rank && rank[g[ns[|ns| - 1]][0]] < rank[ns[|ns| - 1]]
  {
    hide Post, OneParent;
  }

  lemma FreeingAdvances(f: Family, rank: Ranks, root: Node, g: Family, ns: seq<Node>, freed: seq<Node>)
    requires Freeing(f, rank, root, g, ns, freed) && g[ns[|ns| - 1]] == [] && |ns| >= 2
    ensures g[ns[|ns| - 2]] != [] && g[ns[|ns| - 2]][0] == ns[|ns| - 1] && ns[|ns| - 1] != root
    ensures Freeing(f, rank, root, Without(g, ns[|ns| - 2], ns[|ns| - 1], 0), ns[..|ns| - 1], freed + [ns[|ns| - 1]])
  {
    hide Post, OneParent, Ranked;
    var (p, c) := (ns[|ns| - 2], ns[|ns| - 1]);
    Hop(g, ns, |ns| - 1);
    LeftmostRanks(g, rank, ns, 0, |ns| - 1);
    WithoutLeaf(g, rank, ns);
    LeafIsNext(g, rank, ns, 0);
    LeftmostInPost(g, rank, ns, 0, |ns| - 1);
    LeftmostInPost(g, rank, ns, 0, |ns| - 2);
    var h := Without(g, p, c, 0);
    assert freed + ([c] + Post(h, rank, root)) == freed + [c] + Post(h, rank, root);
    assert c in freed + Post(g, rank, root) && p in freed + Post(g, rank, root);
    forall n | n in f && n !in Post(f, rank, root)
      ensures n in h && h[n] == f[n]
    {
    }
  }

  // What the cursor's links say while freeing.
  lemma CursorAt(f: Family, rank: Ranks, root: Node, g: Family, ns: seq<Node>, freed: seq<Node>)
    requires Freeing(f, rank, root, g, ns, freed) && WellLinked(g)
    ensures ns != [] && ns[0] == root && ns[|ns| - 1] in g && ns[|ns| - 1] in rank
    ensures ns[|ns| - 1].child == At(g[ns[|ns| - 1]], 0)
    ensures |ns| >= 2 ==>
              && ns[|ns| - 1] != root
              && ns[|ns| - 2] in g && ns[|ns| - 2] in rank
              && Placed(Removal(g, ns[|ns| - 2], ns[|ns| - 1], 0))
  {
    hide Post, OneParent;
    var c := ns[|ns| - 1];
    assert Linked(c, g[c]);
    if |ns| >= 2 {
      Hop(g, ns, |ns| - 1);
      LeftmostRanks(g, rank, ns, 0, |ns| - 1);
      LeftmostRanks(g, rank, ns, |ns| - 2, |ns| - 1);
      assert Linked(ns[|ns| - 2], g[ns[|ns| - 2]]);
    }
  }

  // The root keeps its place among its own siblings until it is freed itself.
  lemma RootUntouched(f: Family, rank: Ranks, root: Node, g: Family, ns: seq<Node>, freed: seq<Node>, p: Node, i: nat)
    requires Freeing(f, rank, root, g, ns, freed)
    requires p in f && i < |f[p]| && f[p][i] == root
    ensures p in g && g[p] == f[p] && p != root
  {
    hide OneParent, Leftmost, Post;
    if p in Post(f, rank, root) { PostRanks(f, rank, root, p); }
  }

  // Freeing the root itself, the last node.
  lemma FreeingEnds(f: Family, rank: Ranks, root: Node, g: Family, freed: seq<Node>)
    requires Freeing(f, rank, root, g, [root], freed) && g[root] == []
    ensures Post(f, rank, root) == freed + [root]
    ensures g.Keys - {root} == (set n | n in f && n !in freed + [root])
    ensures forall n | n in g && n != root :: g[n] == f[n]
  {
    hide OneParent;
    PostUnfold(g, rank, root);
    assert forall n | n in g && n != root :: n in f && n !in freed + [root];
  }

  ghost function Last(ns: seq<Node>): Node?
  {
    if ns == [] then null else ns[|ns| - 1]
  }

  // The subtree below root, a child number i of p or a root, is being freed.
  ghost predicate Going(f: Family, rank: Ranks, root: Node, p: Node?, left: Family, ns: seq<Node>, freed: seq<Node>)
    reads root, left.Keys
  {
    && WellLinked(left) && left.Keys <= f.Keys
    && Freeing(f, rank, root, left, ns, freed)
    && root.parent == p && (p == null ==> root.next == null && root.previous == null)
  }

  ghost predicate IsChild(f: Family, p: Node?, root: Node, i: nat) {
    p != null ==> p in f && i < |f[p]| && f[p][i] == root
  }

  // The family once the whole subtree is gone.
  ghost predicate Gone(f: Family, rank: Ranks, root: Node, p: Node?, i: nat, left: Family, freed: seq<Node>)
    requires Ranked(f, rank) && root in f
    reads left.Keys
  {
    && WellLinked(left)
    && freed == Post(f, rank, root)
    && left.Keys == (set n | n in f && n !in freed)
    && forall n | n in left && (n == p ==> i < |f[n]|) :: left[n] == if n == p then f[n][..i] + f[n][i + 1..] else f[n]
  }

  // One turn of the loop below the root.
  method FreeLeaf(cursor: Node, ghost f: Family, ghost rank: Ranks, ghost root: Node, ghost p: Node?,
                  ghost left: Family, ghost ns: seq<Node>, ghost freed: seq<Node>)
    returns (parent: Node?, ghost h: Family)
    requires Going(f, rank, root, p, left, ns, freed) && cursor == Last(ns) && cursor.child == null && cursor != root
    modifies f.Keys`next, f.Keys`previous, f.Keys`child, f.Keys`childEnd
    ensures |ns| >= 2 && parent == ns[|ns| - 2] && cursor in left && h.Keys == left.Keys - {cursor}
    ensures Going(f, rank, root, p, h, ns[..|ns| - 1], freed + [cursor])
  {
    hide WellLinked, Freeing, Placed;
    CursorAt(f, rank, root, left, ns, freed);
    FreeingAdvances(f, rank, root, left, ns, freed);
    FreedParent(left, ns);
    RootParent(f, rank, root, left, ns, freed);
    parent := cursor.parent;
    InternFree(cursor, Removal(left, parent, cursor, 0));
    h := Without(left, parent, cursor, 0);
  }

  lemma FreedParent(g: Family, ns: seq<Node>)
    requires |ns| >= 2 && Placed(Removal(g, ns[|ns| - 2], ns[|ns| - 1], 0))
    ensures ns[|ns| - 1].parent == ns[|ns| - 2] && ns[|ns| - 2] in g && ns[|ns| - 1] in g
            && ns[|ns| - 2] != ns[|ns| - 1]
  {
  }

  lemma RootParent(f: Family, rank: Ranks, root: Node, g: Family, ns: seq<Node>, freed: seq<Node>)
    requires Freeing(f, rank, root, g, ns, freed)
    ensures root in g
  {
  }

  // The last turn, which frees the root itself.
  method FreeRoot(root: Node, ghost f: Family, ghost rank: Ranks, ghost p: Node?, ghost i: nat,
                  ghost left: Family, ghost freed: seq<Node>)
    returns (ghost h: Family)
    requires Going(f, rank, root, p, left, [root], freed) && root.child == null && IsChild(f, p, root, i)
    modifies f.Keys`next, f.Keys`previous, f.Keys`child, f.Keys`childEnd
    ensures Ranked(f, rank) && root in f
    ensures Gone(f, rank, root, p, i, h, freed + [root]) && freed + [root] == Post(f, rank, root)
  {
    hide WellLinked, Freeing, Post;
    CursorAt(f, rank, root, left, [root], freed);
    RootParent(f, rank, root, left, [root], freed);
    FreeingKnown(f, rank, root, left, [root], freed);
    if p != null { RootUntouched(f, rank, root, left, [root], freed, p, i); }
    FreeingEnds(f, rank, root, left, freed);
    InternFree(root, Removal(left, p, root, i));
    h := Without(left, p, root, i);
  }

  lemma StillGoing(f: Family, rank: Ranks, root: Node, p: Node?, left: Family, ns: seq<Node>, freed: seq<Node>)
    requires Going(f, rank, root, p, left, ns, freed) && ns != [] && Last(ns).child != null
    ensures Going(f, rank, root, p, left, ns + [Last(ns).child], freed)
    ensures Last(ns).child in rank && Last(ns) in rank && rank[Last(ns).child] < rank[Last(ns)]
  {
    hide WellLinked, Freeing;
    CursorAt(f, rank, root, left, ns, freed);
    FreeingDescends(f, rank, root, left, ns, freed);
  }

  lemma FreeingKnown(f: Family, rank: Ranks, root: Node, g: Family, ns: seq<Node>, freed: seq<Node>)
    requires Freeing(f, rank, root, g, ns, freed)
    ensures Ranked(f, rank) && root in f
  {
  }

  // json_free_value. The nodes are freed in the order they are listed in the result.
  method FreeValue(root: Node, ghost f: Family, ghost rank: Ranks, ghost p: Node?, ghost i: nat)
    returns (freed: seq<Node>, ghost left: Family)
    requires WellLinked(f) && Ranked(f, rank) && Placed(Removal(f, p, root, i))
    modifies f.Keys`next, f.Keys`previous, f.Keys`child, f.Keys`childEnd
    ensures freed == Post(f, rank, root) && Distinct(freed)
    ensures Gone(f, rank, root, p, i, left, freed)
  {
    hide WellLinked, Ranked, Freeing, Post, Gone;
    LinkedHasOneParent(f);
    PostIsDistinct(f, rank, root);
    FreeingStarts(f, rank, root);
    var value: Node? := root;
    var cursor: Node := root;
    freed := [];
    left := f;
    ghost var ns: seq<Node> := [root];
    while value != null
      invariant value != null ==>
                  value == root && cursor == Last(ns) && Going(f, rank, root, p, left, ns, freed)
      invariant value == null ==> Gone(f, rank, root, p, i, left, freed) && freed == Post(f, rank, root)
      decreases value != null, |left|, if cursor in rank then rank[cursor] else 0
    {
      CursorAt(f, rank, root, left, ns, freed);
      if cursor.child != null {
        StillGoing(f, rank, root, p, left, ns, freed);
        ns := ns + [cursor.child];
        cursor := cursor.child;
      } else if cursor == value {
        value := null;
        assert ns == [root];
        left := FreeRoot(cursor, f, rank, p, i, left, freed);
        freed := freed + [cursor];
      } else {
        var parent;
        parent, left := FreeLeaf(cursor, f, rank, root, p, left, ns, freed);
        freed := freed + [cursor];
        cursor := parent;
        ns := ns[..|ns| - 1];
      }
    }
  }
}

/** json_free_value: every node of a subtree is freed once, children first. */
module JsonFree {
  import opened JsonHeap

  // Children rank below their parents, so no node is below itself.
  type Ranks = map<Node, nat>

  ghost predicate Ranked(g: Family, rank: Ranks) {
    && InFamily(g)
    && (forall n | n in g :: n in rank)
    && forall n, i | n in g && 0 <= i < |g[n]| :: rank[g[n][i]] < rank[n]
  }

  // Each node is a child in one place only.
  ghost predicate OneParent(g: Family) {
    && (forall m, n, i, j | m in g && n in g && 0 <= i < |g[m]| && 0 <= j < |g[n]| && g[m][i] == g[n][j] ::
          m == n && i == j)
  }

  // The nodes below n and n itself, children before parents.
  ghost function Post(g: Family, rank: Ranks, n: Node): seq<Node>
    requires Ranked(g, rank) && n in g
    decreases rank[n], 1, 0
  {
    PostAll(g, rank, g[n], rank[n]) + [n]
  }

  ghost function PostAll(g: Family, rank: Ranks, ks: seq<Node>, bound: nat): seq<Node>
    requires Ranked(g, rank) && forall k | k in ks :: k in g && rank[k] < bound
    decreases bound, 0, |ks|
  {
    if ks == [] then [] else Post(g, rank, ks[0]) + PostAll(g, rank, ks[1..], bound)
  }

  // ----- what the post-order contains -----

  lemma {:induction false} PostRanks(g: Family, rank: Ranks, n: Node, x: Node)
    requires Ranked(g, rank) && n in g && x in Post(g, rank, n)
    ensures x in g && rank[x] <= rank[n] && (x == n || rank[x] < rank[n])
    decreases rank[n], 1, 0
  {
    if x != n { PostAllRanks(g, rank, g[n], rank[n], x); }
  }

  lemma {:induction false} PostAllRanks(g: Family, rank: Ranks, ks: seq<Node>, bound: nat, x: Node)
    requires Ranked(g, rank) && forall k | k in ks :: k in g && rank[k] < bound
    requires x in PostAll(g, rank, ks, bound)
    ensures x in g && rank[x] < bound
    decreases bound, 0, |ks|
  {
    if x in Post(g, rank, ks[0]) {
      PostRanks(g, rank, ks[0], x);
    } else {
      PostAllRanks(g, rank, ks[1..], bound, x);
    }
  }

  // Below n: n itself, and every child of a node below n.
  lemma {:induction false} PostIsClosed(g: Family, rank: Ranks, n: Node, x: Node, i: nat)
    requires Ranked(g, rank) && n in g && x in Post(g, rank, n) && x in g && i < |g[x]|
    ensures g[x][i] in Post(g, rank, n)
    decreases rank[n], 1, 0
  {
    if x == n {
      PostAllHasEach(g, rank, g[n], rank[n], i);
    } else {
      PostAllIsClosed(g, rank, g[n], rank[n], x, i);
    }
  }

  lemma {:induction false} PostAllHasEach(g: Family, rank: Ranks, ks: seq<Node>, bound: nat, i: nat)
    requires Ranked(g, rank) && forall k | k in ks :: k in g && rank[k] < bound
    requires i < |ks|
    ensures ks[i] in PostAll(g, rank, ks, bound)
    decreases |ks|
  {
    if i > 0 { PostAllHasEach(g, rank, ks[1..], bound, i - 1); }
  }

  lemma {:induction false} PostAllIsClosed(g: Family, rank: Ranks, ks: seq<Node>, bound: nat, x: Node, i: nat)
    requires Ranked(g, rank) && forall k | k in ks :: k in g && rank[k] < bound
    requires x in PostAll(g, rank, ks, bound) && x in g && i < |g[x]|
    ensures g[x][i] in PostAll(g, rank, ks, bound)
    decreases bound, 0, |ks|
  {
    if x in Post(g, rank, ks[0]) {
      PostIsClosed(g, rank, ks[0], x, i);
    } else {
      PostAllIsClosed(g, rank, ks[1..], bound, x, i);
    }
  }

  // Nothing else is: a node below n is n or the child of a node below n.
  lemma {:induction false} PostHasParent(g: Family, rank: Ranks, n: Node, x: Node) returns (p: Node, i: nat)
    requires Ranked(g, rank) && n in g && x in Post(g, rank, n) && x != n
    ensures p in g && p in Post(g, rank, n) && i < |g[p]| && g[p][i] == x
    decreases rank[n], 1, 0
  {
    p, i := PostAllHasParent(g, rank, g[n], rank[n], x);
    if p !in Post(g, rank, n) || i >= |g[p]| || g[p][i] != x {
      p := n;
      i :| 0 <= i < |g[n]| && g[n][i] == x;
    }
  }

  lemma {:induction false} PostAllHasParent(g: Family, rank: Ranks, ks: seq<Node>, bound: nat, x: Node)
      returns (p: Node, i: nat)
    requires Ranked(g, rank) && forall k | k in ks :: k in g && rank[k] < bound
    requires x in PostAll(g, rank, ks, bound)
    ensures p in g
    ensures x in ks || (p in PostAll(g, rank, ks, bound) && i < |g[p]| && g[p][i] == x)
    decreases bound, 0, |ks|
  {
    if x in ks {
      p, i := x, 0;
    } else if x in Post(g, rank, ks[0]) {
      p, i := PostHasParent(g, rank, ks[0], x);
    } else {
      p, i := PostAllHasParent(g, rank, ks[1..], bound, x);
    }
  }

  // ----- children come first -----

  ghost predicate ChildrenFirst(g: Family, s: seq<Node>) {
    forall i | 0 <= i < |s| :: s[i] in g && forall k | k in g[s[i]] :: k in s[..i]
  }

  lemma ChildrenFirstJoin(g: Family, a: seq<Node>, b: seq<Node>)
    requires ChildrenFirst(g, a) && ChildrenFirst(g, b)
    ensures ChildrenFirst(g, a + b)
  {
    var s := a + b;
    forall i | 0 <= i < |s|
      ensures s[i] in g && forall k | k in g[s[i]] :: k in s[..i]
    {
      if i < |a| {
        assert s[..i] == a[..i];
      } else {
        assert s[..i] == a + b[..i - |a|];
      }
    }
  }

  lemma {:induction false} PostIsChildrenFirst(g: Family, rank: Ranks, n: Node)
    requires Ranked(g, rank) && n in g
    ensures ChildrenFirst(g, Post(g, rank, n))
    decreases rank[n], 1, 0
  {
    hide ChildrenFirst;
    var below := PostAll(g, rank, g[n], rank[n]);
    PostAllIsChildrenFirst(g, rank, g[n], rank[n]);
    forall k | k in g[n]
      ensures k in below
    {
      var i :| 0 <= i < |g[n]| && g[n][i] == k;
      PostAllHasEach(g, rank, g[n], rank[n], i);
    }
    OneMore(g, below, n);
  }

  lemma OneMore(g: Family, s: seq<Node>, n: Node)
    requires ChildrenFirst(g, s) && n in g && forall k | k in g[n] :: k in s
    ensures ChildrenFirst(g, s + [n])
  {
    var t := s + [n];
    forall i | 0 <= i < |t|
      ensures t[i] in g && forall k | k in g[t[i]] :: k in t[..i]
    {
      assert t[..i] == s[..i];
      assert s[..|s|] == s;
    }
  }

  lemma {:induction false} PostAllIsChildrenFirst(g: Family, rank: Ranks, ks: seq<Node>, bound: nat)
    requires Ranked(g, rank) && forall k | k in ks :: k in g && rank[k] < bound
    ensures ChildrenFirst(g, PostAll(g, rank, ks, bound))
    decreases bound, 0, |ks|
  {
    if ks != [] {
      PostIsChildrenFirst(g, rank, ks[0]);
      PostAllIsChildrenFirst(g, rank, ks[1..], bound);
      ChildrenFirstJoin(g, Post(g, rank, ks[0]), PostAll(g, rank, ks[1..], bound));
    }
  }

  // ----- no node occurs twice -----

  ghost predicate Distinct(s: seq<Node>) {
    forall i, j | 0 <= i < j < |s| :: s[i] != s[j]
  }

  // Subtrees of different children have no node in common.
  lemma {:induction false} SiblingsApart(g: Family, rank: Ranks, p: Node, i: nat, j: nat, x: Node)
    requires Ranked(g, rank) && OneParent(g) && p in g && i < |g[p]| && j < |g[p]| && i != j
    requires x in Post(g, rank, g[p][i])
    ensures x !in Post(g, rank, g[p][j])
    decreases if x in rank && rank[x] <= rank[p] then rank[p] - rank[x] else 0
  {
    hide Post;
    if x in Post(g, rank, g[p][j]) {
      PostRanks(g, rank, g[p][i], x);
      PostRanks(g, rank, g[p][j], x);
      if x == g[p][i] {
        ChildIsOutside(g, rank, p, i, j);
      } else if x == g[p][j] {
        ChildIsOutside(g, rank, p, j, i);
      } else {
        var y, a := PostHasParent(g, rank, g[p][i], x);
        var z, b := PostHasParent(g, rank, g[p][j], x);
        assert y == z;
        SiblingsApart(g, rank, p, i, j, y);
      }
    }
  }

  lemma ChildIsOutside(g: Family, rank: Ranks, p: Node, i: nat, j: nat)
    requires Ranked(g, rank) && OneParent(g) && p in g && i < |g[p]| && j < |g[p]| && i != j
    ensures g[p][i] !in Post(g, rank, g[p][j])
  {
    hide Post;
    if g[p][i] in Post(g, rank, g[p][j]) {
      var y, a := PostHasParent(g, rank, g[p][j], g[p][i]);
      assert y == p;
      PostRanks(g, rank, g[p][j], y);
    }
  }

  lemma {:induction false} InSomeChild(g: Family, rank: Ranks, p: Node, a: nat, x: Node) returns (j: nat)
    requires Ranked(g, rank) && p in g && a <= |g[p]|
    requires x in PostAll(g, rank, g[p][a..], rank[p])
    ensures a <= j < |g[p]| && x in Post(g, rank, g[p][j])
    decreases |g[p]| - a
  {
    if x in Post(g, rank, g[p][a]) {
      j := a;
    } else {
      assert g[p][a..][1..] == g[p][a + 1..];
      j := InSomeChild(g, rank, p, a + 1, x);
    }
  }

  lemma FirstChildApart(g: Family, rank: Ranks, p: Node, a: nat, x: Node)
    requires Ranked(g, rank) && OneParent(g) && p in g && a < |g[p]|
    requires x in Post(g, rank, g[p][a])
    ensures x !in PostAll(g, rank, g[p][a + 1..], rank[p])
  {
    if x in PostAll(g, rank, g[p][a + 1..], rank[p]) {
      var j := InSomeChild(g, rank, p, a + 1, x);
      SiblingsApart(g, rank, p, a, j, x);
    }
  }

  // The post-order lists every node below n exactly once.
  lemma {:induction false} PostIsDistinct(g: Family, rank: Ranks, n: Node)
    requires Ranked(g, rank) && OneParent(g) && n in g
    ensures Distinct(Post(g, rank, n))
    decreases rank[n], 1, 0
  {
    PostAllIsDistinct(g, rank, n, 0);
    assert g[n][0..] == g[n];
    if n in PostAll(g, rank, g[n], rank[n]) { PostAllRanks(g, rank, g[n], rank[n], n); }
  }

  lemma {:induction false} PostAllIsDistinct(g: Family, rank: Ranks, p: Node, a: nat)
    requires Ranked(g, rank) && OneParent(g) && p in g && a <= |g[p]|
    ensures Distinct(PostAll(g, rank, g[p][a..], rank[p]))
    decreases rank[p], 0, |g[p]| - a
  {
    if a < |g[p]| {
      var first := Post(g, rank, g[p][a]);
      assert g[p][a..][1..] == g[p][a + 1..];
      PostIsDistinct(g, rank, g[p][a]);
      PostAllIsDistinct(g, rank, p, a + 1);
      forall x | x in first
        ensures x !in PostAll(g, rank, g[p][a + 1..], rank[p])
      {
        FirstChildApart(g, rank, p, a, x);
      }
      DistinctConcat(first, PostAll(g, rank, g[p][a + 1..], rank[p]));
    }
  }

  lemma DistinctConcat(s: seq<Node>, t: seq<Node>)
    requires Distinct(s) && Distinct(t) && forall x | x in s :: x !in t
    ensures Distinct(s + t)
  {
    forall i, j | 0 <= i < j < |s + t|
      ensures (s + t)[i] != (s + t)[j]
    {
      if i < |s| <= j { assert s[i] in s && t[j - |s|] in t; }
    }
  }

  // ----- freeing the first leaf -----

  // A family without the childless node v, child number i of p when p is not null.
  ghost function Without(g: Family, p: Node?, v: Node, i: nat): Family
    requires p != null ==> p in g && i < |g[p]|
  {
    var h := g - {v};
    if p == null then h else h[p := g[p][..i] + g[p][i + 1..]]
  }

  // Subtrees that a change does not touch are listed as before.
  lemma {:induction false} PostFrame(g: Family, h: Family, rank: Ranks, n: Node)
    requires Ranked(g, rank) && Ranked(h, rank) && n in g
    requires forall x | x in Post(g, rank, n) :: x in g && x in h && h[x] == g[x]
    ensures n in h && Post(h, rank, n) == Post(g, rank, n)
    decreases rank[n], 1, 0
  {
    assert n in Post(g, rank, n);
    PostAllFrame(g, h, rank, g[n], rank[n]);
  }

  lemma {:induction false} PostAllFrame(g: Family, h: Family, rank: Ranks, ks: seq<Node>, bound: nat)
    requires Ranked(g, rank) && Ranked(h, rank) && forall k | k in ks :: k in g && k in h && rank[k] < bound
    requires forall x | x in PostAll(g, rank, ks, bound) :: x in g && x in h && h[x] == g[x]
    ensures PostAll(h, rank, ks, bound) == PostAll(g, rank, ks, bound)
    decreases bound, 0, |ks|
  {
    if ks != [] {
      PostFrame(g, h, rank, ks[0]);
      PostAllFrame(g, h, rank, ks[1..], bound);
    }
  }

  // The way from the root to the cursor, always by first children.
  ghost predicate Leftmost(g: Family, ns: seq<Node>) {
    && ns != []
    && (forall i | 0 <= i < |ns| :: ns[i] in g)
    && forall i {:trigger ns[i]} | 0 < i < |ns| :: g[ns[i - 1]] != [] && g[ns[i - 1]][0] == ns[i]
  }

  lemma {:induction false} LeftmostInPost(g: Family, rank: Ranks, ns: seq<Node>, i: nat, j: nat)
    requires Ranked(g, rank) && Leftmost(g, ns) && i <= j < |ns|
    ensures ns[j] in Post(g, rank, ns[i])
    decreases j - i
  {
    if i < j {
      LeftmostInPost(g, rank, ns, i, j - 1);
      Hop(g, ns, j);
      PostIsClosed(g, rank, ns[i], ns[j - 1], 0);
    }
  }

  lemma Hop(g: Family, ns: seq<Node>, j: nat)
    requires Leftmost(g, ns) && 0 < j < |ns|
    ensures g[ns[j - 1]] != [] && g[ns[j - 1]][0] == ns[j]
  {
    assert ns[j] in g;
  }

  // Taking a childless node out of a family, from any place.
  lemma WithoutIsRanked(g: Family, rank: Ranks, p: Node?, v: Node, i: nat)
    requires Ranked(g, rank) && OneParent(g) && v in g && p != v
    requires if p == null then forall n, j | n in g && 0 <= j < |g[n]| :: g[n][j] != v
             else p in g && i < |g[p]| && g[p][i] == v
    ensures var h := Without(g, p, v, i); Ranked(h, rank) && h.Keys == g.Keys - {v}
  {
    var h := Without(g, p, v, i);
    forall n, j | n in h && 0 <= j < |h[n]|
      ensures h[n][j] in h && rank[h[n][j]] < rank[n]
    {
      var k := if n == p && j >= i then j + 1 else j;
      assert h[n][j] == g[n][k];
    }
  }

  lemma WithoutHasOneParent(g: Family, p: Node?, v: Node, i: nat)
    requires OneParent(g) && (p != null ==> p in g && i < |g[p]|)
    ensures OneParent(Without(g, p, v, i))
  {
    var h := Without(g, p, v, i);
    forall m, n, a, b | m in h && n in h && 0 <= a < |h[m]| && 0 <= b < |h[n]| && h[m][a] == h[n][b]
      ensures m == n && a == b
    {
      var c := if m == p && a >= i then a + 1 else a;
      var d := if n == p && b >= i then b + 1 else b;
      assert h[m][a] == g[m][c] && h[n][b] == g[n][d];
    }
  }

  lemma WithoutLeaf(g: Family, rank: Ranks, ns: seq<Node>)
    requires Ranked(g, rank) && OneParent(g) && Leftmost(g, ns) && |ns| >= 2 && g[ns[|ns| - 1]] == []
    ensures g[ns[|ns| - 2]] != []
    ensures var h := Without(g, ns[|ns| - 2], ns[|ns| - 1], 0);
            && Ranked(h, rank) && OneParent(h) && Leftmost(h, ns[..|ns| - 1])
            && h.Keys == g.Keys - {ns[|ns| - 1]}
  {
    hide OneParent, Ranked;
    var k := |ns| - 1;
    var (p, c) := (ns[k - 1], ns[k]);
    Hop(g, ns, k);
    LeftmostRanks(g, rank, ns, k - 1, k);
    WithoutIsRanked(g, rank, p, c, 0);
    WithoutHasOneParent(g, p, c, 0);
    StaysLeftmost(g, rank, ns);
  }

  lemma StaysLeftmost(g: Family, rank: Ranks, ns: seq<Node>)
    requires Ranked(g, rank) && Leftmost(g, ns) && |ns| >= 2 && g[ns[|ns| - 2]] != []
    ensures Leftmost(Without(g, ns[|ns| - 2], ns[|ns| - 1], 0), ns[..|ns| - 1])
  {
    hide Ranked;
    var k := |ns| - 1;
    var h := Without(g, ns[k - 1], ns[k], 0);
    forall i | 0 <= i < k
      ensures ns[i] in h && (i < k - 1 ==> h[ns[i]] == g[ns[i]])
    {
      LeftmostRanks(g, rank, ns, i, k);
      if i < k - 1 { LeftmostRanks(g, rank, ns, i, k - 1); }
    }
    forall i | 0 <= i < k - 1
      ensures h[ns[i]] != [] && h[ns[i]][0] == ns[i + 1]
    {
      Hop(g, ns, i + 1);
    }
  }

  lemma {:induction false} LeftmostRanks(g: Family, rank: Ranks, ns: seq<Node>, i: nat, j: nat)
    requires Ranked(g, rank) && Leftmost(g, ns) && i < j < |ns|
    ensures rank[ns[j]] < rank[ns[i]]
    decreases j - i
  {
    Hop(g, ns, j);
    if i < j - 1 { LeftmostRanks(g, rank, ns, i, j - 1); }
  }

  // Nothing below the later children of a node on the way is touched.
  lemma RestUntouched(g: Family, rank: Ranks, ns: seq<Node>, i: nat, x: Node)
    requires Ranked(g, rank) && OneParent(g) && Leftmost(g, ns) && i < |ns| - 1
    requires g[ns[i]] != [] && x in PostAll(g, rank, g[ns[i]][1..], rank[ns[i]])
    ensures x in g && x != ns[|ns| - 1] && x != ns[|ns| - 2]
  {
    hide Ranked, OneParent, PostAll, Post;
    var n := ns[i];
    Hop(g, ns, i + 1);
    RanksDown(g, rank, n);
    PostAllRanks(g, rank, g[n][1..], rank[n], x);
    LeftmostInPost(g, rank, ns, i + 1, |ns| - 1);
    FirstChildApart(g, rank, n, 0, ns[|ns| - 1]);
    if i + 1 <= |ns| - 2 {
      LeftmostInPost(g, rank, ns, i + 1, |ns| - 2);
      FirstChildApart(g, rank, n, 0, ns[|ns| - 2]);
    }
  }

  lemma RanksDown(g: Family, rank: Ranks, n: Node)
    requires Ranked(g, rank) && n in g
    ensures n in rank && forall k | k in g[n] :: k in g && k in rank && rank[k] < rank[n]
  {
  }

  lemma RestSame(g: Family, rank: Ranks, ns: seq<Node>, i: nat)
    requires Ranked(g, rank) && OneParent(g) && Leftmost(g, ns) && |ns| >= 2 && g[ns[|ns| - 1]] == []
    requires i < |ns| - 1
    ensures g[ns[|ns| - 2]] != [] && g[ns[i]] != []
    ensures var h := Without(g, ns[|ns| - 2], ns[|ns| - 1], 0);
            var rest := g[ns[i]][1..];
            && Ranked(h, rank) && ns[i] in h && ns[i] in rank
            && (forall k | k in rest :: k in g && k in h && k in rank && rank[k] < rank[ns[i]])
            && PostAll(h, rank, rest, rank[ns[i]]) == PostAll(g, rank, rest, rank[ns[i]])
  {
    hide Ranked, OneParent, PostAll;
    WithoutLeaf(g, rank, ns);
    var h := Without(g, ns[|ns| - 2], ns[|ns| - 1], 0);
    var n := ns[i];
    Hop(g, ns, i + 1);
    RanksDown(g, rank, n);
    LeftmostRanks(g, rank, ns, i, |ns| - 1);
    forall x | x in PostAll(g, rank, g[n][1..], rank[n])
      ensures x in g && x in h && h[x] == g[x]
    {
      RestUntouched(g, rank, ns, i, x);
    }
    forall k | k in g[n][1..]
      ensures k in h
    {
      RestInPost(g, rank, n, k);
    }
    PostAllFrame(g, h, rank, g[n][1..], rank[n]);
  }

  lemma PostUnfold(g: Family, rank: Ranks, n: Node)
    requires Ranked(g, rank) && n in g
    ensures n in rank && forall k | k in g[n] :: k in g && k in rank && rank[k] < rank[n]
    ensures Post(g, rank, n) ==
            if g[n] == [] then [n]
            else Post(g, rank, g[n][0]) + (PostAll(g, rank, g[n][1..], rank[n]) + [n])
  {
  }

  // The node at the end of the leftmost way is the next one in post-order.
  lemma {:induction false} LeafIsNext(g: Family, rank: Ranks, ns: seq<Node>, i: nat)
    requires Ranked(g, rank) && OneParent(g) && Leftmost(g, ns) && |ns| >= 2 && g[ns[|ns| - 1]] == []
    requires i < |ns| - 1
    ensures g[ns[|ns| - 2]] != []
    ensures var h := Without(g, ns[|ns| - 2], ns[|ns| - 1], 0);
            && Ranked(h, rank) && ns[i] in h
            && Post(g, rank, ns[i]) == [ns[|ns| - 1]] + Post(h, rank, ns[i])
    decreases |ns| - i
  {
    hide Ranked, OneParent, Post, PostAll;
    RestSame(g, rank, ns, i);
    var (p, c) := (ns[|ns| - 2], ns[|ns| - 1]);
    var h := Without(g, p, c, 0);
    var n := ns[i];
    Hop(g, ns, i + 1);
    PostUnfold(g, rank, n);
    if i + 1 == |ns| - 1 {
      LastStep(g, h, rank, n, c);
    } else {
      LeafIsNext(g, rank, ns, i + 1);
      LeftmostRanks(g, rank, ns, i, |ns| - 2);
      assert h[n] == g[n];
      PostUnfold(h, rank, n);
    }
  }

  lemma LastStep(g: Family, h: Family, rank: Ranks, p: Node, c: Node)
    requires Ranked(g, rank) && Ranked(h, rank) && p in g && p in h && c in g && g[c] == []
    requires g[p] != [] && g[p][0] == c && h[p] == g[p][1..]
    requires PostAll(h, rank, h[p], rank[p]) == PostAll(g, rank, h[p], rank[p])
    ensures Post(g, rank, p) == [c] + Post(h, rank, p)
  {
    PostUnfold(g, rank, c);
    PostUnfold(g, rank, p);
  }

  lemma RestInPost(g: Family, rank: Ranks, n: Node, k: Node)
    requires Ranked(g, rank) && n in g && g[n] != [] && k in g[n][1..]
    ensures k in PostAll(g, rank, g[n][1..], rank[n])
  {
    var i :| 0 <= i < |g[n][1..]| && g[n][1..][i] == k;
    PostAllHasEach(g, rank, g[n][1..], rank[n], i);
  }
}

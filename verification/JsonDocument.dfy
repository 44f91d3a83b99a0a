/** json_parse_document, and what holds of the document it returns. */
module JsonDocument {
  import opened Wrappers
  import opened JsonTree
  import opened JsonMachine
  import opened JsonFeed
  import opened JsonText
  import opened JsonRoundTrip
  import opened JsonHeap
  import opened JsonShape
  import opened JsonParser
  import JsonWalk
  import JsonFree
  import JsonFreeHeap
  import JsonPrinter

  // Once the root is the only open node, the nodes form a finished document.
  lemma FinishedDocument(s: Shape)
    requires ShapeOk(s) && Holds(s) && |s.spine| == 1
    ensures var root := s.spine[0];
            && root in s.family && Detached(root)
            && Forest(s.family, s.closed[root := Closed(s.stack[0])])
  {
    hide WellLinked, Named, Detached;
    FinishedTrees(s);
    FinishedNames(s);
  }

  lemma FinishedNames(s: Shape)
    requires |s.spine| == |s.stack| == 1 && Named(s)
    ensures Detached(s.spine[0]) && Labelled(s.closed[s.spine[0] := Closed(s.stack[0])])
  {
  }

  lemma FinishedTrees(s: Shape)
    requires ShapeOk(s) && |s.spine| == 1
    ensures var root := s.spine[0];
            var trees := s.closed[root := Closed(s.stack[0])];
            && root in s.family && s.family.Keys == trees.Keys
            && forall n | n in s.family :: KidsAre(trees, s.family[n], trees[n].kids)
  {
    var root := s.spine[0];
    assert OpenAt(s, 0);
    var trees := s.closed[root := Closed(s.stack[0])];
    assert s.family[root] == s.family[root][..|s.stack[0].kids|];
  }

  // json_parse_document
  method ParseText(text: string) returns (root: Node?, code: Code, ghost f: Family, ghost trees: Trees)
    ensures code == ParseDocument(text).1
    ensures code == Ok <==> root != null
    ensures root != null ==>
              && Forest(f, trees) && root in f && Detached(root) && fresh(f.Keys)
              && (forall n | n in f :: n == root || HasParent(f, n))
              && trees[root] == ParseDocument(text).0.value && ValidDocument(trees[root])
  {
    hide ShapeOk, Holds, HasParent, Detached;
    var jpi := new ParsingInfo();
    assert jpi.shape.family.Keys == {};
    var error := jpi.ParseFragment(text);
    root, f, trees := null, map[], map[];
    if error == WaitingForEof || error == Ok {
      Aligned(jpi.shape);
      FinishedDocument(jpi.shape);
      root, code := jpi.cursor, Ok;
      f := jpi.shape.family;
      trees := jpi.shape.closed[root := Closed(jpi.shape.stack[0])];
    } else {
      code := error;
    }
  }

  // The subtrees of a document give the ranks that freeing it relies on.
  ghost function SizeRanks(trees: Trees): JsonFree.Ranks {
    map n | n in trees :: JsonWalk.Work(trees[n])
  }

  lemma ForestIsRanked(f: Family, trees: Trees)
    requires Forest(f, trees)
    ensures JsonFree.Ranked(f, SizeRanks(trees))
  {
    forall n, i | n in f && 0 <= i < |f[n]|
      ensures JsonWalk.Work(trees[f[n][i]]) < JsonWalk.Work(trees[n])
    {
      assert KidsAre(trees, f[n], trees[n].kids);
      JsonPrinter.KidWork(trees[n].kids, i);
    }
  }

  // ----- freeing a parsed document -----

  ghost function Above(f: Family, rank: JsonFree.Ranks, bound: nat): set<Node>
    requires forall m | m in f :: m in rank
  {
    set m | m in f && rank[m] > bound
  }

  // Every node that has a parent, up to the root, is below the root.
  lemma {:induction false} AllBelowRoot(f: Family, rank: JsonFree.Ranks, root: Node, n: Node)
    requires JsonFree.Ranked(f, rank) && root in f && n in f
    requires forall m | m in f :: m == root || HasParent(f, m)
    ensures n in JsonFree.Post(f, rank, root)
    decreases |Above(f, rank, rank[n])|
  {
    if n == root {
      JsonFree.PostUnfold(f, rank, root);
    } else {
      var p: Node :| p in f && n in f[p];
      var i :| 0 <= i < |f[p]| && f[p][i] == n;
      FewerAbove(Above(f, rank, rank[p]), Above(f, rank, rank[n]), p);
      AllBelowRoot(f, rank, root, p);
      JsonFree.PostIsClosed(f, rank, root, p, i);
    }
  }

  lemma FewerAbove(above: set<Node>, higher: set<Node>, p: Node)
    requires above <= higher && p in higher && p !in above
    ensures |above| < |higher|
  {
    var rest := higher - {p};
    assert above <= rest;
    SmallerSet(above, rest);
  }

  lemma {:induction false} SmallerSet(a: set<Node>, b: set<Node>)
    requires a <= b
    ensures |a| <= |b|
  {
    if a != {} {
      var x :| x in a;
      SmallerSet(a - {x}, b - {x});
    }
  }

  // The number of nodes of a tree.
  function Count(t: Tree): nat {
    1 + CountAll(t.kids)
  }

  function CountAll(kids: seq<Tree>): nat {
    if kids == [] then 0 else Count(kids[0]) + CountAll(kids[1..])
  }

  // Below a node are as many nodes as its tree has.
  lemma {:induction false} PostCounts(f: Family, rank: JsonFree.Ranks, trees: Trees, n: Node)
    requires JsonFree.Ranked(f, rank) && f.Keys == trees.Keys && n in f
    requires forall m | m in f :: KidsAre(trees, f[m], trees[m].kids)
    ensures |JsonFree.Post(f, rank, n)| == Count(trees[n])
    decreases rank[n], 1, 0
  {
    JsonFree.PostUnfold(f, rank, n);
    PostAllCounts(f, rank, trees, f[n], trees[n].kids, rank[n]);
  }

  lemma {:induction false} PostAllCounts(f: Family, rank: JsonFree.Ranks, trees: Trees, ks: seq<Node>, kids: seq<Tree>,
                                         bound: nat)
    requires JsonFree.Ranked(f, rank) && f.Keys == trees.Keys && KidsAre(trees, ks, kids)
    requires forall m | m in f :: KidsAre(trees, f[m], trees[m].kids)
    requires forall k | k in ks :: k in f && rank[k] < bound
    ensures |JsonFree.PostAll(f, rank, ks, bound)| == CountAll(kids)
    decreases bound, 0, |ks|
  {
    if ks != [] {
      PostCounts(f, rank, trees, ks[0]);
      PostAllCounts(f, rank, trees, ks[1..], kids[1..], bound);
    }
  }

  // Root and the nodes below it are the document t, their links aside.
  ghost predicate StandsFor(root: Node, t: Tree, f: Family, trees: Trees)
    reads trees.Keys
  {
    && root in f && f.Keys == trees.Keys && trees[root] == t
    && Labelled(trees) && forall n | n in f :: KidsAre(trees, f[n], trees[n].kids)
  }

  // Parsing a text and freeing the document, as the callers of both do: as many nodes as
  // the tree has are freed, each once, and children before their parents.
  method ParseThenFree(text: string)
    returns (code: Code, freed: seq<Node>, ghost root: Node?, ghost f: Family, ghost trees: Trees)
    ensures code == ParseDocument(text).1
    ensures code != Ok ==> freed == []
    ensures code == Ok ==>
              && root != null && StandsFor(root, ParseDocument(text).0.value, f, trees)
              && fresh(freed) && JsonFree.Distinct(freed) && (set n | n in freed) == f.Keys
              && |freed| == Count(ParseDocument(text).0.value) && JsonFree.ChildrenFirst(f, freed)
  {
    hide ParseDocument, WellLinked, HasParent, ShapeOk, KidsAre;
    var value;
    value, code, f, trees := ParseText(text);
    root, freed := value, [];
    if value == null { return; }
    ForestIsRanked(f, trees);
    ghost var rank := SizeRanks(trees);
    forall n | n in f ensures n in JsonFree.Post(f, rank, value) { AllBelowRoot(f, rank, value, n); }
    forall n | n in JsonFree.Post(f, rank, value) ensures n in f { JsonFree.PostRanks(f, rank, value, n); }
    PostCounts(f, rank, trees, value);
    JsonFree.PostIsChildrenFirst(f, rank, value);
    ghost var left;
    freed, left := JsonFreeHeap.FreeValue(value, f, rank, null, 0);
  }

  // ----- writing and reading again -----

  // Parsing a text, printing the document and parsing what was printed: the document
  // read again stands for the same tree.
  method ReadWriteRead(text: string)
    returns (code: Code, written: string, again: Code, root: Node?, ghost f: Family, ghost trees: Trees)
    ensures code == ParseDocument(text).1
    ensures code != Ok ==> written == "" && again == code && root == null
    ensures code == Ok ==>
              && Show(ParseDocument(text).0.value, None) == Some(written)
              && again == ParseDocument(written).1 == Ok
              && root != null && Forest(f, trees) && root in f && fresh(f.Keys) && Detached(root)
              && trees[root] == ParseDocument(text).0.value == ParseDocument(written).0.value
  {
    hide Show;
    root, code, f, trees := ParseText(text);
    written, again := "", code;
    if root != null {
      PrintThenParse(trees[root]);
      var ok;
      written, ok := JsonPrinter.TreeToString(root, f, trees);
      root, again, f, trees := ParseText(written);
    }
  }
}

/** A user's counts kept as JSON text in Redis: writing, reading back, counting. */
module UserStore {
  import opened Wrappers
  import opened Units
  import opened JsonTree
  import opened JsonFeed
  import opened JsonText
  import opened JsonRoundTrip
  import opened JsonFields
  import opened UserCaps
  import opened RedisStore

  // ----- the record as a document -----

  datatype Creative = Creative(mapid: string, count: Count)
  datatype Group = Group(groupid: string, creatives: seq<Creative>)

  function Unsigned(n: int): Uint32 {
    n % 0x1_0000_0000
  }

  function CreativeTree(c: Creative): Tree {
    var started := Added(Added(NO_FIELDS, "mapid", Text(c.mapid)), "starttime", Int(Signed(c.count.starttime)));
    Added(started, "imp", Int(Signed(c.count.imp)))
  }

  function List(trees: seq<Tree>): Tree {
    Tree(Array, "", trees)
  }

  function CreativeTrees(cs: seq<Creative>): (trees: seq<Tree>)
    ensures |trees| == |cs|
  {
    seq(|cs|, i requires 0 <= i < |cs| => CreativeTree(cs[i]))
  }

  function GroupTree(g: Group): Tree {
    Added(Added(NO_FIELDS, "groupid", Text(g.groupid)), "creative_restriction", List(CreativeTrees(g.creatives)))
  }

  function GroupTrees(gs: seq<Group>): (trees: seq<Tree>)
    ensures |trees| == |gs|
  {
    seq(|gs|, i requires 0 <= i < |gs| => GroupTree(gs[i]))
  }

  function UserTree(userid: string, gs: seq<Group>): Tree {
    Added(Added(NO_FIELDS, "userid", Text(userid)), "group_restriction", List(GroupTrees(gs)))
  }

  // What inserting the entries in turn gives: the first of a name stays.
  function CreativeMap(cs: seq<Creative>): map<string, Count> {
    if cs == [] then map[]
    else
      var (m, c) := (CreativeMap(cs[..|cs| - 1]), cs[|cs| - 1]);
      if c.mapid in m then m else m[c.mapid := c.count]
  }

  function GroupMap(gs: seq<Group>): Counts {
    if gs == [] then map[]
    else
      var (m, g) := (GroupMap(gs[..|gs| - 1]), gs[|gs| - 1]);
      if g.groupid in m then m else m[g.groupid := CreativeMap(g.creatives)]
  }

  predicate IdsAreText(gs: seq<Group>) {
    forall g | g in gs :: IdIsText(g)
  }

  predicate IdIsText(g: Group) {
    ValidStringText(g.groupid) && forall c | c in g.creatives :: ValidStringText(c.mapid)
  }

  lemma FieldValid(obj: Tree, name: string, value: Tree)
    requires obj.kind == Object && ValidStringText(name)
    ensures Whole(Added(obj, name, value)) <==> Whole(obj) && ValidValue(value)
  {
    hide ValidStringText;
    var t := Added(obj, name, value);
    if Whole(t) {
      var last := t.kids[|obj.kids|];
      assert ValidLabel(last) && last == Label(name, value) && last.kids[0] == value;
      forall i | 0 <= i < |obj.kids|
        ensures ValidLabel(obj.kids[i]) { assert t.kids[i] == obj.kids[i] && ValidLabel(t.kids[i]); }
      assert ValidValue(obj);
    }
    if Whole(obj) && ValidValue(value) {
      assert ValidLabel(Label(name, value));
      forall i | 0 <= i < |t.kids| ensures ValidLabel(t.kids[i]) {
        if i < |obj.kids| { assert t.kids[i] == obj.kids[i]; }
      }
      assert ValidValue(t);
    }
  }

  lemma ListValid(trees: seq<Tree>)
    ensures ValidValue(List(trees)) <==> forall i | 0 <= i < |trees| :: ValidValue(trees[i])
  {
    var t := List(trees);
    if ValidValue(t) {
      forall i | 0 <= i < |trees| ensures ValidValue(trees[i]) { assert ValidValue(t.kids[i]); }
    }
  }

  lemma LeavesValid(s: string, n: int)
    ensures ValidValue(Text(s)) <==> ValidStringText(s)
    ensures ValidValue(Int(n)) && Whole(NO_FIELDS)
  {
    DecimalIsValid(n);
  }

  lemma CreativeTreeValid(c: Creative)
    ensures Whole(CreativeTree(c)) <==> ValidStringText(c.mapid)
  {
    hide ValidStringText, Whole, ValidValue;
    FixedNames();
    LeavesValid(c.mapid, Signed(c.count.starttime));
    LeavesValid(c.mapid, Signed(c.count.imp));
    var one := Added(NO_FIELDS, "mapid", Text(c.mapid));
    var two := Added(one, "starttime", Int(Signed(c.count.starttime)));
    FieldValid(NO_FIELDS, "mapid", Text(c.mapid));
    FieldValid(one, "starttime", Int(Signed(c.count.starttime)));
    FieldValid(two, "imp", Int(Signed(c.count.imp)));
  }

  lemma FixedNames()
    ensures ValidStringText("userid") && ValidStringText("group_restriction") && ValidStringText("groupid")
    ensures ValidStringText("creative_restriction") && ValidStringText("mapid") && ValidStringText("starttime")
            && ValidStringText("imp")
  {
    hide ValidStringText;
    PlainText("userid");
    PlainText("group_restriction");
    PlainText("groupid");
    PlainText("creative_restriction");
    PlainText("mapid");
    PlainText("starttime");
    PlainText("imp");
  }

  lemma CreativeTreesValid(cs: seq<Creative>)
    ensures ValidValue(List(CreativeTrees(cs))) <==> forall c | c in cs :: ValidStringText(c.mapid)
  {
    var trees := CreativeTrees(cs);
    ListValid(trees);
    forall i | 0 <= i < |cs| ensures ValidValue(trees[i]) <==> ValidStringText(cs[i].mapid) {
      CreativeTreeValid(cs[i]);
    }
    hide ValidStringText, ValidValue, CreativeTrees;
  }

  lemma GroupTreeValid(g: Group)
    ensures Whole(GroupTree(g)) <==> IdIsText(g)
  {
    var trees := CreativeTrees(g.creatives);
    CreativeTreesValid(g.creatives);
    hide ValidStringText, Whole, ValidValue, CreativeTrees;
    FixedNames();
    LeavesValid(g.groupid, 0);
    FieldValid(NO_FIELDS, "groupid", Text(g.groupid));
    FieldValid(Added(NO_FIELDS, "groupid", Text(g.groupid)), "creative_restriction", List(trees));
  }

  lemma GroupTreesValid(gs: seq<Group>)
    ensures ValidValue(List(GroupTrees(gs))) <==> IdsAreText(gs)
  {
    var trees := GroupTrees(gs);
    ListValid(trees);
    forall i | 0 <= i < |gs| ensures ValidValue(trees[i]) <==> IdIsText(gs[i]) {
      GroupTreeValid(gs[i]);
    }
    hide ValidStringText, ValidValue, GroupTrees, IdIsText;
  }

  // The tree is a document of the grammar exactly when every id is valid as it stands.
  lemma UserTreeValid(userid: string, gs: seq<Group>)
    ensures ValidDocument(UserTree(userid, gs)) <==> ValidStringText(userid) && IdsAreText(gs)
  {
    GroupTreesValid(gs);
    hide ValidStringText, ValidValue, GroupTrees;
    FixedNames();
    LeavesValid(userid, 0);
    FieldValid(NO_FIELDS, "userid", Text(userid));
    FieldValid(Added(NO_FIELDS, "userid", Text(userid)), "group_restriction", List(GroupTrees(gs)));
  }

  // ----- the text of a record -----

  function Quoted(s: string): string {
    "\"" + s + "\""
  }

  function FieldText(name: string, value: string): string {
    Quoted(name) + ":" + value
  }

  function CreativeText(c: Creative): string {
    "{" + FieldText("mapid", Quoted(c.mapid)) + ","
    + (FieldText("starttime", Decimal(Signed(c.count.starttime))) + ","
        + FieldText("imp", Decimal(Signed(c.count.imp))))
    + "}"
  }

  function CreativesText(cs: seq<Creative>): string {
    if cs == [] then "" else CreativeText(cs[0]) + (if |cs| == 1 then "" else ",") + CreativesText(cs[1..])
  }

  function GroupText(g: Group): string {
    "{" + FieldText("groupid", Quoted(g.groupid)) + ","
    + FieldText("creative_restriction", "[" + CreativesText(g.creatives) + "]") + "}"
  }

  function GroupsText(gs: seq<Group>): string {
    if gs == [] then "" else GroupText(gs[0]) + (if |gs| == 1 then "" else ",") + GroupsText(gs[1..])
  }

  // The stored text, label by label.
  function RecordText(userid: string, gs: seq<Group>): string {
    "{" + FieldText("userid", Quoted(userid)) + "," + FieldText("group_restriction", "[" + GroupsText(gs) + "]") + "}"
  }

  lemma LabelText(name: string, value: Tree, text: string)
    requires Show(value, Some(String)) == Some(text)
    ensures Show(Label(name, value), Some(Object)) == Some(FieldText(name, text))
  {
    assert ShowKids([value], String) == Some(text) by {
      assert [value][1..] == [];
      assert ShowKids([value][1..], String) == Some("");
      assert text + "" + "" == text;
    }
  }

  lemma KidsText(kids: seq<Tree>, parent: Kind, first: string, others: string)
    requires kids != [] && Show(kids[0], Some(parent)) == Some(first) && ShowKids(kids[1..], parent) == Some(others)
    ensures ShowKids(kids, parent) == Some(first + (if |kids| == 1 then "" else ",") + others)
  {
    hide Show;
  }

  lemma OneKidText(k: Tree, parent: Kind, text: string)
    requires Show(k, Some(parent)) == Some(text)
    ensures ShowKids([k], parent) == Some(text)
  {
    assert [k][1..] == [] && ShowKids([], parent) == Some("");
    hide Show;
    KidsText([k], parent, text, "");
    assert text + "" + "" == text;
  }

  lemma TwoFieldsText(a: string, x: Tree, s: string, b: string, y: Tree, t: string, parent: Option<Kind>)
    requires Show(x, Some(String)) == Some(s) && Show(y, Some(String)) == Some(t)
    ensures Show(Added(Added(NO_FIELDS, a, x), b, y), parent)
            == Some("{" + FieldText(a, s) + "," + FieldText(b, t) + "}")
  {
    hide Show, FieldText, Label, ShowKids;
    LabelText(a, x, s);
    LabelText(b, y, t);
    var (k, l, obj) := (Label(a, x), Label(b, y), Added(Added(NO_FIELDS, a, x), b, y));
    assert obj.kids == [k, l] && [k, l][1..] == [l];
    OneKidText(l, Object, FieldText(b, t));
    KidsText([k, l], Object, FieldText(a, s), FieldText(b, t));
    ObjectText(obj, parent);
    assert "{" + (FieldText(a, s) + "," + FieldText(b, t)) + "}" == "{" + FieldText(a, s) + "," + FieldText(b, t) + "}";
  }

  lemma ObjectText(t: Tree, parent: Option<Kind>)
    requires t.kind == Object && ShowKids(t.kids, Object).Some?
    ensures Show(t, parent) == Some("{" + ShowKids(t.kids, Object).value + "}")
  {
  }

  lemma LeafText(s: string, n: int)
    ensures Show(Text(s), Some(String)) == Some(Quoted(s)) && Show(Int(n), Some(String)) == Some(Decimal(n))
  {
    assert ShowKids([], String) == Some("");
    assert Quoted(s) + "" + "" == Quoted(s);
  }

  lemma CreativeIsText(c: Creative)
    ensures Show(CreativeTree(c), Some(Array)) == Some(CreativeText(c))
  {
    hide Show, FieldText, Label, ShowKids, Decimal, Quoted;
    var (m, s, n) := (Text(c.mapid), Int(Signed(c.count.starttime)), Int(Signed(c.count.imp)));
    LeafText(c.mapid, Signed(c.count.starttime));
    LeafText(c.mapid, Signed(c.count.imp));
    var (p, q, r) := (FieldText("mapid", Quoted(c.mapid)), FieldText("starttime", Decimal(Signed(c.count.starttime))),
                      FieldText("imp", Decimal(Signed(c.count.imp))));
    LabelText("mapid", m, Quoted(c.mapid));
    LabelText("starttime", s, Decimal(Signed(c.count.starttime)));
    LabelText("imp", n, Decimal(Signed(c.count.imp)));
    var (x, y, z) := (Label("mapid", m), Label("starttime", s), Label("imp", n));
    CreativeLabels(c);
    assert [x, y, z][1..] == [y, z] && [y, z][1..] == [z];
    OneKidText(z, Object, r);
    KidsText([y, z], Object, q, r);
    KidsText([x, y, z], Object, p, q + "," + r);
    ObjectText(CreativeTree(c), Some(Array));
    assert "{" + (p + "," + (q + "," + r)) + "}" == "{" + p + "," + (q + "," + r) + "}";
  }

  lemma {:induction false} CreativesAreText(cs: seq<Creative>)
    ensures ShowKids(CreativeTrees(cs), Array) == Some(CreativesText(cs))
  {
    hide Show, CreativeTree, CreativeText;
    if cs != [] {
      CreativeIsText(cs[0]);
      CreativesAreText(cs[1..]);
      assert CreativeTrees(cs)[1..] == CreativeTrees(cs[1..]);
      KidsText(CreativeTrees(cs), Array, CreativeText(cs[0]), CreativesText(cs[1..]));
    }
  }

  lemma ListText(trees: seq<Tree>, text: string)
    requires ShowKids(trees, Array) == Some(text)
    ensures Show(List(trees), Some(String)) == Some("[" + text + "]")
  {
  }

  lemma GroupIsText(g: Group)
    ensures Show(GroupTree(g), Some(Array)) == Some(GroupText(g))
  {
    hide Show, ShowKids, CreativeTrees, CreativesText, FieldText, Quoted;
    CreativesAreText(g.creatives);
    ListText(CreativeTrees(g.creatives), CreativesText(g.creatives));
    LeafText(g.groupid, 0);
    TwoFieldsText("groupid", Text(g.groupid), Quoted(g.groupid), "creative_restriction",
                  List(CreativeTrees(g.creatives)), "[" + CreativesText(g.creatives) + "]", Some(Array));
  }

  lemma {:induction false} GroupsAreText(gs: seq<Group>)
    ensures ShowKids(GroupTrees(gs), Array) == Some(GroupsText(gs))
  {
    hide Show, GroupTree, GroupText;
    if gs != [] {
      GroupIsText(gs[0]);
      GroupsAreText(gs[1..]);
      assert GroupTrees(gs)[1..] == GroupTrees(gs[1..]);
      KidsText(GroupTrees(gs), Array, GroupText(gs[0]), GroupsText(gs[1..]));
    }
  }

  // What is printed for a record, whatever the ids are.
  lemma RecordIsText(userid: string, gs: seq<Group>)
    ensures Show(UserTree(userid, gs), None) == Some(RecordText(userid, gs))
  {
    hide Show, ShowKids, GroupTrees, GroupsText, FieldText, Quoted;
    GroupsAreText(gs);
    ListText(GroupTrees(gs), GroupsText(gs));
    LeafText(userid, 0);
    TwoFieldsText("userid", Text(userid), Quoted(userid), "group_restriction", List(GroupTrees(gs)),
                  "[" + GroupsText(gs) + "]", None);
  }

  // ----- writing -----

  lemma {:induction false} CreativeKeys(cs: seq<Creative>, id: string)
    ensures id in CreativeMap(cs) <==> exists c :: c in cs && c.mapid == id
  {
    if cs != [] {
      var (front, c) := (cs[..|cs| - 1], cs[|cs| - 1]);
      CreativeKeys(front, id);
      assert cs == front + [c];
    }
  }

  lemma CreativeAppend(cs: seq<Creative>, c: Creative)
    requires c.mapid !in CreativeMap(cs)
    ensures CreativeMap(cs + [c]) == CreativeMap(cs)[c.mapid := c.count]
  {
    assert (cs + [c])[..|cs|] == cs;
  }

  lemma GroupAppend(gs: seq<Group>, g: Group)
    requires g.groupid !in GroupMap(gs)
    ensures GroupMap(gs + [g]) == GroupMap(gs)[g.groupid := CreativeMap(g.creatives)]
  {
    assert (gs + [g])[..|gs|] == gs;
  }

  // The ids of a user's counts need no escape.
  predicate Plain(counts: Counts) {
    forall g | g in counts :: ValidStringText(g) && PlainGroup(counts[g])
  }

  predicate PlainGroup(m: map<string, Count>) {
    forall id | id in m :: ValidStringText(id)
  }

  method WriteCreatives(m: map<string, Count>) returns (list: Tree, ghost cs: seq<Creative>)
    ensures CreativeMap(cs) == m && list == List(CreativeTrees(cs))
    ensures PlainGroup(m) ==> forall c | c in cs :: ValidStringText(c.mapid)
  {
    hide CreativeTree, ValidStringText;
    var rest := m.Keys;
    list, cs := List([]), [];
    while rest != {}
      invariant rest <= m.Keys && CreativeMap(cs) == map id | id in m && id !in rest :: m[id]
      invariant list == List(CreativeTrees(cs))
      invariant PlainGroup(m) ==> forall c | c in cs :: ValidStringText(c.mapid)
      decreases rest
    {
      var id :| id in rest;
      var entry := CreativeTree(Creative(id, m[id]));
      CreativeAppend(cs, Creative(id, m[id]));
      list, cs := list.(kids := list.kids + [entry]), cs + [Creative(id, m[id])];
      rest := rest - {id};
    }
  }

  // writeUserRestriction_impclk, in whatever order the maps are gone through.
  method WriteUser(userid: string, counts: Counts) returns (text: string, ghost gs: seq<Group>)
    ensures GroupMap(gs) == counts && (Plain(counts) ==> IdsAreText(gs))
    ensures Show(UserTree(userid, gs), None) == Some(text) && text == RecordText(userid, gs)
  {
    hide GroupTree, ValidStringText, Show, CreativeTrees;
    hide RecordText;
    var rest := counts.Keys;
    var list := List([]);
    gs := [];
    while rest != {}
      invariant rest <= counts.Keys && GroupMap(gs) == map g | g in counts && g !in rest :: counts[g]
      invariant list == List(GroupTrees(gs)) && (Plain(counts) ==> IdsAreText(gs))
      decreases rest
    {
      var groupid :| groupid in rest;
      var creatives, cs := WriteCreatives(counts[groupid]);
      var g := Group(groupid, cs);
      var entry := Added(Added(NO_FIELDS, "groupid", Text(groupid)), "creative_restriction", creatives);
      assert entry == GroupTree(g) by { GroupEntry(g); }
      GroupAppend(gs, g);
      list, gs := list.(kids := list.kids + [entry]), gs + [g];
      rest := rest - {groupid};
    }
    var root := Added(Added(NO_FIELDS, "userid", Text(userid)), "group_restriction", list);
    RecordIsText(userid, gs);
    text := Show(root, None).value;
  }

  lemma GroupEntry(g: Group)
    ensures GroupTree(g)
            == Added(Added(NO_FIELDS, "groupid", Text(g.groupid)), "creative_restriction",
                List(CreativeTrees(g.creatives)))
  {
  }

  // ----- reading back -----

  lemma TwoLabels(a: string, x: Tree, b: string, y: Tree)
    requires a != b
    ensures var t := Added(Added(NO_FIELDS, a, x), b, y);
            t.kind == Object && t.kids == [Label(a, x), Label(b, y)] && FirstLabel(t.kids, a) == 0
              && FirstLabel(t.kids, b) == 1
  {
  }

  lemma CreativeLabels(c: Creative)
    ensures var t := CreativeTree(c);
            && t.kind == Object
            && t.kids == [Label("mapid", Text(c.mapid)), Label("starttime", Int(Signed(c.count.starttime))),
                 Label("imp", Int(Signed(c.count.imp)))]
            && FirstLabel(t.kids, "mapid") == 0 && FirstLabel(t.kids, "starttime") == 1
               && FirstLabel(t.kids, "imp") == 2
  {
    hide Decimal;
    var t := CreativeTree(c);
    FirstLabelUnique(t.kids, "starttime", 1);
    FirstLabelUnique(t.kids, "imp", 2);
  }

  lemma SignedBack(n: Uint32)
    ensures Unsigned(Atoi(Decimal(Signed(n)))) == n
  {
    AtoiOfDecimal(Signed(n));
  }

  method ReadCreative(entry: Tree, ghost c: Creative) returns (mapid: string, count: Count)
    requires entry == CreativeTree(c)
    ensures mapid == c.mapid && count == c.count
  {
    hide Decimal, Atoi, CreativeTree;
    CreativeLabels(c);
    SignedBack(c.count.starttime);
    SignedBack(c.count.imp);
    mapid, count := "", Count(0, 0);
    var i := FindFirstLabel(entry, "mapid");
    if i < |entry.kids| && entry.kids[i].kids[0].kind == String { mapid := entry.kids[i].kids[0].text; }
    i := FindFirstLabel(entry, "starttime");
    if i < |entry.kids| && entry.kids[i].kids[0].kind == Number {
      count := count.(starttime := Unsigned(Atoi(entry.kids[i].kids[0].text)));
    }
    i := FindFirstLabel(entry, "imp");
    if i < |entry.kids| && entry.kids[i].kids[0].kind == Number {
      count := count.(imp := Unsigned(Atoi(entry.kids[i].kids[0].text)));
    }
  }

  method ReadGroup(entry: Tree, ghost g: Group) returns (groupid: string, creatives: map<string, Count>)
    requires entry == GroupTree(g)
    ensures groupid == g.groupid && creatives == CreativeMap(g.creatives)
  {
    hide CreativeTree, CreativeMap;
    TwoLabels("groupid", Text(g.groupid), "creative_restriction", List(CreativeTrees(g.creatives)));
    groupid, creatives := "", map[];
    var i := FindFirstLabel(entry, "groupid");
    if i < |entry.kids| && entry.kids[i].kids[0].kind == String { groupid := entry.kids[i].kids[0].text; }
    i := FindFirstLabel(entry, "creative_restriction");
    var list := entry.kids[i].kids[0].kids;
    assert g.creatives[..0] == [] && CreativeMap([]) == map[] by { NoEntries(); }
    var j := 0;
    while j < |list|
      invariant 0 <= j <= |list| && creatives == CreativeMap(g.creatives[..j])
    {
      var mapid, count := ReadCreative(list[j], g.creatives[j]);
      NextCreative(g.creatives, j);
      if mapid !in creatives { creatives := creatives[mapid := count]; }
      j := j + 1;
    }
    assert g.creatives[..j] == g.creatives;
  }

  lemma NoEntries()
    ensures CreativeMap([]) == map[] && GroupMap([]) == map[]
  {
  }

  lemma NextCreative(cs: seq<Creative>, j: nat)
    requires j < |cs|
    ensures var m := CreativeMap(cs[..j]);
            CreativeMap(cs[..j + 1]) == if cs[j].mapid in m then m else m[cs[j].mapid := cs[j].count]
  {
    assert cs[..j + 1][..j] == cs[..j];
  }

  lemma NextGroup(gs: seq<Group>, j: nat)
    requires j < |gs|
    ensures var m := GroupMap(gs[..j]);
            GroupMap(gs[..j + 1]) == if gs[j].groupid in m then m else m[gs[j].groupid := CreativeMap(gs[j].creatives)]
  {
    assert gs[..j + 1][..j] == gs[..j];
  }

  method ReadUser(root: Tree, deviceid: string, ghost user: string, ghost gs: seq<Group>)
      returns (userid: string, counts: Counts)
    requires root == UserTree(user, gs)
    ensures userid == user && counts == GroupMap(gs)
  {
    hide GroupTree, GroupMap, CreativeMap;
    TwoLabels("userid", Text(user), "group_restriction", List(GroupTrees(gs)));
    userid, counts := deviceid, map[];
    var i := FindFirstLabel(root, "userid");
    if i < |root.kids| && root.kids[i].kids[0].kind == String { userid := root.kids[i].kids[0].text; }
    i := FindFirstLabel(root, "group_restriction");
    var list := root.kids[i].kids[0].kids;
    assert gs[..0] == [] && GroupMap([]) == map[] by { NoEntries(); }
    var j := 0;
    while j < |list|
      invariant 0 <= j <= |list| && counts == GroupMap(gs[..j])
    {
      var groupid, creatives := ReadGroup(list[j], gs[j]);
      NextGroup(gs, j);
      if groupid !in counts { counts := counts[groupid := creatives]; }
      j := j + 1;
    }
    assert gs[..j] == gs;
  }

  // Writing a user's counts, parsing the text and reading it: the text is the printed
  // document of entries for these counts, it parses to that document, and reading the
  // document gives the same counts.
  method WriteThenRead(userid: string, counts: Counts)
    returns (text: string, userid': string, counts': Counts, ghost gs: seq<Group>)
    requires ValidStringText(userid) && Plain(counts)
    ensures IdsAreText(gs) && GroupMap(gs) == counts && Show(UserTree(userid, gs), None) == Some(text)
    ensures ParseDocument(text) == (Some(UserTree(userid, gs)), Ok)
    ensures userid' == userid && counts' == counts
  {
    hide Show, ParseDocument, UserTree, GroupMap, ValidStringText;
    text, gs := WriteUser(userid, counts);
    UserTreeValid(userid, gs);
    PrintThenParse(UserTree(userid, gs));
    userid', counts' := ReadUser(ParseDocument(text).0.value, userid, userid, gs);
  }

  // What is printed for a user comes back exactly when no id needs an escape.
  lemma ReadBackIff(userid: string, gs: seq<Group>)
    ensures Show(UserTree(userid, gs), None) == Some(RecordText(userid, gs))
    ensures ParseDocument(RecordText(userid, gs)) == (Some(UserTree(userid, gs)), Ok)
            <==> ValidStringText(userid) && IdsAreText(gs)
  {
    hide *;
    RecordIsText(userid, gs);
    UserTreeValid(userid, gs);
    PrintThenParseIff(UserTree(userid, gs));
  }

  lemma {:induction false} GroupsArePlain(gs: seq<Group>)
    requires IdsAreText(gs)
    ensures Plain(GroupMap(gs))
  {
    if gs != [] {
      var (front, g) := (gs[..|gs| - 1], gs[|gs| - 1]);
      assert forall f | f in front :: f in gs;
      assert IdIsText(g);
      GroupsArePlain(front);
      CreativesArePlain(g.creatives);
    }
  }

  lemma {:induction false} CreativesArePlain(cs: seq<Creative>)
    requires forall c | c in cs :: ValidStringText(c.mapid)
    ensures PlainGroup(CreativeMap(cs))
  {
    if cs != [] { CreativesArePlain(cs[..|cs| - 1]); }
  }

  // ----- UserRestrictionCount -----

  function UserKey(deviceid: string): string {
    "dsp_user_frequency_" + deviceid
  }

  ghost predicate Written(text: string, userid: string, counts: Counts) {
    exists gs :: IdsAreText(gs) && GroupMap(gs) == counts && Show(UserTree(userid, gs), None) == Some(text)
  }

  // What Redis keeps for a user; a text that is not a document counts as none.
  ghost predicate Keeps(redis: Redis, deviceid: string, counts: Counts)
    reads redis
  {
    var text := redis.GetValue(UserKey(deviceid));
    if text == "" || ParseDocument(text).1 != Ok then counts == map[] else Written(text, deviceid, counts)
  }

  // readUserRestriction
  method ReadRestriction(redis: Redis, deviceid: string, ghost counts: Counts) returns (userid: string, counts': Counts)
    requires Keeps(redis, deviceid, counts) && ValidStringText(deviceid)
    ensures userid == deviceid && counts' == counts && Plain(counts)
  {
    hide Show, ParseDocument, UserTree, GroupMap, ValidStringText;
    userid, counts' := deviceid, map[];
    var value := redis.GetValue(UserKey(deviceid));
    if value == "" { return; }
    var parsed := ParseDocument(value);
    if parsed.1 != Ok { return; }
    ghost var gs :| IdsAreText(gs) && GroupMap(gs) == counts && Show(UserTree(deviceid, gs), None) == Some(value);
    UserTreeValid(deviceid, gs);
    PrintThenParse(UserTree(deviceid, gs));
    GroupsArePlain(gs);
    userid, counts' := ReadUser(parsed.0.value, deviceid, deviceid, gs);
  }

  // The part between reading and writing; changed is false where it goes to exit.
  method CountEvent(counts: Counts, e: Event) returns (counts': Counts, changed: bool)
    requires UserCaps.Ready(counts, e)
    ensures changed == UserCaps.Step(counts, e).Some? && counts' == NewCounts(counts, e)
  {
    hide Recount, Fresh, FindCap;
    counts', changed := counts, true;
    if e.groupid !in counts {
      counts' := counts[e.groupid := map[Id(e) := Fresh(e)]];
      return;
    }
    var group := counts[e.groupid];
    var (id, cap) := (Id(e), 0);
    if e.scope == Creative2 {
      var found := FindCap(e.capping, e.mapid);
      if found.None? { return counts, false; }
      cap := found.value;
    } else {
      cap := e.capping[0].frequency;
    }
    if id in group {
      var c, again := CountAgain(group[id], cap, e);
      if !again { return counts, false; }
      counts' := counts[e.groupid := group[id := c]];
    } else {
      counts' := counts[e.groupid := group[id := Fresh(e)]];
    }
  }

  method CountAgain(c: Count, cap: Uint32, e: Event) returns (c': Count, changed: bool)
    ensures changed == Recount(c, cap, e).Some? && (changed ==> c' == Recount(c, cap, e).value)
  {
    c', changed := c, true;
    if c'.imp >= cap {
      if Minus(e.now, c'.starttime) < Length(e.period) { return c, false; }
      c' := Count(StartTime(e.period, e.now), 1);
      return;
    }
    var intervaltime := Signed(Minus(Minus(e.now, c'.starttime), Length(e.period)));
    if intervaltime >= 0 {
      c' := Count(StartTime(e.period, e.now), 1);
    } else {
      c' := c'.(imp := (c'.imp + 1) % 0x1_0000_0000);
    }
  }

  lemma StepIsPlain(counts: Counts, e: Event)
    requires Plain(counts) && ValidStringText(e.groupid) && ValidStringText(e.mapid) && UserCaps.Ready(counts, e)
    ensures Plain(NewCounts(counts, e))
  {
    hide ValidStringText, Recount, Fresh, CapOf;
  }

  method UserRestrictionCount(redis: Redis, deviceid: string, e: Event, ghost counts: Counts)
    requires UserCaps.Ready(counts, e) && ValidStringText(deviceid) && ValidStringText(e.groupid)
             && ValidStringText(e.mapid)
    requires Keeps(redis, deviceid, counts)
    modifies redis
    ensures Keeps(redis, deviceid, NewCounts(counts, e)) && redis.hashes == old(redis.hashes)
    ensures redis.values == if UserCaps.Step(counts, e).None? then old(redis.values)
                            else old(redis.values)["dsp_user_frequency_" + deviceid :=
                                                   redis.GetValue("dsp_user_frequency_" + deviceid)]
  {
    hide Show, ParseDocument, UserTree, GroupMap, ValidStringText, NewCounts, Keeps, RecordText;
    var userid, current := ReadRestriction(redis, deviceid, counts);
    var next, changed := CountEvent(current, e);
    if !changed {
      NothingChanged(counts, e);
      return;
    }
    StepIsPlain(counts, e);
    var text, gs := WriteUser(userid, next);
    UserTreeValid(userid, gs);
    PrintThenParse(UserTree(userid, gs));
    NotEmpty(userid, gs, text);
    if text != "" { redis.SetValue(UserKey(userid), text); }
    assert Keeps(redis, deviceid, next) by { Kept(redis, deviceid, gs, text); }
  }

  lemma NothingChanged(counts: Counts, e: Event)
    requires UserCaps.Ready(counts, e) && UserCaps.Step(counts, e).None?
    ensures NewCounts(counts, e) == counts
  {
  }

  lemma Kept(redis: Redis, deviceid: string, gs: seq<Group>, text: string)
    requires IdsAreText(gs) && Show(UserTree(deviceid, gs), None) == Some(text)
    requires ParseDocument(text).1 == Ok && (text != "" ==> redis.GetValue(UserKey(deviceid)) == text)
    ensures Keeps(redis, deviceid, GroupMap(gs))
  {
    hide ParseDocument, GroupMap;
    NotEmpty(deviceid, gs, text);
  }

  lemma NotEmpty(userid: string, gs: seq<Group>, text: string)
    requires Show(UserTree(userid, gs), None) == Some(text)
    ensures text != ""
  {
  }
}

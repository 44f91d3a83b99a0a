/** What the printer writes is JSON, and as short as a text of that tree can be. */
module JsonCompact {
  import opened Wrappers
  import opened JsonTree
  import opened JsonGrammar
  import opened JsonText
  import opened JsonRoundTrip
  import opened JsonTexts

  // ----- it is a text of RFC 8259 -----

  lemma {:induction false} ShownValue(t: Tree, parent: Kind)
    requires ValidValue(t) && (parent == String || parent == Array)
    ensures Show(t, Some(parent)).Some? && IsValue(Show(t, Some(parent)).value, t, false)
    decreases t, 0
  {
    hide ValidStringText, ValidNumberText;
    if t.kind == Object || t.kind == Array {
      ShowContainer(t, Some(parent));
      var inner := ShowKids(t.kids, t.kind).value;
      if t.kind == Object { ShownMembers(t.kids); } else { ShownElements(t.kids); }
      hide Show, ShowKids;
      BracketsAround(inner, t);
    } else {
      ShownLeaf(t, parent);
    }
  }

  lemma ShownLeaf(t: Tree, parent: Kind)
    requires ValidValue(t) && (parent == String || parent == Array) && t.kind != Object && t.kind != Array
    ensures Show(t, Some(parent)).Some? && IsValue(Show(t, Some(parent)).value, t, false)
  {
    hide ValidStringText, ValidNumberText;
    if t.kind == String {
      assert ShowKids(t.kids, String) == Some("");
      assert "\"" + t.text + "\"" + "" + "" == "\"" + t.text + "\"";
    }
    assert t == Tree(t.kind, t.text, t.kids);
  }

  lemma BracketsAround(inner: string, t: Tree)
    requires t.text == "" && (t.kind == Object || t.kind == Array)
    requires if t.kind == Object then Members(inner, t.kids, false) else Elements(inner, t.kids, false)
    ensures IsValue([if t.kind == Object then '{' else '['] + inner + [if t.kind == Object then '}' else ']'], t, false)
  {
    var s := [if t.kind == Object then '{' else '['] + inner + [if t.kind == Object then '}' else ']'];
    assert Inner(s) == inner;
  }

  lemma Bare(s: string, t: Tree)
    requires IsValue(s, t, false)
    ensures Padded(s, t, false)
  {
    hide IsValue;
    Unpadded(s, t, false);
  }

  lemma {:induction false} ShownElements(kids: seq<Tree>)
    requires forall i | 0 <= i < |kids| :: ValidValue(kids[i])
    ensures ShowKids(kids, Array).Some? && Elements(ShowKids(kids, Array).value, kids, false)
    decreases kids
  {
    hide ValidValue, Padded, IsValue, Show;
    if kids != [] {
      ShownValue(kids[0], Array);
      Bare(Show(kids[0], Some(Array)).value, kids[0]);
      ShownElements(kids[1..]);
      var (first, others) := (Show(kids[0], Some(Array)).value, ShowKids(kids[1..], Array).value);
      if |kids| == 1 {
        assert ShowKids(kids[1..], Array) == Some("");
        assert first + "" + "" == first;
      } else {
        CommaSplit(first, others);
      }
    }
  }

  lemma CommaSplit(first: string, others: string)
    ensures var s := first + "," + others;
            |first| < |s| && s[|first|] == ',' && s[..|first|] == first && s[|first| + 1..] == others
  {
  }

  lemma {:induction false} ShownMember(k: Tree)
    requires ValidLabel(k)
    ensures Show(k, Some(Object)).Some? && Member(Show(k, Some(Object)).value, k, false)
    decreases k
  {
    hide Show, ValidValue, ValidStringText, IsValue, Padded, PaddedString;
    ShowLabel(k);
    ShownValue(k.kids[0], String);
    var (name, v) := ("\"" + k.text + "\"", Show(k.kids[0], Some(String)).value);
    Bare(v, k.kids[0]);
    NothingIsBlank();
    PadString("", name, "", k.text);
    assert "" + name + "" == name;
    var s := name + (":" + v);
    assert s[..|name|] == name && s[|name|] == ':' && s[|name| + 1..] == v;
  }

  lemma {:induction false} ShownMembers(kids: seq<Tree>)
    requires forall i | 0 <= i < |kids| :: ValidLabel(kids[i])
    ensures ShowKids(kids, Object).Some? && Members(ShowKids(kids, Object).value, kids, false)
    decreases kids
  {
    hide ValidLabel, Member, Show;
    if kids != [] {
      ShownMember(kids[0]);
      ShownMembers(kids[1..]);
      var (first, others) := (Show(kids[0], Some(Object)).value, ShowKids(kids[1..], Object).value);
      if |kids| == 1 {
        assert ShowKids(kids[1..], Object) == Some("");
        assert first + "" + "" == first;
      } else {
        CommaSplit(first, others);
      }
    }
  }

  // A printed document is a text of RFC 8259 that denotes it.
  lemma PrintIsJson(t: Tree)
    requires ValidDocument(t)
    ensures Show(t, None).Some? && Denotes(Show(t, None).value, t, false)
  {
    hide Show, ShowKids, Padded, ValidValue, IsValue;
    ShownValue(t, Array);
    SameAnywhere(t);
    Bare(Show(t, None).value, t);
  }

  lemma SameAnywhere(t: Tree)
    requires t.kind == Object
    ensures Show(t, None) == Show(t, Some(Array))
  {
  }

  // ----- and the shortest one -----

  lemma {:induction false} ValueIsLonger(s: string, t: Tree, parent: Kind)
    requires IsValue(s, t, true) && ValidValue(t) && (parent == String || parent == Array)
    ensures Show(t, Some(parent)).Some? && |Show(t, Some(parent)).value| <= |s|
    decreases t, 0
  {
    hide ValidStringText, ValidNumberText;
    if t.kind == Object || t.kind == Array {
      ShowContainer(t, Some(parent));
      if t.kind == Object { MembersAreLonger(Inner(s), t.kids); } else { ElementsAreLonger(Inner(s), t.kids); }
      hide Show, ShowKids;
    } else {
      LeafIsAsLong(s, t, parent);
    }
  }

  lemma LeafIsAsLong(s: string, t: Tree, parent: Kind)
    requires IsValue(s, t, true) && (parent == String || parent == Array) && t.kind != Object && t.kind != Array
    ensures Show(t, Some(parent)) == Some(s)
  {
    hide ValidStringText, ValidNumberText;
    if t.kind == String {
      assert ShowKids(t.kids, String) == Some("");
      assert "\"" + t.text + "\"" + "" + "" == "\"" + t.text + "\"";
    }
  }

  lemma {:induction false} PaddedIsLonger(s: string, t: Tree, parent: Kind)
    requires Padded(s, t, true) && ValidValue(t) && (parent == String || parent == Array)
    ensures Show(t, Some(parent)).Some? && |Show(t, Some(parent)).value| <= |s|
    decreases t, 1
  {
    hide IsValue, ValidValue, Show;
    var before, v, after := PadParts(s, t, true);
    ValueIsLonger(v, t, parent);
  }

  lemma {:induction false} ElementsAreLonger(s: string, kids: seq<Tree>)
    requires Elements(s, kids, true) && forall i | 0 <= i < |kids| :: ValidValue(kids[i])
    ensures ShowKids(kids, Array).Some? && |ShowKids(kids, Array).value| <= |s|
    decreases kids
  {
    hide ValidValue, Padded, Show;
    if kids != [] {
      if |kids| == 1 && Padded(s, kids[0], true) {
        PaddedIsLonger(s, kids[0], Array);
        assert ShowKids(kids[1..], Array) == Some("");
      } else {
        var k :| 0 <= k < |s| && s[k] == ',' && Padded(s[..k], kids[0], true) && Elements(s[k + 1..], kids[1..], true);
        PaddedIsLonger(s[..k], kids[0], Array);
        ElementsAreLonger(s[k + 1..], kids[1..]);
      }
    }
  }

  lemma {:induction false} MemberIsLonger(s: string, k: Tree)
    requires Member(s, k, true) && ValidLabel(k)
    ensures Show(k, Some(Object)).Some? && |Show(k, Some(Object)).value| <= |s|
    decreases k
  {
    hide Show, ValidValue, Padded, PaddedString, ValidStringText;
    ShowLabel(k);
    var i :| 0 <= i < |s| && s[i] == ':' && PaddedString(s[..i], k.text) && Padded(s[i + 1..], k.kids[0], true);
    var before, after := PadStringParts(s[..i], k.text);
    PaddedIsLonger(s[i + 1..], k.kids[0], String);
  }

  lemma {:induction false} MembersAreLonger(s: string, kids: seq<Tree>)
    requires Members(s, kids, true) && forall i | 0 <= i < |kids| :: ValidLabel(kids[i])
    ensures ShowKids(kids, Object).Some? && |ShowKids(kids, Object).value| <= |s|
    decreases kids
  {
    hide ValidLabel, Member, Show;
    if |kids| == 1 {
      MemberIsLonger(s, kids[0]);
      assert ShowKids(kids[1..], Object) == Some("");
    } else if kids != [] {
      var k :| 0 <= k < |s| && s[k] == ',' && Member(s[..k], kids[0], true) && Members(s[k + 1..], kids[1..], true);
      MemberIsLonger(s[..k], kids[0]);
      MembersAreLonger(s[k + 1..], kids[1..]);
    }
  }

  // No text that denotes the document is shorter than the printed one.
  lemma PrintIsShortest(t: Tree, s: string)
    requires Denotes(s, t, true)
    ensures ValidDocument(t) && Show(t, None).Some? && |Show(t, None).value| <= |s|
  {
    hide Show, Padded, ValidValue;
    PaddedIsValid(s, t, true);
    PaddedIsLonger(s, t, Array);
    SameAnywhere(t);
  }
}

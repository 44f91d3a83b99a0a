/** The grammar of RFC 8259, sections 2 to 7: which texts denote which trees. */
module JsonGrammar {
  import opened Hex
  import opened JsonTree

  // The white space of section 2 and nothing else.
  predicate Blank(s: string) {
    forall i | 0 <= i < |s| :: IsWhitespace(s[i])
  }

  predicate IsString(s: string, text: string) {
    ValidStringText(text) && s == "\"" + text + "\""
  }

  predicate Bracketed(s: string, open: char, close: char) {
    |s| >= 2 && s[0] == open && s[|s| - 1] == close
  }

  function Inner(s: string): string
    requires |s| >= 2
  {
    s[1..|s| - 1]
  }

  // The text s is the value t. With loose, an array may have a comma after its last element.
  ghost predicate IsValue(s: string, t: Tree, loose: bool)
    decreases t, 0
  {
    match t.kind
    case String => t.kids == [] && IsString(s, t.text)
    case Number => t.kids == [] && ValidNumberText(t.text) && s == t.text
    case Object => t.text == "" && Bracketed(s, '{', '}') && Members(Inner(s), t.kids, loose)
    case Array => t.text == "" && Bracketed(s, '[', ']') && Elements(Inner(s), t.kids, loose)
    case True => t == Tree(True, "", []) && s == "true"
    case False => t == Tree(False, "", []) && s == "false"
    case Null => t == Tree(Null, "", []) && s == "null"
  }

  // A value with white space around it.
  ghost predicate Padded(s: string, t: Tree, loose: bool)
    decreases t, 1
  {
    exists i: nat, j: nat | i <= j <= |s| :: Blank(s[..i]) && IsValue(s[i..j], t, loose) && Blank(s[j..])
  }

  ghost predicate PaddedString(s: string, text: string) {
    exists i: nat, j: nat | i <= j <= |s| :: Blank(s[..i]) && IsString(s[i..j], text) && Blank(s[j..])
  }

  ghost predicate Elements(s: string, kids: seq<Tree>, loose: bool)
    decreases kids
  {
    if kids == [] then Blank(s)
    else
      || (|kids| == 1 && Padded(s, kids[0], loose))
      || ((|kids| > 1 || loose) && exists k | 0 <= k < |s| ::
            s[k] == ',' && Padded(s[..k], kids[0], loose) && Elements(s[k + 1..], kids[1..], loose))
  }

  // A name, a colon and a value.
  ghost predicate Member(s: string, member: Tree, loose: bool)
    decreases member
  {
    && member.kind == String && |member.kids| == 1
    && exists k | 0 <= k < |s| :: s[k] == ':' && PaddedString(s[..k], member.text)
                                  && Padded(s[k + 1..], member.kids[0], loose)
  }

  ghost predicate Members(s: string, kids: seq<Tree>, loose: bool)
    decreases kids
  {
    if kids == [] then Blank(s)
    else if |kids| == 1 then Member(s, kids[0], loose)
    else
      exists k | 0 <= k < |s| :: s[k] == ',' && Member(s[..k], kids[0], loose) && Members(s[k + 1..], kids[1..], loose)
  }

  // A JSON text whose value is an object.
  ghost predicate Denotes(s: string, t: Tree, loose: bool) {
    t.kind == Object && Padded(s, t, loose)
  }

  predicate IsWord(s: string) {
    s == "true" || s == "false" || s == "null"
  }

  // The beginning of a string, a number or a literal name, without what would end it.
  ghost predicate Unfinished(s: string) {
    && s != ""
    && (|| (s[0] == '\"' && exists more: string :: ValidStringText(s[1..] + more))
        || (exists more: string :: ValidNumberText(s + more))
        || (exists more: string :: more != "" && IsWord(s + more)))
  }

  // The classes of characters, spelled out.
  lemma ClassesAre(c: char)
    ensures IsWhitespace(c) <==> c in " \t\n\r"
    ensures IsDigit(c) <==> c in "0123456789"
    ensures IsHex(c) <==> c in "0123456789abcdefABCDEF"
    ensures IsSimpleEscape(c) <==> c in "\"\\/bfnrt"
  {
    DigitsAre(c);
    HexAre(c);
  }

  lemma DigitsAre(c: char)
    ensures IsDigit(c) <==> c in "0123456789"
  {
    if IsDigit(c) { assert "0123456789"[c as int - '0' as int] == c; }
  }

  lemma HexAre(c: char)
    ensures IsHex(c) <==> c in "0123456789abcdefABCDEF"
  {
    if '0' <= c <= '9' { assert "0123456789abcdefABCDEF"[c as int - '0' as int] == c; }
    if 'a' <= c <= 'f' { assert "0123456789abcdefABCDEF"[c as int - 'a' as int + 10] == c; }
    if 'A' <= c <= 'F' { assert "0123456789abcdefABCDEF"[c as int - 'A' as int + 16] == c; }
  }

  // ----- parts of a text -----

  lemma Pad(before: string, s: string, after: string, t: Tree, loose: bool)
    requires Blank(before) && IsValue(s, t, loose) && Blank(after)
    ensures Padded(before + s + after, t, loose)
  {
    hide IsValue;
    var (w, i, j) := (before + s + after, |before|, |before| + |s|);
    assert w[..i] == before && w[i..j] == s && w[j..] == after;
  }

  lemma PadParts(s: string, t: Tree, loose: bool) returns (before: string, v: string, after: string)
    requires Padded(s, t, loose)
    ensures Blank(before) && IsValue(v, t, loose) && Blank(after) && s == before + v + after
  {
    hide IsValue;
    var i: nat, j: nat :| i <= j <= |s| && Blank(s[..i]) && IsValue(s[i..j], t, loose) && Blank(s[j..]);
    before, v, after := s[..i], s[i..j], s[j..];
  }

  lemma PadString(before: string, s: string, after: string, text: string)
    requires Blank(before) && IsString(s, text) && Blank(after)
    ensures PaddedString(before + s + after, text)
  {
    hide IsString;
    var (w, i, j) := (before + s + after, |before|, |before| + |s|);
    assert w[..i] == before && w[i..j] == s && w[j..] == after;
  }

  lemma PadStringParts(s: string, text: string) returns (before: string, after: string)
    requires PaddedString(s, text)
    ensures Blank(before) && ValidStringText(text) && Blank(after) && s == before + ("\"" + text + "\"") + after
  {
    var i: nat, j: nat :| i <= j <= |s| && Blank(s[..i]) && IsString(s[i..j], text) && Blank(s[j..]);
    before, after := s[..i], s[j..];
  }

  // ----- what is denoted -----

  // Only grammatical trees are denoted.
  lemma {:induction false} ValueIsValid(s: string, t: Tree, loose: bool)
    requires IsValue(s, t, loose)
    ensures ValidValue(t)
    decreases t, 0
  {
    if t.kind == Object { MembersAreValid(Inner(s), t.kids, loose); }
    if t.kind == Array { ElementsAreValid(Inner(s), t.kids, loose); }
  }

  lemma {:induction false} PaddedIsValid(s: string, t: Tree, loose: bool)
    requires Padded(s, t, loose)
    ensures ValidValue(t)
    decreases t, 1
  {
    hide IsValue, ValidValue;
    var _, v, _ := PadParts(s, t, loose);
    ValueIsValid(v, t, loose);
  }

  lemma {:induction false} ElementsAreValid(s: string, kids: seq<Tree>, loose: bool)
    requires Elements(s, kids, loose)
    ensures forall i | 0 <= i < |kids| :: ValidValue(kids[i])
    decreases kids
  {
    hide Padded, ValidValue;
    if kids != [] {
      if |kids| == 1 && Padded(s, kids[0], loose) {
        PaddedIsValid(s, kids[0], loose);
      } else {
        var k :| 0 <= k < |s| && s[k] == ',' && Padded(s[..k], kids[0], loose)
          && Elements(s[k + 1..], kids[1..], loose);
        PaddedIsValid(s[..k], kids[0], loose);
        ElementsAreValid(s[k + 1..], kids[1..], loose);
        assert forall i | 0 < i < |kids| :: kids[i] == kids[1..][i - 1];
      }
    }
  }

  lemma {:induction false} MemberIsValid(s: string, member: Tree, loose: bool)
    requires Member(s, member, loose)
    ensures ValidLabel(member)
    decreases member
  {
    hide Padded, PaddedString;
    var k :| 0 <= k < |s| && s[k] == ':' && PaddedString(s[..k], member.text)
      && Padded(s[k + 1..], member.kids[0], loose);
    var _, _ := PadStringParts(s[..k], member.text);
    PaddedIsValid(s[k + 1..], member.kids[0], loose);
  }

  lemma {:induction false} MembersAreValid(s: string, kids: seq<Tree>, loose: bool)
    requires Members(s, kids, loose)
    ensures forall i | 0 <= i < |kids| :: ValidLabel(kids[i])
    decreases kids
  {
    hide Member, ValidLabel;
    if |kids| == 1 {
      MemberIsValid(s, kids[0], loose);
    } else if kids != [] {
      var k :| 0 <= k < |s| && s[k] == ',' && Member(s[..k], kids[0], loose) && Members(s[k + 1..], kids[1..], loose);
      MemberIsValid(s[..k], kids[0], loose);
      MembersAreValid(s[k + 1..], kids[1..], loose);
      assert forall i | 0 < i < |kids| :: kids[i] == kids[1..][i - 1];
    }
  }

  // A text of RFC 8259 keeps its meaning where a last comma is allowed.
  lemma {:induction false} StrictIsLoose(s: string, t: Tree)
    requires IsValue(s, t, false)
    ensures IsValue(s, t, true)
    decreases t, 0
  {
    if t.kind == Object { MembersLoosen(Inner(s), t.kids); }
    if t.kind == Array { ElementsLoosen(Inner(s), t.kids); }
  }

  lemma {:induction false} PaddedLoosens(s: string, t: Tree)
    requires Padded(s, t, false)
    ensures Padded(s, t, true)
    decreases t, 1
  {
    hide IsValue;
    var before, v, after := PadParts(s, t, false);
    StrictIsLoose(v, t);
    Pad(before, v, after, t, true);
  }

  lemma {:induction false} ElementsLoosen(s: string, kids: seq<Tree>)
    requires Elements(s, kids, false)
    ensures Elements(s, kids, true)
    decreases kids
  {
    hide Padded;
    if |kids| == 1 {
      PaddedLoosens(s, kids[0]);
    } else if kids != [] {
      var k :| 0 <= k < |s| && s[k] == ',' && Padded(s[..k], kids[0], false) && Elements(s[k + 1..], kids[1..], false);
      PaddedLoosens(s[..k], kids[0]);
      ElementsLoosen(s[k + 1..], kids[1..]);
    }
  }

  lemma {:induction false} MemberLoosens(s: string, member: Tree)
    requires Member(s, member, false)
    ensures Member(s, member, true)
    decreases member
  {
    hide Padded, PaddedString;
    var k :| 0 <= k < |s| && s[k] == ':' && PaddedString(s[..k], member.text)
      && Padded(s[k + 1..], member.kids[0], false);
    PaddedLoosens(s[k + 1..], member.kids[0]);
  }

  lemma {:induction false} MembersLoosen(s: string, kids: seq<Tree>)
    requires Members(s, kids, false)
    ensures Members(s, kids, true)
    decreases kids
  {
    hide Member;
    if |kids| == 1 {
      MemberLoosens(s, kids[0]);
    } else if kids != [] {
      var k :| 0 <= k < |s| && s[k] == ',' && Member(s[..k], kids[0], false) && Members(s[k + 1..], kids[1..], false);
      MemberLoosens(s[..k], kids[0]);
      MembersLoosen(s[k + 1..], kids[1..]);
    }
  }
}

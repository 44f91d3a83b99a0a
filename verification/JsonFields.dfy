/** Labels and numbers inside a document: finding, adding and rewriting them. */
module JsonFields {
  import opened Wrappers
  import opened JsonTree

  // ----- decimal numbers -----

  function Digit(n: nat): char
    requires n < 10
  {
    "0123456789"[n]
  }

  // "%d"
  function Decimal(n: int): (s: string)
    decreases if n < 0 then 1 - n else n
  {
    if n < 0 then "-" + Decimal(-n)
    else if n < 10 then [Digit(n)]
    else Decimal(n / 10) + [Digit(n % 10)]
  }

  predicate AllDigits(s: string) {
    forall i | 0 <= i < |s| :: IsDigit(s[i])
  }

  // The number that the leading digits of a text stand for, after value v.
  function LeadingNumber(s: string, v: int): int {
    if s == "" || !IsDigit(s[0]) then v else LeadingNumber(s[1..], 10 * v + (s[0] as int - '0' as int))
  }

  // atoi, on numbers that fit an int and without leading white space.
  function Atoi(s: string): int {
    if s != "" && s[0] == '-' then -LeadingNumber(s[1..], 0)
    else if s != "" && s[0] == '+' then LeadingNumber(s[1..], 0)
    else LeadingNumber(s, 0)
  }

  lemma {:induction false} LeadingAppend(s: string, c: char, v: int)
    requires AllDigits(s) && IsDigit(c)
    ensures LeadingNumber(s + [c], v) == 10 * LeadingNumber(s, v) + (c as int - '0' as int)
  {
    if s == "" {
      assert ([c])[1..] == "";
      assert s + [c] == [c];
    } else {
      assert (s + [c])[1..] == s[1..] + [c];
      LeadingAppend(s[1..], c, 10 * v + (s[0] as int - '0' as int));
    }
  }

  lemma {:induction false} DecimalIsDigits(n: nat)
    ensures Decimal(n) != "" && AllDigits(Decimal(n)) && LeadingNumber(Decimal(n), 0) == n
    ensures Decimal(n)[0] == '0' <==> n == 0
    ensures n == 0 ==> Decimal(n) == "0"
  {
    if n >= 10 {
      DecimalIsDigits(n / 10);
      LeadingAppend(Decimal(n / 10), Digit(n % 10), 0);
    } else {
      assert [Digit(n)][1..] == "";
    }
  }

  lemma AtoiOfDecimal(n: int)
    ensures Atoi(Decimal(n)) == n
  {
    if n < 0 {
      DecimalIsDigits(-n);
      assert ("-" + Decimal(-n))[1..] == Decimal(-n);
    } else {
      DecimalIsDigits(n);
    }
  }

  lemma {:induction false} SkipAllDigits(s: string)
    requires AllDigits(s)
    ensures SkipDigits(s) == ""
  {
    if s != "" { SkipAllDigits(s[1..]); }
  }

  lemma DecimalIsValid(n: int)
    ensures ValidNumberText(Decimal(n))
  {
    var m := if n < 0 then -n else n;
    DecimalIsDigits(m);
    SkipAllDigits(Decimal(m)[1..]);
    if n < 0 { assert ("-" + Decimal(m))[1..] == Decimal(m); }
    if m == 0 { assert Decimal(m)[1..] == ""; }
  }

  // ----- fields of an object -----

  // The number of labels before the first of that name.
  function FirstLabel(kids: seq<Tree>, name: string): (i: nat)
    ensures i <= |kids|
    ensures forall j | 0 <= j < i :: kids[j].text != name
    ensures i < |kids| ==> kids[i].text == name
  {
    if kids == [] || kids[0].text == name then 0 else 1 + FirstLabel(kids[1..], name)
  }

  lemma FirstLabelUnique(kids: seq<Tree>, name: string, i: nat)
    requires i <= |kids| && (forall j | 0 <= j < i :: kids[j].text != name) && (i < |kids| ==> kids[i].text == name)
    ensures FirstLabel(kids, name) == i
  {
  }

  // json_find_first_label: null is the number of labels.
  method FindFirstLabel(obj: Tree, name: string) returns (i: nat)
    requires obj.kind == Object
    ensures i == FirstLabel(obj.kids, name)
  {
    i := 0;
    while i < |obj.kids|
      invariant 0 <= i <= |obj.kids|
      invariant forall j | 0 <= j < i :: obj.kids[j].text != name
    {
      if obj.kids[i].text == name { break; }
      i := i + 1;
    }
    FirstLabelUnique(obj.kids, name, i);
  }

  // The value of the first label of that name.
  function Lookup(obj: Tree, name: string): Option<Tree> {
    var i := FirstLabel(obj.kids, name);
    if i < |obj.kids| && obj.kids[i].kids != [] then Some(obj.kids[i].kids[0]) else None
  }

  predicate Whole(obj: Tree) {
    obj.kind == Object && ValidValue(obj)
  }

  function Label(name: string, value: Tree): Tree {
    Tree(String, name, [value])
  }

  function Text(s: string): Tree {
    Tree(String, s, [])
  }

  function Int(n: int): Tree {
    Tree(Number, Decimal(n), [])
  }

  // json_insert_child on an object: the new label comes last.
  function Added(obj: Tree, name: string, value: Tree): Tree {
    obj.(kids := obj.kids + [Label(name, value)])
  }

  // The first label's value replaced.
  function Replaced(obj: Tree, i: nat, value: Tree): Tree
    requires i < |obj.kids|
  {
    obj.(kids := obj.kids[i := Label(obj.kids[i].text, value)])
  }

  lemma AddedLookup(obj: Tree, name: string, value: Tree, other: string)
    requires Whole(obj)
    ensures Lookup(Added(obj, name, value), other)
            == if Lookup(obj, other).Some? then Lookup(obj, other) else if other == name then Some(value) else None
  {
    var (kids, new_kids) := (obj.kids, obj.kids + [Label(name, value)]);
    var i := FirstLabel(kids, other);
    assert i < |kids| ==> ValidLabel(kids[i]);
    FirstLabelUnique(new_kids, other, if i < |kids| || other == name then i else i + 1);
  }

  lemma ReplacedLookup(obj: Tree, name: string, value: Tree, other: string)
    requires Whole(obj) && FirstLabel(obj.kids, name) < |obj.kids|
    ensures Lookup(obj, name).Some?
    ensures Lookup(Replaced(obj, FirstLabel(obj.kids, name), value), other)
            == if other == name then Some(value) else Lookup(obj, other)
  {
    var i := FirstLabel(obj.kids, name);
    assert ValidLabel(obj.kids[i]);
    FirstLabelUnique(obj.kids[i := Label(name, value)], other, FirstLabel(obj.kids, other));
  }

  lemma LookupFound(obj: Tree, name: string)
    requires Whole(obj)
    ensures Lookup(obj, name).Some? <==> FirstLabel(obj.kids, name) < |obj.kids|
    ensures Lookup(obj, name).Some? ==>
              var found := obj.kids[FirstLabel(obj.kids, name)];
              found == Label(name, Lookup(obj, name).value) && ValidValue(Lookup(obj, name).value)
  {
    var i := FirstLabel(obj.kids, name);
    if i < |obj.kids| { assert ValidLabel(obj.kids[i]); }
  }

  lemma AddedIsWhole(obj: Tree, name: string, value: Tree)
    requires Whole(obj) && ValidStringText(name) && ValidValue(value)
    ensures Whole(Added(obj, name, value))
  {
  }

  lemma ReplacedIsWhole(obj: Tree, i: nat, value: Tree)
    requires Whole(obj) && i < |obj.kids| && ValidValue(value)
    ensures Whole(Replaced(obj, i, value))
  {
    assert ValidLabel(obj.kids[i]);
  }

  const NO_FIELDS: Tree := Tree(Object, "", [])

  // Characters that need no escape.
  predicate PlainChar(c: char) {
    c >= ' ' && c != '\"' && c != '\\'
  }

  lemma {:induction false} PlainText(s: string)
    requires forall i | 0 <= i < |s| :: PlainChar(s[i])
    ensures ValidStringText(s)
  {
    if s != "" { PlainText(s[1..]); }
  }
}

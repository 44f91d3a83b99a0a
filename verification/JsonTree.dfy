/** JSON document trees as values, and the codes the parser reports. */
module JsonTree {
  import opened Wrappers
  import opened Hex

  // The seven node types of json.h.
  datatype Kind = String | Number | Object | Array | True | False | Null

  // A node with its children in sibling order. An object's children are its
  // labels; each label is a String node whose single child is the value.
  datatype Tree = Tree(kind: Kind, text: string, kids: seq<Tree>)

  datatype Code =
    | Ok
    | IncompleteDocument
    | WaitingForEof
    | MalformedDocument
    | IllegalCharacter
    | BadTreeStructure
    | UnknownProblem

  // A fragment call that ends with one of these may be followed by another.
  predicate Resumable(c: Code) {
    c == IncompleteDocument || c == WaitingForEof
  }

  predicate IsWhitespace(c: char) {
    c == ' ' || c == '\t' || c == '\n' || c == '\r'
  }

  predicate IsDigit(c: char) {
    '0' <= c <= '9'
  }

  // The characters that may follow a backslash, other than 'u'.
  predicate IsSimpleEscape(c: char) {
    c == '\\' || c == '\"' || c == '/' || c == 'b' || c == 'f' || c == 'n' || c == 'r' || c == 't'
  }

  // The text between the quotes of a string, per section 7 of RFC 8259.
  predicate ValidStringText(s: string) {
    if s == "" then true
    else if s[0] == '\\' then
      && |s| >= 2
      && if s[1] == 'u' then
           && |s| >= 6
           && IsHex(s[2]) && IsHex(s[3]) && IsHex(s[4]) && IsHex(s[5])
           && ValidStringText(s[6..])
         else
           IsSimpleEscape(s[1]) && ValidStringText(s[2..])
    else
      s[0] != '\"' && s[0] >= ' ' && ValidStringText(s[1..])
  }

  function SkipDigits(s: string): string {
    if s != "" && IsDigit(s[0]) then SkipDigits(s[1..]) else s
  }

  // One or more digits, then whatever follows them.
  function Digits(s: string): Option<string> {
    if s != "" && IsDigit(s[0]) then Some(SkipDigits(s[1..])) else None
  }

  function IntPart(s: string): Option<string> {
    if s != "" && s[0] == '0' then Some(s[1..]) else Digits(s)
  }

  function FracPart(s: string): Option<string> {
    if s != "" && s[0] == '.' then Digits(s[1..]) else Some(s)
  }

  function SignedDigits(s: string): Option<string> {
    if s != "" && (s[0] == '+' || s[0] == '-') then Digits(s[1..]) else Digits(s)
  }

  function ExpPart(s: string): Option<string> {
    if s != "" && (s[0] == 'e' || s[0] == 'E') then SignedDigits(s[1..]) else Some(s)
  }

  // number = [ minus ] int [ frac ] [ exp ], per section 6 of RFC 8259.
  predicate ValidNumberText(s: string) {
    var unsigned := if s != "" && s[0] == '-' then s[1..] else s;
    match IntPart(unsigned)
    case None => false
    case Some(afterInt) =>
      match FracPart(afterInt)
      case None => false
      case Some(afterFrac) => ExpPart(afterFrac) == Some("")
  }

  // A tree that is the value of a label or an element of an array.
  predicate ValidValue(t: Tree) {
    match t.kind
    case String => t.kids == [] && ValidStringText(t.text)
    case Number => t.kids == [] && ValidNumberText(t.text)
    case Object => t.text == "" && forall i | 0 <= i < |t.kids| :: ValidLabel(t.kids[i])
    case Array => t.text == "" && forall i | 0 <= i < |t.kids| :: ValidValue(t.kids[i])
    case True => t.kids == [] && t.text == ""
    case False => t.kids == [] && t.text == ""
    case Null => t.kids == [] && t.text == ""
  }

  // A label of an object together with its one value.
  predicate ValidLabel(t: Tree) {
    t.kind == String && ValidStringText(t.text) && |t.kids| == 1 && ValidValue(t.kids[0])
  }

  predicate ValidDocument(t: Tree) {
    t.kind == Object && ValidValue(t)
  }
}

/** Query strings: finding a parameter, and the trace string that is read back. */
module Query {
  import opened Wrappers

  datatype Field = Field(key: string, value: string)

  // key=value pairs with '&' between them.
  function Join(fields: seq<Field>): string {
    if fields == [] then ""
    else
      var f := fields[0];
      f.key + "=" + f.value + if |fields| == 1 then "" else "&" + Join(fields[1..])
  }

  // Neither separator, and nothing that ends a C string.
  predicate Plain(s: string) {
    '&' !in s && '=' !in s && '\0' !in s
  }

  predicate AllPlain(fields: seq<Field>) {
    forall i | 0 <= i < |fields| :: Plain(fields[i].key) && Plain(fields[i].value)
  }

  predicate Occurs(u: string, pat: string, p: int) {
    0 <= p <= p + |pat| <= |u| && u[p..p + |pat|] == pat
  }

  // strstr: the first place, or the end.
  function Find(u: string, pat: string): (p: nat)
    ensures p <= |u| && (p < |u| ==> p + |pat| <= |u| && Occurs(u, pat, p))
    ensures forall q | 0 <= q < p :: !Occurs(u, pat, q)
  {
    if u == "" || Occurs(u, pat, 0) then 0
    else
      var p := 1 + Find(u[1..], pat);
      assert forall q | 0 < q :: Occurs(u, pat, q) <==> Occurs(u[1..], pat, q - 1) by {
        forall q | 0 < q ensures Occurs(u, pat, q) <==> Occurs(u[1..], pat, q - 1) { OccursInTail(u, pat, q); }
      }
      p
  }

  lemma OccursInTail(u: string, pat: string, q: int)
    requires u != "" && q > 0
    ensures Occurs(u, pat, q) <==> Occurs(u[1..], pat, q - 1)
  {
    if q + |pat| <= |u| { assert u[1..][q - 1..q - 1 + |pat|] == u[q..q + |pat|]; }
  }

  lemma FindUnique(u: string, pat: string, p: nat)
    requires p <= |u| && (p < |u| ==> Occurs(u, pat, p)) && forall q | 0 <= q < p :: !Occurs(u, pat, q)
    ensures Find(u, pat) == p
  {
    var f := Find(u, pat);
    assert f < |u| ==> Occurs(u, pat, f);
  }

  // The text up to the next '&', none where that is empty.
  function ValueAt(u: string): Option<string> {
    var q := Find(u, "&");
    if q == |u| then Some(u) else if q == 0 then None else Some(u[..q])
  }

  // What follows the first place of pat.
  function Past(u: string, pat: string): (rest: string)
    requires Find(u, pat) < |u|
    ensures |rest| == |u| - Find(u, pat) - |pat|
  {
    u[Find(u, pat) + |pat|..]
  }

  // Whether a field starts at p.
  predicate StartsField(u: string, p: nat)
    requires p < |u|
  {
    p == 0 || u[p - 1] == '&'
  }

  // getParamvalue from the place that a search starts at; pat is the name and '='.
  function Param(u: string, pat: string): Option<string>
    requires pat != ""
    decreases |u|
  {
    var p := Find(u, pat);
    if p == |u| then None
    else if StartsField(u, p) then ValueAt(Past(u, pat))
    else Param(Past(u, pat), pat)
  }

  lemma ParamStep(u: string, pat: string)
    requires pat != ""
    ensures var p := Find(u, pat);
            Param(u, pat) == if p == |u| then None
                             else if p == 0 || u[p - 1] == '&' then ValueAt(u[p + |pat|..])
                             else Param(u[p + |pat|..], pat)
  {
    hide Find, Occurs, ValueAt, Param;
    if Find(u, pat) < |u| { assert Past(u, pat) == u[Find(u, pat) + |pat|..]; }
    ParamUnfold(u, pat);
  }

  lemma ParamUnfold(u: string, pat: string)
    requires pat != ""
    ensures var p := Find(u, pat);
            Param(u, pat) == if p == |u| then None
                             else if StartsField(u, p) then ValueAt(Past(u, pat))
                             else Param(Past(u, pat), pat)
  {
    hide Find, Occurs, ValueAt, Past, StartsField;
  }

  method StrStr(u: string, pat: string) returns (p: nat)
    ensures p == Find(u, pat)
  {
    p := 0;
    while p < |u|
      invariant 0 <= p <= |u| && forall q | 0 <= q < p :: !Occurs(u, pat, q)
    {
      if Occurs(u, pat, p) { break; }
      p := p + 1;
    }
    FindUnique(u, pat, p);
  }

  // What snprintf leaves of the name and its '=' in a buffer of 1024 bytes.
  function Pattern(paramname: string): (pat: string)
    ensures pat != ""
    ensures |paramname| <= 1022 ==> pat == paramname + "="
    ensures |paramname| >= 1023 ==> |pat| == 1023 && pat == paramname[..1023]
  {
    if |paramname| < 1023 then paramname + "=" else paramname[..1023]
  }

  // getParamvalue
  method GetParamvalue(inputparam: string, paramname: string) returns (value: Option<string>)
    requires '\0' !in inputparam
    ensures value == Param(inputparam, Pattern(paramname))
  {
    hide Param, Find;
    var pat := Pattern(paramname);
    var p2 := inputparam;
    while true
      invariant Param(p2, pat) == Param(inputparam, pat)
      decreases |p2|
    {
      ParamStep(p2, pat);
      var p := StrStr(p2, pat);
      if p == |p2| { return None; }
      if p == 0 || p2[p - 1] == '&' {
        var rest := p2[p + |pat|..];
        var q := StrStr(rest, "&");
        if q == |rest| { return Some(rest); } else if q == 0 { return None; }
        return Some(rest[..q]);
      }
      p2 := p2[p + |pat|..];
    }
  }

  // ----- reading a joined string -----

  // What occurs in two texts joined by a separator occurs in one of them.
  lemma OccursJoined(w: string, u: string, pat: string, q: int)
    requires pat != "" && '&' !in pat
    ensures Occurs(w + "&" + u, pat, q) <==> Occurs(w, pat, q) || Occurs(u, pat, q - |w| - 1)
  {
    var all := w + "&" + u;
    if 0 <= q && q + |pat| <= |all| {
      var here := all[q..q + |pat|];
      if q + |pat| <= |w| {
        assert w[q..q + |pat|] == here;
      } else if q <= |w| {
        assert here[|w| - q] == '&' && '&' in here;
      } else {
        assert u[q - |w| - 1..q - |w| - 1 + |pat|] == here;
      }
    }
  }

  lemma FindPast(w: string, u: string, pat: string)
    requires pat != "" && '&' !in pat && forall p :: !Occurs(w, pat, p)
    ensures Find(w + "&" + u, pat) == |w| + 1 + Find(u, pat)
    ensures Find(w, pat) == |w|
  {
    hide Find, Occurs;
    var f := Find(u, pat);
    forall q | 0 <= q < |w| + 1 + f ensures !Occurs(w + "&" + u, pat, q) {
      OccursJoined(w, u, pat, q);
      OccursRange(u, pat, q - |w| - 1);
    }
    OccursJoined(w, u, pat, |w| + 1 + f);
    FindUnique(w + "&" + u, pat, |w| + 1 + f);
    FindUnique(w, pat, |w|);
  }

  lemma OccursRange(u: string, pat: string, p: int)
    ensures Occurs(u, pat, p) ==> 0 <= p <= |u|
  {
  }

  lemma ParamPast(w: string, u: string, pat: string)
    requires pat != "" && '&' !in pat && forall p :: !Occurs(w, pat, p)
    ensures Param(w + "&" + u, pat) == Param(u, pat) && Param(w, pat) == None
  {
    hide Param, Find, Occurs, ValueAt;
    FindPast(w, u, pat);
    var (all, f) := (w + "&" + u, Find(u, pat));
    var p := |w| + 1 + f;
    ParamStep(all, pat);
    ParamStep(u, pat);
    ParamStep(w, pat);
    if f < |u| {
      assert all[p + |pat|..] == u[f + |pat|..];
      assert all[p - 1] == if f == 0 then '&' else u[f - 1];
    }
  }

  lemma OneEqualSign(key: string, value: string, i: nat)
    requires Plain(key) && Plain(value) && i < |key + "=" + value|
    ensures (key + "=" + value)[i] == '=' <==> i == |key|
  {
    var u := key + "=" + value;
    if i < |key| { assert u[i] == key[i]; }
    if i > |key| { assert u[i] == value[i - |key| - 1]; }
  }

  // The name and '=' end at the first '=' of a pair or nowhere in it.
  lemma OccursAtEqual(key: string, value: string, name: string, p: int)
    requires Plain(key) && Plain(value) && Plain(name)
    ensures Occurs(key + "=" + value, name + "=", p) ==> p + |name| == |key| && key[p..] == name
  {
    var (u, pat) := (key + "=" + value, name + "=");
    if Occurs(u, pat, p) {
      assert pat[|name|] == '=' && u[p..p + |pat|] == pat;
      assert u[p + |name|] == u[p..p + |pat|][|name|];
      OneEqualSign(key, value, p + |name|);
      assert u[p..p + |pat|][..|name|] == name;
      assert key[p..] == u[p..p + |name|];
    }
  }

  lemma PlainNeverOccurs(w: string, name: string)
    requires Plain(w)
    ensures forall p :: !Occurs(w, name + "=", p)
  {
    forall p ensures !Occurs(w, name + "=", p) {
      if 0 <= p && p + |name| + 1 <= |w| { assert w[p..p + |name| + 1][|name|] == w[p + |name|]; }
    }
  }

  lemma ValueOfPair(value: string, tail: string)
    requires Plain(value) && (tail == "" || tail[0] == '&')
    ensures ValueAt(value + tail) == if value == "" && tail != "" then None else Some(value)
  {
    var u := value + tail;
    forall q | 0 <= q < |value| ensures !Occurs(u, "&", q) {
      assert u[q..q + 1][0] == value[q];
    }
    if tail == "" {
      assert u == value;
    } else {
      assert u[|value|..|value| + 1] == "&";
    }
    FindUnique(u, "&", |value|);
  }

  // The value of the first field of that name.
  function FirstValue(fields: seq<Field>, name: string): Option<string> {
    if fields == [] then None
    else if fields[0].key == name then
      if fields[0].value == "" && |fields| > 1 then None else Some(fields[0].value)
    else FirstValue(fields[1..], name)
  }

  // A parameter is the value of the first field of its name, and nothing where that
  // value is empty and not the last.
  lemma {:induction false} ParamIsFirstValue(fields: seq<Field>, name: string)
    requires AllPlain(fields) && Plain(name)
    ensures Param(Join(fields), name + "=") == FirstValue(fields, name)
  {
    var pat := name + "=";
    if fields == [] {
      assert Find("", pat) == 0;
    } else {
      var (f, rest) := (fields[0], fields[1..]);
      assert fields == [f] + rest;
      JoinFirst(f, rest);
      ParamIsFirstValue(rest, name);
      if f.key == name {
        NamedField(name, f.value, Tail(rest));
      } else {
        OtherField(f, rest, name);
      }
    }
  }

  lemma NamedField(name: string, value: string, tail: string)
    requires Plain(value) && (tail == "" || tail[0] == '&')
    ensures Param(name + "=" + value + tail, name + "=") == if value == "" && tail != "" then None else Some(value)
  {
    var (u, pat) := (name + "=" + value + tail, name + "=");
    assert u[0..|pat|] == pat && u[|pat|..] == value + tail;
    FindUnique(u, pat, 0);
    ValueOfPair(value, tail);
  }

  function Tail(rest: seq<Field>): string {
    if rest == [] then "" else "&" + Join(rest)
  }

  lemma JoinFirst(f: Field, rest: seq<Field>)
    ensures Join([f] + rest) == f.key + "=" + f.value + Tail(rest)
  {
    assert ([f] + rest)[1..] == rest;
  }

  // A text without the parameter before the other fields adds nothing.
  lemma ParamPastTail(w: string, rest: seq<Field>, pat: string)
    requires pat != "" && '&' !in pat && forall p :: !Occurs(w, pat, p)
    ensures Param(w + Tail(rest), pat) == if rest == [] then None else Param(Join(rest), pat)
  {
    hide Param, Occurs, Join;
    ParamPast(w, Join(rest), pat);
    assert w + ("&" + Join(rest)) == w + "&" + Join(rest) && w + "" == w;
  }

  lemma OtherField(f: Field, rest: seq<Field>, name: string)
    requires Plain(f.key) && Plain(f.value) && Plain(name) && f.key != name
    ensures Param(Join([f] + rest), name + "=") == if rest == [] then None else Param(Join(rest), name + "=")
  {
    hide Param, Occurs, Join, Tail;
    JoinFirst(f, rest);
    var (pair, pat) := (f.key + "=" + f.value, name + "=");
    forall p { OccursAtEqual(f.key, f.value, name, p); }
    if Occurs(pair, pat, |f.key| - |name|) {
      SkippedField(f, Tail(rest), name);
      PlainNeverOccurs(f.value, name);
      ParamPastTail(f.value, rest, pat);
    } else {
      ParamPastTail(pair, rest, pat);
    }
  }

  // A longer key that ends in the name is passed over.
  lemma SkippedField(f: Field, tail: string, name: string)
    requires Plain(f.key) && Plain(f.value) && Plain(name) && f.key != name
    requires Occurs(f.key + "=" + f.value, name + "=", |f.key| - |name|)
    ensures Param(f.key + "=" + f.value + tail, name + "=") == Param(f.value + tail, name + "=")
  {
    var (pair, pat) := (f.key + "=" + f.value, name + "=");
    var (u, p) := (pair + tail, |f.key| - |name|);
    hide Param, Find, Occurs, ValueAt;
    SkippedPlace(f, tail, name);
    ParamStep(u, pat);
    assert u[p + |pat|..] == f.value + tail;
  }

  lemma SkippedPlace(f: Field, tail: string, name: string)
    requires Plain(f.key) && Plain(f.value) && Plain(name) && f.key != name
    requires Occurs(f.key + "=" + f.value, name + "=", |f.key| - |name|)
    ensures var (u, p) := (f.key + "=" + f.value + tail, |f.key| - |name|);
            p > 0 && p < |u| && Find(u, name + "=") == p && u[p - 1] != '&'
  {
    var (pair, pat) := (f.key + "=" + f.value, name + "=");
    var (u, p) := (pair + tail, |f.key| - |name|);
    OccursAtEqual(f.key, f.value, name, p);
    OccursRange(pair, pat, p);
    assert f.key[0..] == f.key;
    assert p > 0 && u[p - 1] == f.key[p - 1];
    hide Find, Occurs, Plain;
    forall q | 0 <= q <= p ensures Occurs(u, pat, q) <==> q == p {
      OccursInPair(pair, tail, pat, q);
      OccursAtEqual(f.key, f.value, name, q);
    }
    FindUnique(u, pat, p);
  }

  lemma OccursInPair(pair: string, tail: string, pat: string, q: nat)
    requires q + |pat| <= |pair|
    ensures Occurs(pair + tail, pat, q) <==> Occurs(pair, pat, q)
  {
    assert (pair + tail)[q..q + |pat|] == pair[q..q + |pat|];
  }
}

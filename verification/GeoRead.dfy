/** Reading geohash text back into 16-bit words. */
module GeoRead {
  import opened Wrappers
  import opened GeoBits
  import opened GeoWords

  predicate IsLetter(c: char) {
    FromChar(c).Some?
  }

  // The table entry of a character; '|' stands for none.
  function Code(c: char): (n: nat)
    ensures IsLetter(c) ==> n < 32
  {
    match FromChar(c)
    case Some(v) => v
    case None => '|' as int
  }

  // The values of the characters up to the first NUL.
  function ReadLetters(s: string): Option<seq<Five>> {
    if s == [] || s[0] == '\0' then Some([])
    else if !IsLetter(s[0]) then None
    else
      match ReadLetters(s[1..])
      case None => None
      case Some(rest) => Some([Code(s[0])] + rest)
  }

  function SmallText(s: string): (t: string)
    ensures |t| == |s| && forall k | 0 <= k < |s| :: t[k] == Small(s[k])
  {
    if s == [] then [] else [Small(s[0])] + SmallText(s[1..])
  }

  // A text is read as its small letters are.
  lemma {:induction false} CaseDoesNotMatter(s: string)
    ensures ReadLetters(SmallText(s)) == ReadLetters(s)
  {
    hide FromChar, Small;
    if s != [] {
      SmallReads(s[0]);
      assert SmallText(s)[1..] == SmallText(s[1..]);
      CaseDoesNotMatter(s[1..]);
    }
  }

  // Exactly the texts of the alphabet, in either case, are read, each letter as its place.
  lemma {:induction false} ReadIs(s: string, vs: seq<Five>)
    requires '\0' !in s
    ensures ReadLetters(s) == Some(vs)
            <==> |vs| == |s| && forall k | 0 <= k < |s| :: s[k] == ToChar(vs[k]) || s[k] == Capital(ToChar(vs[k]))
  {
    hide FromChar, ToChar, Capital;
    if s != [] && vs != [] {
      FromCharIs(s[0], vs[0]);
      ReadIs(s[1..], vs[1..]);
      assert vs == [vs[0]] + vs[1..];
      assert forall k | 0 < k < |s| && k < |vs| :: s[k] == s[1..][k - 1] && vs[k] == vs[1..][k - 1];
    }
  }

  predicate AllLetters(s: string) {
    forall k | 0 <= k < |s| :: IsLetter(s[k])
  }

  function Codes(s: string): (vs: seq<Five>)
    requires AllLetters(s)
    ensures |vs| == |s|
  {
    seq(|s|, k requires 0 <= k < |s| => Code(s[k]))
  }

  lemma {:induction false} ReadUpTo(s: string, i: nat)
    requires i <= |s| && AllLetters(s[..i]) && (i == |s| || s[i] == '\0')
    ensures ReadLetters(s) == Some(Codes(s[..i]))
  {
    if i > 0 {
      assert s[..i][0] == s[0] && s[1..][..i - 1] == s[..i][1..];
      ReadUpTo(s[1..], i - 1);
      assert Codes(s[..i]) == [Code(s[0])] + Codes(s[1..][..i - 1]);
    }
  }

  lemma {:induction false} ReadFails(s: string, i: nat)
    requires i < |s| && AllLetters(s[..i]) && s[i] != '\0' && !IsLetter(s[i])
    ensures ReadLetters(s) == None
  {
    if i > 0 {
      assert s[..i][0] == s[0] && s[1..][..i - 1] == s[..i][1..];
      ReadFails(s[1..], i - 1);
    }
  }

  lemma {:induction false} ReadOfLetters(b: seq<bool>, n: nat)
    requires 5 * n <= |b|
    ensures exists vs :: ReadLetters(Letters(b)[..n]) == Some(vs) && |vs| == n && Concat(vs, 5) == b[..5 * n]
  {
    hide ReadLetters, FromChar, ToChar, Val, Concat, Pow2;
    var s := Letters(b)[..n];
    forall k | 0 <= k < n ensures IsLetter(s[k]) && Bits(Code(s[k]), 5) == b[5 * k..5 * k + 5] {
      var five := b[5 * k..5 * k + 5];
      ValBound(five);
      Powers();
      AlphabetRoundTrip(Val(five));
      BitsOfVal(five);
    }
    assert s[..n] == s;
    ReadUpTo(s, n);
    var vs := Codes(s);
    forall k | 0 <= k < n ensures BitsAt(vs, 5, b[..5 * n], k) {
      assert vs[k] == Code(s[k]);
      SliceOfSlice(b, 0, 5 * n, 5 * k, 5 * k + 5);
      assert b[..5 * n] == b[0..0 + 5 * n];
    }
    RegroupIsUnique(vs, 5, b[..5 * n]);
  }

  // ----- sixteen letters, five words -----

  // What letter j adds to word q of its block.
  function Term(j: nat, q: nat, v: Five): nat {
    match j
    case 0 => if q == 0 then v * 2048 else 0
    case 1 => if q == 0 then v * 64 else 0
    case 2 => if q == 0 then v * 2 else 0
    case 3 => if q == 0 then v / 16 else if q == 1 then v * 4096 else 0
    case 4 => if q == 1 then v * 128 else 0
    case 5 => if q == 1 then v * 4 else 0
    case 6 => if q == 1 then v / 8 else if q == 2 then v * 8192 else 0
    case 7 => if q == 2 then v * 256 else 0
    case 8 => if q == 2 then v * 8 else 0
    case 9 => if q == 2 then v / 4 else if q == 3 then v * 16384 else 0
    case 10 => if q == 3 then v * 512 else 0
    case 11 => if q == 3 then v * 16 else 0
    case 12 => if q == 3 then v / 2 else if q == 4 then v * 32768 else 0
    case 13 => if q == 4 then v * 1024 else 0
    case 14 => if q == 4 then v * 32 else 0
    case _ => if q == 4 then v else 0
  }

  // The expression assigned to i[q].
  function Sum(m: seq<nat>, q: nat): nat
    requires |m| == 16
  {
    match q
    case 0 => m[0] * 2048 + m[1] * 64 + m[2] * 2 + m[3] / 16
    case 1 => m[3] * 4096 + m[4] * 128 + m[5] * 4 + m[6] / 8
    case 2 => m[6] * 8192 + m[7] * 256 + m[8] * 8 + m[9] / 4
    case 3 => m[9] * 16384 + m[10] * 512 + m[11] * 16 + m[12] / 2
    case _ => m[12] * 32768 + m[13] * 1024 + m[14] * 32 + m[15]
  }

  function Whole(m: seq<nat>, q: nat): Word
    requires |m| == 16
  {
    Sum(m, q) % 65536
  }

  lemma SumStep(m: seq<nat>, j: nat, v: Five, q: nat)
    requires |m| == 16 && j < 16 && q < 5 && m[j] == 0
    ensures Sum(m[j := v], q) == Sum(m, q) + Term(j, q, v)
  {
  }

  lemma WholeStep(m: seq<nat>, j: nat, v: Five, q: nat)
    requires |m| == 16 && j < 16 && q < 5 && m[j] == 0
    ensures Whole(m[j := v], q) == (Whole(m, q) + Term(j, q, v)) % 65536
  {
    hide Sum, Term;
    SumStep(m, j, v, q);
  }

  lemma FourParts(a: seq<bool>, b: seq<bool>, c: seq<bool>, d: seq<bool>)
    requires |b| == |c| == 5
    ensures Val(a + b + c + d) == Val(a) * Pow2(10 + |d|) + Val(b) * Pow2(5 + |d|) + Val(c) * Pow2(|d|) + Val(d)
  {
    hide Val, Pow2;
    ValConcat(a, b);
    ValConcat(a + b, c);
    ValConcat(a + b + c, d);
    Pow2Add(5, |d|);
    Pow2Add(5, 5 + |d|);
    Powers();
    Distribute(Val(a) * 32 + Val(b), 0, 32);
    Expand(Val(a), Val(b), Val(c), Pow2(|d|));
  }

  lemma Expand(a: nat, b: nat, c: nat, p: nat)
    ensures ((a * 32 + b) * 32 + c) * p == a * (32 * (32 * p)) + b * (32 * p) + c * p
  {
    assert ((a * 32 + b) * 32 + c) * p == ((a * 32 + b) * 32) * p + c * p;
    assert ((a * 32 + b) * 32) * p == (a * 32 + b) * (32 * p);
    assert (a * 32 + b) * (32 * p) == a * 32 * (32 * p) + b * (32 * p);
  }

  // Word q: the end of letter 3q, two whole letters, the start of the next.
  function Parts(m: seq<Five>, q: nat): (b: seq<bool>)
    requires |m| == 16 && q < 5
    ensures |b| == 16
  {
    Part(m[3 * q], m[3 * q + 1], m[3 * q + 2], m[3 * q + 3], q)
  }

  function Part(x: Five, y: Five, z: Five, t: Five, q: nat): (b: seq<bool>)
    requires q < 5
    ensures |b| == 16
  {
    Bits(x, 5)[q..] + Bits(y, 5) + Bits(z, 5) + Bits(t, 5)[..q + 1]
  }

  lemma PartsAreSlice(m: seq<Five>, q: nat)
    requires |m| == 16 && q < 5
    ensures Parts(m, q) == Concat(m, 5)[16 * q..16 * q + 16]
  {
    hide Bits, Concat, Part;
    LetterAt(m, 3 * q);
    LetterAt(m, 3 * q + 1);
    LetterAt(m, 3 * q + 2);
    LetterAt(m, 3 * q + 3);
    PartIsSlice(Concat(m, 5), 15 * q, m[3 * q], m[3 * q + 1], m[3 * q + 2], m[3 * q + 3], q);
  }

  lemma PartIsSlice(b: seq<bool>, a: nat, x: Five, y: Five, z: Five, t: Five, q: nat)
    requires q < 5 && a + 20 <= |b|
    requires Bits(x, 5) == b[a..a + 5] && Bits(y, 5) == b[a + 5..a + 10]
    requires Bits(z, 5) == b[a + 10..a + 15] && Bits(t, 5) == b[a + 15..a + 20]
    ensures Part(x, y, z, t, q) == b[a + q..a + q + 16]
  {
    hide Bits;
    SliceOfSlice(b, a, 5, q, 5);
    SliceOfSlice(b, a + 15, 5, 0, q + 1);
    Glue(b, a + q, a + 5, a + 10, a + 15, a + q + 16);
  }

  lemma LetterAt(m: seq<Five>, k: nat)
    requires k < |m|
    ensures 5 * k + 5 <= |Concat(m, 5)|
    ensures Bits(m[k], 5) == Concat(m, 5)[5 * k..5 * k + 5]
  {
    ConcatAt(m, 5, k);
  }

  lemma Glue(b: seq<bool>, p: nat, q: nat, r: nat, s: nat, t: nat)
    requires p <= q <= r <= s <= t <= |b|
    ensures b[p..q] + b[q..r] + b[r..s] + b[s..t] == b[p..t]
  {
    TwoSlices(b, p, q, r);
    TwoSlices(b, p, r, s);
    TwoSlices(b, p, s, t);
  }

  function PartsValue(m: seq<nat>, q: nat): nat
    requires |m| == 16
  {
    match q
    case 0 => m[0] % 32 * 2048 + m[1] * 64 + m[2] * 2 + m[3] / 16
    case 1 => m[3] % 16 * 4096 + m[4] * 128 + m[5] * 4 + m[6] / 8
    case 2 => m[6] % 8 * 8192 + m[7] * 256 + m[8] * 8 + m[9] / 4
    case 3 => m[9] % 4 * 16384 + m[10] * 512 + m[11] * 16 + m[12] / 2
    case _ => m[12] % 2 * 32768 + m[13] * 1024 + m[14] * 32 + m[15]
  }

  lemma ValOfPart(x: Five, y: Five, z: Five, t: Five, q: nat)
    requires q < 5
    ensures Val(Part(x, y, z, t, q))
            == x % Pow2(5 - q) * Pow2(11 + q) + y * Pow2(6 + q) + z * Pow2(q + 1) + t / Pow2(4 - q) % Pow2(q + 1)
  {
    hide Val, Bits, Pow2;
    FourParts(Bits(x, 5)[q..], Bits(y, 5), Bits(z, 5), Bits(t, 5)[..q + 1]);
    assert 10 + (q + 1) == 11 + q && 5 + (q + 1) == 6 + q;
    LetterParts(x, q);
    LetterParts(t, q + 1);
    LetterParts(y, 0);
    LetterParts(z, 0);
  }

  lemma LetterParts(x: Five, q: nat)
    requires q <= 5
    ensures Val(Bits(x, 5)[q..]) == x % Pow2(5 - q) && Val(Bits(x, 5)[..q]) == x / Pow2(5 - q) % Pow2(q)
    ensures Val(Bits(x, 5)) == x
  {
    hide Val, Bits, Pow2;
    SliceVal(x, 5, q, 5);
    SliceVal(x, 5, 0, q);
    ValOfBits(x, 5);
    assert Bits(x, 5)[q..5] == Bits(x, 5)[q..];
    assert Bits(x, 5)[0..q] == Bits(x, 5)[..q];
    assert Pow2(0) == 1 && Pow2(5) == 32 by { Powers(); }
  }

  lemma ValOfParts(m: seq<Five>, q: nat)
    requires |m| == 16 && q < 5
    ensures Val(Parts(m, q)) == PartsValue(m, q)
  {
    hide Val, Pow2, Part;
    ValOfPart(m[3 * q], m[3 * q + 1], m[3 * q + 2], m[3 * q + 3], q);
    PartsInNumbers(m, q);
  }

  lemma PartsInNumbers(m: seq<Five>, q: nat)
    requires |m| == 16 && q < 5
    ensures PartsValue(m, q) == m[3 * q] % Pow2(5 - q) * Pow2(11 + q) + m[3 * q + 1] * Pow2(6 + q)
                                + m[3 * q + 2] * Pow2(q + 1) + m[3 * q + 3] / Pow2(4 - q) % Pow2(q + 1)
  {
    hide Pow2;
    Powers();
    var t := m[3 * q + 3];
    assert t / Pow2(4 - q) % Pow2(q + 1) == t / Pow2(4 - q);
  }

  lemma WholeValue(m: seq<Five>, q: nat)
    requires |m| == 16 && q < 5
    ensures Whole(m, q) == PartsValue(m, q)
  {
    Multiple(Sum(m, q), [m[0] / 32, m[3] / 16, m[6] / 8, m[9] / 4, m[12] / 2][q], PartsValue(m, q));
  }

  lemma Multiple(sum: nat, k: nat, r: nat)
    requires sum == k * 65536 + r && r < 65536
    ensures sum % 65536 == r
  {
  }

  lemma WholeIsSlice(m: seq<Five>, q: nat)
    requires |m| == 16 && q < 5
    ensures Bits(Whole(m, q), 16) == Concat(m, 5)[16 * q..16 * q + 16]
  {
    hide *;
    WholeValue(m, q);
    ValOfParts(m, q);
    PartsAreSlice(m, q);
    BitsOfVal(Parts(m, q));
  }

  // ----- a whole text -----

  // Letters 16k, ..., 16k + 15, zero where there is none.
  function Block(vs: seq<Five>, k: nat): (m: seq<Five>)
    ensures |m| == 16
  {
    seq(16, t requires 0 <= t < 16 => if 16 * k + t < |vs| then vs[16 * k + t] else 0)
  }

  function WordAt(vs: seq<Five>, p: nat): Word {
    Whole(Block(vs, p / 5), p % 5)
  }

  predicate Reads(words: seq<Word>, vs: seq<Five>) {
    forall p | 0 <= p < |words| :: words[p] == WordAt(vs, p)
  }

  lemma {:induction false} ConcatZeros(n: nat)
    ensures Concat(seq(n, _ => 0), 5) == Zeros(5 * n)
  {
    if n > 0 {
      assert seq(n, _ => 0)[1..] == seq(n - 1, _ => 0);
      ConcatZeros(n - 1);
    }
  }

  lemma ConcatMiddle(ns: seq<nat>, w: nat, a: nat, b: nat)
    requires a <= b <= |ns|
    ensures 0 <= w * a <= w * b <= w * |ns| && Concat(ns, w)[w * a..w * b] == Concat(ns[a..b], w)
  {
    hide Concat;
    ConcatAppend(ns[..a], ns[a..b], w);
    ConcatAppend(ns[..b], ns[b..], w);
    assert ns[..a] + ns[a..b] == ns[..b] && ns[..b] + ns[b..] == ns;
    assert w * b == w * a + w * (b - a) && w * |ns| == w * b + w * (|ns| - b);
  }

  lemma WordAtIsSlice(vs: seq<Five>, p: nat, padded: seq<Five>)
    requires vs <= padded && (forall k | |vs| <= k < |padded| :: padded[k] == 0)
    requires 16 * (p / 5) + 16 <= |padded|
    ensures 16 * p + 16 <= |Concat(padded, 5)|
    ensures Bits(WordAt(vs, p), 16) == Concat(padded, 5)[16 * p..16 * p + 16]
  {
    hide Concat, Bits, Whole;
    var (k, q) := (p / 5, p % 5);
    assert Block(vs, k) == padded[16 * k..16 * k + 16];
    ConcatMiddle(padded, 5, 16 * k, 16 * k + 16);
    WholeIsSlice(Block(vs, k), q);
    SliceOfSlice(Concat(padded, 5), 80 * k, 80, 16 * q, 16 * q + 16);
    assert 80 * k + 16 * q == 16 * p;
  }

  // The words hold the letters' bits, followed by zeros.
  lemma WordsAreStream(words: seq<Word>, vs: seq<Five>)
    requires 5 * |vs| <= 16 * |words| && Reads(words, vs)
    ensures Concat(words, 16) == Concat(vs, 5) + Zeros(16 * |words| - 5 * |vs|)
  {
    hide Concat, Bits, WordAt;
    var n := 16 * |words|;
    var tail: seq<Five> := seq(n, _ => 0);
    var padded := vs + tail;
    ConcatAppend(vs, tail, 5);
    ConcatZeros(n);
    var b := Concat(padded, 5)[..n];
    assert b == Concat(vs, 5) + Zeros(n - 5 * |vs|);
    forall p | 0 <= p < |words| ensures BitsAt(words, 16, b, p) {
      WordAtIsSlice(vs, p, padded);
      assert 16 * p + 16 <= n;
      SliceOfSlice(Concat(padded, 5), 0, n, 16 * p, 16 * p + 16);
      assert b == Concat(padded, 5)[0..0 + n];
    }
    RegroupIsUnique(words, 16, b);
  }

  // Letter t changes the words of its block only.
  lemma NextLetter(vs: seq<Five>, t: nat, p: nat)
    requires t < |vs|
    ensures WordAt(vs[..t + 1], p)
            == if p / 5 == t / 16 then (WordAt(vs[..t], p) + Term(t % 16, p % 5, vs[t])) % 65536 else WordAt(vs[..t], p)
  {
    hide Whole, Term;
    var k := p / 5;
    var m := Block(vs[..t], k);
    if k == t / 16 {
      assert Block(vs[..t + 1], k) == m[t % 16 := vs[t]];
      WholeStep(m, t % 16, vs[t], p % 5);
    } else {
      assert Block(vs[..t + 1], k) == m;
    }
  }

  lemma NextBlock(vs: seq<Five>, k: nat, p: nat)
    requires 16 * k + 16 <= |vs|
    ensures WordAt(vs[..16 * k + 16], p)
            == if p / 5 == k then Whole(vs[16 * k..16 * k + 16], p % 5) else WordAt(vs[..16 * k], p)
  {
    hide Whole;
    if p / 5 == k {
      assert Block(vs[..16 * k + 16], k) == vs[16 * k..16 * k + 16];
    } else {
      assert Block(vs[..16 * k + 16], p / 5) == Block(vs[..16 * k], p / 5);
    }
  }

  lemma WordPastEnd(vs: seq<Five>, p: nat)
    requires 5 * |vs| <= 16 * p
    ensures WordAt(vs, p) == 0
  {
    var (k, q) := (p / 5, p % 5);
    assert |vs| <= 16 * k + 3 * q;
    var m := Block(vs, k);
    assert m[3 * q] == m[3 * q + 1] == m[3 * q + 2] == m[3 * q + 3] == 0;
  }

  lemma ZeroFilled(words: seq<Word>)
    requires forall p | 0 <= p < |words| :: words[p] == 0
    ensures Reads(words, [])
  {
    forall p: nat | 0 <= p { WordPastEnd([], p); }
  }

  // Letter j ends in one word and, every third time, starts the next.
  lemma TermElsewhere(j: nat, q: nat, v: Five)
    requires j < 16 && q < 5
    ensures (j > 0 && q == (j - 1) / 3) || (j % 3 == 0 && q == j / 3) || Term(j, q, v) == 0
  {
  }

  // The conditional assignments for letter j of the last block.
  method AddLetter(interleaved: array<Word>, i: nat, j: nat, v: Five)
    requires j < 16 && 16 * i + 5 * j + 5 <= 16 * interleaved.Length
    requires forall p | i <= p < i + 5 && p < interleaved.Length && 5 * j <= 16 * (p - i) :: interleaved[p] == 0
    modifies interleaved
    ensures forall p | 0 <= p < interleaved.Length ::
      interleaved[p] ==
      if i <= p < i + 5 then (old(interleaved[p]) + Term(j, p - i, v)) % 65536 else old(interleaved[p])
  {
    hide Term;
    if j > 0 {
      var p := i + (j - 1) / 3;
      interleaved[p] := (interleaved[p] + Term(j, (j - 1) / 3, v)) % 65536;
    }
    if j % 3 == 0 && j < 15 {
      interleaved[i + j / 3] := Term(j, j / 3, v) % 65536;
    }
    forall p | i <= p < i + 5 && p < interleaved.Length
      ensures interleaved[p] == (old(interleaved[p]) + Term(j, p - i, v)) % 65536
    {
      TermElsewhere(j, p - i, v);
    }
  }

  method FillBlocks(interleaved: array<Word>, vs: seq<Five>)
    requires 5 * |vs| <= 16 * interleaved.Length && Reads(interleaved[..], [])
    modifies interleaved
    ensures Reads(interleaved[..], vs[..|vs| / 16 * 16])
  {
    hide WordAt, Whole;
    var k := 0;
    assert vs[..0] == [];
    while k < |vs| / 16
      invariant 0 <= k <= |vs| / 16
      invariant Reads(interleaved[..], vs[..16 * k])
    {
      forall p | 0 <= p { NextBlock(vs, k, p); }
      var (i, m) := (5 * k, vs[16 * k..16 * k + 16]);
      interleaved[i] := Whole(m, 0);
      interleaved[i + 1] := Whole(m, 1);
      interleaved[i + 2] := Whole(m, 2);
      interleaved[i + 3] := Whole(m, 3);
      interleaved[i + 4] := Whole(m, 4);
      k := k + 1;
    }
  }

  method FillRest(interleaved: array<Word>, vs: seq<Five>)
    requires 5 * |vs| <= 16 * interleaved.Length && Reads(interleaved[..], vs[..|vs| / 16 * 16])
    modifies interleaved
    ensures Reads(interleaved[..], vs)
  {
    hide WordAt, Whole, Term;
    var (k, j) := (|vs| / 16, 0);
    while j < |vs| % 16
      invariant 0 <= j <= |vs| % 16
      invariant Reads(interleaved[..], vs[..16 * k + j])
    {
      var t := 16 * k + j;
      forall p: nat | 0 <= p { NextLetter(vs, t, p); }
      forall p: nat | 5 * t <= 16 * p { WordPastEnd(vs[..t], p); }
      AddLetter(interleaved, 5 * k, j, vs[t]);
      j := j + 1;
    }
    assert vs[..16 * k + j] == vs;
  }

  method LettersToWords(r: string, length: nat, interleaved: array<Word>) returns (status: Status)
    requires length <= |r|
    modifies interleaved
    ensures match ReadLetters(r[..length])
            case None => status == InvalidCode && interleaved[..] == old(interleaved[..])
            case Some(vs) =>
              if interleaved.Length * 16 < |vs| * 5 then
                status == InternalError && interleaved[..] == old(interleaved[..])
              else
                && status == Ok
                && Concat(interleaved[..], 16) == Concat(vs, 5) + Zeros(16 * interleaved.Length - 5 * |vs|)
  {
    hide ReadLetters, FromChar, Concat, Reads, WordAt;
    var end, i := length, 0;
    while i < end
      invariant 0 <= i <= end == length && AllLetters(r[..i])
    {
      if r[i] == '\0' {
        end := i;
        break;
      } else if !IsLetter(r[i]) {
        assert r[..length][..i] == r[..i];
        ReadFails(r[..length], i);
        return InvalidCode;
      }
      i := i + 1;
    }
    assert r[..length][..end] == r[..end];
    ReadUpTo(r[..length], end);
    if interleaved.Length * 16 < end * 5 {
      return InternalError;
    }
    var j := 0;
    while j < interleaved.Length
      invariant 0 <= j <= interleaved.Length && forall p | 0 <= p < j :: interleaved[p] == 0
    {
      interleaved[j] := 0;
      j := j + 1;
    }
    ZeroFilled(interleaved[..]);
    var vs := Codes(r[..end]);
    FillBlocks(interleaved, vs);
    FillRest(interleaved, vs);
    WordsAreStream(interleaved[..], vs);
    return Ok;
  }
}

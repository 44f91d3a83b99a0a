/** Bit strings, most significant bit first, and the numbers they stand for. */
module GeoBits {

  function Pow2(k: nat): (p: nat)
    ensures p > 0
  {
    if k == 0 then 1 else 2 * Pow2(k - 1)
  }

  function Val(b: seq<bool>): nat {
    if b == [] then 0 else 2 * Val(b[..|b| - 1]) + if b[|b| - 1] then 1 else 0
  }

  // The w lowest bits of n.
  function Bits(n: nat, w: nat): (b: seq<bool>)
    ensures |b| == w
    decreases w
  {
    if w == 0 then [] else Bits(n / 2, w - 1) + [n % 2 == 1]
  }

  function Zeros(k: nat): (b: seq<bool>)
    ensures |b| == k
  {
    seq(k, _ => false)
  }

  lemma PowZero()
    ensures Pow2(0) == 1
  {
  }

  lemma {:induction false} Pow2Add(a: nat, b: nat)
    ensures Pow2(a + b) == Pow2(a) * Pow2(b)
  {
    if b > 0 { Pow2Add(a, b - 1); }
  }

  lemma {:induction false} ValBound(b: seq<bool>)
    ensures Val(b) < Pow2(|b|)
  {
    if b != [] { ValBound(b[..|b| - 1]); }
  }

  lemma {:induction false} ValConcat(a: seq<bool>, b: seq<bool>)
    ensures Val(a + b) == Val(a) * Pow2(|b|) + Val(b)
  {
    if b == [] {
      assert a + b == a;
    } else {
      var c := b[..|b| - 1];
      assert (a + b)[..|a + b| - 1] == a + c;
      ValConcat(a, c);
      assert Pow2(|b|) == 2 * Pow2(|c|);
      DoubleTerm(Val(a), Pow2(|c|));
    }
  }

  lemma DoubleTerm(v: nat, p: nat)
    ensures v * (2 * p) == 2 * (v * p)
  {
  }

  lemma {:induction false} ValZeros(k: nat)
    ensures Val(Zeros(k)) == 0
  {
    if k > 0 {
      assert Zeros(k)[..k - 1] == Zeros(k - 1);
      ValZeros(k - 1);
    }
  }

  lemma {:induction false} BitsOfVal(b: seq<bool>)
    ensures Bits(Val(b), |b|) == b
  {
    if b != [] { BitsOfVal(b[..|b| - 1]); }
  }

  lemma {:induction false} ValOfBits(n: nat, w: nat)
    ensures Val(Bits(n, w)) == n % Pow2(w)
    decreases w
  {
    if w > 0 {
      ValOfBits(n / 2, w - 1);
      ModHalf(n, Pow2(w - 1));
    }
  }

  lemma ValOfFitting(n: nat, w: nat)
    requires n < Pow2(w)
    ensures Val(Bits(n, w)) == n
  {
    hide *;
    ValOfBits(n, w);
    ModUnique(n, Pow2(w), 0, n);
  }

  lemma ModHalf(n: nat, p: nat)
    requires p > 0
    ensures n % (2 * p) == 2 * (n / 2 % p) + n % 2
  {
    var (h, q) := (n / 2, n / 2 / p);
    assert n == 2 * h + n % 2 && h == q * p + h % p;
    var r := 2 * (h % p) + n % 2;
    assert n == q * (2 * p) + r by {
      assert 2 * (q * p) == q * (2 * p);
    }
    assert 0 <= r < 2 * p;
    ModUnique(n, 2 * p, q, r);
  }

  lemma Distribute(a: int, b: int, d: int)
    ensures (a + b) * d == a * d + b * d
  {
  }

  lemma AtLeastOnce(k: int, d: int)
    requires k >= 1 && d > 0
    ensures k * d >= d
  {
    Distribute(k - 1, 1, d);
  }

  lemma ModUnique(n: int, d: int, q: int, r: int)
    requires d > 0 && n == q * d + r && 0 <= r < d
    ensures n / d == q && n % d == r
  {
    var (q', r') := (n / d, n % d);
    Distribute(q - q', q', d);
    Distribute(q' - q, q, d);
    if q > q' { AtLeastOnce(q - q', d); }
    if q < q' { AtLeastOnce(q' - q, d); }
  }

  lemma {:induction false} BitsPrefix(n: nat, w: nat, k: nat)
    requires k <= w
    ensures Bits(n, w)[..k] == Bits(n / Pow2(w - k), k)
    decreases w - k
  {
    if k < w {
      BitsPrefix(n / 2, w - 1, k);
      assert Bits(n, w)[..k] == Bits(n / 2, w - 1)[..k];
      DivHalf(n, Pow2(w - 1 - k));
    }
  }

  lemma DivHalf(n: nat, p: nat)
    requires p > 0
    ensures n / 2 / p == n / (2 * p)
  {
    var (h, q) := (n / 2, n / 2 / p);
    assert n == 2 * h + n % 2 && h == q * p + h % p;
    assert 2 * (q * p) == q * (2 * p);
    ModUnique(n, 2 * p, q, 2 * (h % p) + n % 2);
  }

  lemma {:induction false} BitsSuffix(n: nat, w: nat, k: nat)
    requires k <= w
    ensures Bits(n, w)[k..] == Bits(n, w - k)
    decreases w
  {
    if k < w {
      BitsSuffix(n / 2, w - 1, k);
      assert Bits(n, w)[k..] == Bits(n / 2, w - 1)[k..] + [n % 2 == 1];
    }
  }

  // Bits a to b of a w-bit number.
  lemma SliceVal(n: nat, w: nat, a: nat, b: nat)
    requires a <= b <= w
    ensures Val(Bits(n, w)[a..b]) == n / Pow2(w - b) % Pow2(b - a)
  {
    BitsPrefix(n, w, b);
    BitsSuffix(n / Pow2(w - b), b, a);
    assert Bits(n, w)[a..b] == Bits(n, w)[..b][a..];
    ValOfBits(n / Pow2(w - b), b - a);
  }

  // A bit string cut short and filled with zeros is the start of its block.
  lemma CutBound(b: seq<bool>, k: nat)
    requires k <= |b|
    ensures var v := Val(b[..k] + Zeros(|b| - k));
            v <= Val(b) < v + Pow2(|b| - k) && v % Pow2(|b| - k) == 0
  {
    hide Val, Pow2;
    var (top, low, m) := (b[..k], b[k..], |b| - k);
    assert top + low == b && |low| == m;
    ValConcat(top, low);
    ValConcat(top, Zeros(m));
    ValZeros(m);
    ValBound(low);
    ModUnique(Val(top) * Pow2(m), Pow2(m), Val(top), 0);
  }

  // ----- two interleaved streams -----

  function Evens(b: seq<bool>): seq<bool> {
    seq((|b| + 1) / 2, i requires 0 <= i < (|b| + 1) / 2 => b[2 * i])
  }

  function Odds(b: seq<bool>): seq<bool> {
    seq(|b| / 2, i requires 0 <= i < |b| / 2 => b[2 * i + 1])
  }

  function Zip(even: seq<bool>, odd: seq<bool>): (b: seq<bool>)
    requires |even| == |odd| || |even| == |odd| + 1
    ensures |b| == |even| + |odd|
    ensures Evens(b) == even && Odds(b) == odd
  {
    seq(|even| + |odd|, i requires 0 <= i < |even| + |odd| => if i % 2 == 0 then even[i / 2] else odd[i / 2])
  }

  lemma ZipUnique(b: seq<bool>)
    ensures b == Zip(Evens(b), Odds(b))
  {
    assert forall i | 0 <= i < |b| :: b[i] == if i % 2 == 0 then Evens(b)[i / 2] else Odds(b)[i / 2];
  }

  lemma PartsOfPrefix(b: seq<bool>, k: nat)
    requires k <= |b|
    ensures Evens(b[..k]) == Evens(b)[..(k + 1) / 2] && Odds(b[..k]) == Odds(b)[..k / 2]
  {
  }

  lemma PartsOfZeroFill(b: seq<bool>, k: nat)
    ensures Evens(b + Zeros(k)) == Evens(b) + Zeros((|b| + k + 1) / 2 - (|b| + 1) / 2)
    ensures Odds(b + Zeros(k)) == Odds(b) + Zeros((|b| + k) / 2 - |b| / 2)
  {
  }

  lemma PartsOfEvenConcat(a: seq<bool>, b: seq<bool>)
    requires |a| % 2 == 0
    ensures Evens(a + b) == Evens(a) + Evens(b) && Odds(a + b) == Odds(a) + Odds(b)
  {
  }
}

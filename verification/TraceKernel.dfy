/** The dot-product kernel of the hft client, for vectors of `w` 128-bit lanes: 2 for AVX2, 4 for AVX-512. A vector of
    32-bit elements has 4 * w of them. */
module TraceKernel {
  import opened Checksum
  import opened Traces

  /** The sum of two 32-bit numbers, or of two products of 16-bit numbers, as a 32-bit register keeps it. */
  function Wrap32(x: int): int {
    if x >= 0x8000_0000 then x - 0x1_0000_0000 else if x < -0x8000_0000 then x + 0x1_0000_0000 else x
  }

  /** Unsigned saturation of a 32-bit element to 16 bits. */
  function Saturate16(x: int): int {
    if x < 0 then 0 else if x > 0xFFFF then 0xFFFF else x
  }

  /** A 16-bit pattern read as a signed number. */
  function Signed16(x: int): int {
    if x >= 0x8000 then x - 0x1_0000 else x
  }

  /** What the registers keep: the low bits, as a signed number; saturation keeps what 16 bits hold and the nearer end
      of their range otherwise. */
  lemma RegistersKeep(x: int)
    ensures -0x1_0000_0000 <= x < 0x1_0000_0000 ==>
              -0x8000_0000 <= Wrap32(x) < 0x8000_0000 && (x - Wrap32(x)) % 0x1_0000_0000 == 0
    ensures 0 <= x < 0x1_0000 ==> -0x8000 <= Signed16(x) < 0x8000 && (x - Signed16(x)) % 0x1_0000 == 0
    ensures 0 <= Saturate16(x) < 0x1_0000 && (0 <= x < 0x1_0000 ==> Saturate16(x) == x)
    ensures (x <= 0 ==> Saturate16(x) == 0) && (x >= 0xFFFF ==> Saturate16(x) == 0xFFFF)
  {
  }

  /** Four elements from `k` on, saturated to 16 bits. */
  function Quad(v: seq<int>, k: nat): (r: seq<int>)
    requires k + 4 <= |v|
    ensures |r| == 4
  {
    [Saturate16(v[k]), Saturate16(v[k + 1]), Saturate16(v[k + 2]), Saturate16(v[k + 3])]
  }

  /** Packing the first `w` lanes of two vectors to 16-bit elements, lane by lane: four from `a`, then four from `b`. */
  function Packus(w: nat, a: seq<int>, b: seq<int>): (r: seq<int>)
    requires 4 * w <= |a| && 4 * w <= |b|
    ensures |r| == 8 * w
  {
    if w == 0 then [] else Packus(w - 1, a, b) + (Quad(a, 4 * (w - 1)) + Quad(b, 4 * (w - 1)))
  }

  /** Multiplying 16-bit elements and adding adjacent products: the first `n` outputs. */
  function Madd(n: nat, x: seq<int>, y: seq<int>): (r: seq<int>)
    requires 2 * n <= |x| && 2 * n <= |y|
    ensures |r| == n
  {
    if n == 0 then []
    else
      var u := 2 * (n - 1);
      Madd(n - 1, x, y)
      + [Wrap32(Signed16(x[u]) * Signed16(y[u]) + Signed16(x[u + 1]) * Signed16(y[u + 1]))]
  }

  /** Adding the first `n` 32-bit elements. */
  function Add32(n: nat, a: seq<int>, b: seq<int>): (r: seq<int>)
    requires n <= |a| && n <= |b|
    ensures |r| == n
  {
    if n == 0 then [] else Add32(n - 1, a, b) + [Wrap32(a[n - 1] + b[n - 1])]
  }

  /** The widening reduction at the end. */
  function Sum(v: seq<int>, k: nat): int
    requires k <= |v|
  {
    if k == 0 then 0 else Sum(v, k - 1) + v[k - 1]
  }

  ghost predicate InRange(v: seq<int>) {
    forall k :: 0 <= k < |v| ==> 0 <= v[k] < MODULO
  }

  ghost predicate Bounded(v: seq<int>, h: int) {
    forall k :: 0 <= k < |v| ==> 0 <= v[k] <= h
  }

  /** The largest a pair of products gets. */
  const PAIR := 2 * 996 * 996

  // ---------- one multiply-add ----------

  lemma PairBound(x0: int, y0: int, x1: int, y1: int)
    requires 0 <= x0 < MODULO && 0 <= y0 < MODULO && 0 <= x1 < MODULO && 0 <= y1 < MODULO
    ensures 0 <= x0 * y0 + x1 * y1 <= PAIR
  {
    Product(x0, y0, 996);
    Product(x1, y1, 996);
  }

  /** The first `l` lanes that packing the two vectors of `v` at `j` gives. */
  function Pack(l: nat, w: nat, v: seq<int>, j: nat): (r: seq<int>)
    requires l <= w && j + 8 * w <= |v|
    ensures |r| == 8 * l
  {
    if l == 0 then [] else Pack(l - 1, w, v, j) + (Quad(v, j + 4 * (l - 1)) + Quad(v, j + 4 * w + 4 * (l - 1)))
  }

  lemma {:induction false} PackOfLoads(l: nat, w: nat, v: seq<int>, j: nat, a: seq<int>, b: seq<int>)
    requires l <= w && j + 8 * w <= |v| && a == v[j..j + 4 * w] && b == v[j + 4 * w..j + 8 * w]
    ensures Packus(l, a, b) == Pack(l, w, v, j)
  {
    if l > 0 { PackOfLoads(l - 1, w, v, j, a, b); }
  }

  lemma BehindPrefix(p: seq<int>, x: seq<int>, y: seq<int>, r: nat)
    requires |x| == |y| == 4 && r < 4
    ensures (p + (x + y))[|p| + r] == x[r] && (p + (x + y))[|p| + 4 + r] == y[r]
  {
  }

  /** Where packing puts the elements of one lane; in range, saturation changes nothing. */
  lemma {:induction false} PackAt(l: nat, w: nat, v: seq<int>, j: nat, i: nat, r: nat)
    requires i < l <= w && j + 8 * w <= |v| && InRange(v) && r < 4
    ensures Pack(l, w, v, j)[8 * i + r] == v[j + 4 * i + r]
    ensures Pack(l, w, v, j)[8 * i + 4 + r] == v[j + 4 * w + 4 * i + r]
  {
    var p, x, y := Pack(l - 1, w, v, j), Quad(v, j + 4 * (l - 1)), Quad(v, j + 4 * w + 4 * (l - 1));
    assert Pack(l, w, v, j) == p + (x + y);
    if i < l - 1 {
      PackAt(l - 1, w, v, j, i, r);
      assert 8 * i + 4 + r < |p|;
    } else {
      BehindPrefix(p, x, y, r);
      QuadAt(v, j + 4 * (l - 1), r);
      QuadAt(v, j + 4 * w + 4 * (l - 1), r);
    }
  }

  lemma QuadAt(v: seq<int>, k: nat, r: nat)
    requires k + 4 <= |v| && InRange(v) && r < 4
    ensures Quad(v, k)[r] == v[k + r]
  {
  }

  lemma {:induction false} MaddAt(n: nat, x: seq<int>, y: seq<int>, u: nat, x0: int, x1: int, y0: int, y1: int)
    requires 2 * n <= |x| && 2 * n <= |y| && u < n
    requires x[2 * u] == x0 && x[2 * u + 1] == x1 && y[2 * u] == y0 && y[2 * u + 1] == y1
    requires 0 <= x0 < MODULO && 0 <= y0 < MODULO && 0 <= x1 < MODULO && 0 <= y1 < MODULO
    ensures Madd(n, x, y)[u] == x0 * y0 + x1 * y1 && 0 <= Madd(n, x, y)[u] <= PAIR
  {
    if u < n - 1 { MaddAt(n - 1, x, y, u, x0, x1, y0, y1); } else { PairBound(x0, y0, x1, y1); }
  }

  /** Two vectors of each array at `j`, with values as challenges have them. */
  ghost predicate Packable(w: nat, a: seq<int>, b: seq<int>, j: nat) {
    j + 8 * w <= |a| && j + 8 * w <= |b| && InRange(a) && InRange(b)
  }

  /** Two adjacent products. */
  function Pair(x: seq<int>, y: seq<int>, k: nat): int
    requires k + 1 < |x| && k + 1 < |y|
  {
    x[k] * y[k] + x[k + 1] * y[k + 1]
  }

  /** Output `u` of the multiply-add takes the adjacent products of packed elements 2u and 2u + 1, which stand side by
      side from `k` on in both arrays. */
  lemma MaddPair(w: nat, a: seq<int>, b: seq<int>, j: nat, u: nat, k: nat)
    requires Packable(w, a, b, j) && u < 4 * w && k + 1 < |a| && k + 1 < |b|
    requires Pack(w, w, a, j)[2 * u] == a[k] && Pack(w, w, a, j)[2 * u + 1] == a[k + 1]
    requires Pack(w, w, b, j)[2 * u] == b[k] && Pack(w, w, b, j)[2 * u + 1] == b[k + 1]
    ensures var m := Madd(4 * w, Pack(w, w, a, j), Pack(w, w, b, j)); 0 <= m[u] <= PAIR && m[u] == Pair(a, b, k)
  {
    MaddAt(4 * w, Pack(w, w, a, j), Pack(w, w, b, j), u, a[k], a[k + 1], b[k], b[k + 1]);
  }

  /** Outputs 0 and 1 of a lane take its products from the first vectors. */
  lemma MaddFirst(w: nat, a: seq<int>, b: seq<int>, j: nat, l: nat, v: nat)
    requires Packable(w, a, b, j) && l < w && v < 2
    ensures var m := Madd(4 * w, Pack(w, w, a, j), Pack(w, w, b, j));
            0 <= m[4 * l + v] <= PAIR && m[4 * l + v] == Pair(a, b, j + 4 * l + 2 * v)
  {
    PackAt(w, w, a, j, l, 2 * v);
    PackAt(w, w, a, j, l, 2 * v + 1);
    PackAt(w, w, b, j, l, 2 * v);
    PackAt(w, w, b, j, l, 2 * v + 1);
    MaddPair(w, a, b, j, 4 * l + v, j + 4 * l + 2 * v);
  }

  /** Outputs 2 and 3 of a lane take its products from the second vectors. */
  lemma MaddSecond(w: nat, a: seq<int>, b: seq<int>, j: nat, l: nat, v: nat)
    requires Packable(w, a, b, j) && l < w && v < 2
    ensures var m := Madd(4 * w, Pack(w, w, a, j), Pack(w, w, b, j));
            0 <= m[4 * l + 2 + v] <= PAIR && m[4 * l + 2 + v] == Pair(a, b, j + 4 * w + 4 * l + 2 * v)
  {
    PackAt(w, w, a, j, l, 2 * v);
    PackAt(w, w, a, j, l, 2 * v + 1);
    PackAt(w, w, b, j, l, 2 * v);
    PackAt(w, w, b, j, l, 2 * v + 1);
    MaddPair(w, a, b, j, 4 * l + 2 + v, j + 4 * w + 4 * l + 2 * v);
  }

  /** The four outputs of a lane. */
  lemma MaddOfPacks(w: nat, a: seq<int>, b: seq<int>, j: nat, l: nat, m: seq<int>)
    requires Packable(w, a, b, j) && l < w && m == Madd(4 * w, Pack(w, w, a, j), Pack(w, w, b, j))
    ensures forall u :: 4 * l <= u < 4 * l + 4 ==> 0 <= m[u] <= PAIR
    ensures var k := j + 4 * l;
            m[4 * l] == Pair(a, b, k) && m[4 * l + 1] == Pair(a, b, k + 2)
            && m[4 * l + 2] == Pair(a, b, k + 4 * w) && m[4 * l + 3] == Pair(a, b, k + 4 * w + 2)
  {
    MaddFirst(w, a, b, j, l, 0);
    MaddFirst(w, a, b, j, l, 1);
    MaddSecond(w, a, b, j, l, 0);
    MaddSecond(w, a, b, j, l, 1);
  }

  lemma FourMore(v: seq<int>, k: nat)
    requires k + 4 <= |v|
    ensures Sum(v, k + 4) == Sum(v, k) + v[k] + v[k + 1] + v[k + 2] + v[k + 3]
  {
    assert Sum(v, k + 2) == Sum(v, k) + v[k] + v[k + 1];
  }

  lemma FourProducts(a: seq<int>, b: seq<int>, k: nat)
    requires k + 4 <= |a| && k + 4 <= |b|
    ensures FlatDot(a, b, k + 4) == FlatDot(a, b, k) + Pair(a, b, k) + Pair(a, b, k + 2)
  {
    assert FlatDot(a, b, k + 2) == FlatDot(a, b, k) + Pair(a, b, k);
  }

  /** Lane by lane, the outputs add up to the products of both vectors. */
  lemma {:induction false} MaddSums(w: nat, a: seq<int>, b: seq<int>, j: nat, l: nat, m: seq<int>)
    requires Packable(w, a, b, j) && l <= w && m == Madd(4 * w, Pack(w, w, a, j), Pack(w, w, b, j))
    ensures Sum(m, 4 * l) == FlatDot(a, b, j + 4 * l) - FlatDot(a, b, j)
                             + FlatDot(a, b, j + 4 * w + 4 * l) - FlatDot(a, b, j + 4 * w)
  {
    if l > 0 {
      MaddSums(w, a, b, j, l - 1, m);
      MaddOfPacks(w, a, b, j, l - 1, m);
      FourMore(m, 4 * (l - 1));
      FourProducts(a, b, j + 4 * (l - 1));
      FourProducts(a, b, j + 4 * w + 4 * (l - 1));
    }
  }

  lemma {:induction false} MaddBounded(w: nat, a: seq<int>, b: seq<int>, j: nat, l: nat, m: seq<int>)
    requires Packable(w, a, b, j) && l <= w && m == Madd(4 * w, Pack(w, w, a, j), Pack(w, w, b, j))
    ensures Bounded(m[..4 * l], PAIR)
  {
    if l > 0 {
      MaddBounded(w, a, b, j, l - 1, m);
      MaddOfPacks(w, a, b, j, l - 1, m);
      BoundedFour(m, 4 * (l - 1), PAIR);
    }
  }

  lemma BoundedFour(v: seq<int>, k: nat, h: int)
    requires k + 4 <= |v| && Bounded(v[..k], h)
    requires 0 <= v[k] <= h && 0 <= v[k + 1] <= h && 0 <= v[k + 2] <= h && 0 <= v[k + 3] <= h
    ensures Bounded(v[..k + 4], h)
  {
    forall i | 0 <= i < k + 4 ensures 0 <= v[i] <= h {
      if i < k { assert v[i] == v[..k][i]; }
    }
  }

  lemma {:induction false} AddAt(n: nat, a: seq<int>, b: seq<int>, u: nat)
    requires n <= |a| && n <= |b| && u < n
    ensures Add32(n, a, b)[u] == Wrap32(a[u] + b[u])
  {
    if u < n - 1 { AddAt(n - 1, a, b, u); }
  }

  lemma AddBounded(n: nat, a: seq<int>, b: seq<int>, h: int, g: int)
    requires n <= |a| && n <= |b| && Bounded(a, h) && Bounded(b, g) && h + g < 0x8000_0000
    ensures Bounded(Add32(n, a, b), h + g)
  {
    forall k | 0 <= k < n ensures 0 <= Add32(n, a, b)[k] <= h + g { AddAt(n, a, b, k); }
  }

  /** Without overflow a vector sum adds up to the sum of the sums. */
  lemma {:induction false} AddSums(n: nat, a: seq<int>, b: seq<int>, h: int, g: int, k: nat)
    requires k <= n <= |a| && n <= |b| && Bounded(a, h) && Bounded(b, g) && h + g < 0x8000_0000
    ensures Sum(Add32(n, a, b), k) == Sum(a, k) + Sum(b, k)
  {
    if k > 0 {
      AddSums(n, a, b, h, g, k - 1);
      AddAt(n, a, b, k - 1);
    }
  }

  // ---------- the kernel ----------

  /** An accumulator after two vectors of each array from `j` on have been multiplied and added. */
  function Advance(w: nat, acc: seq<int>, a: seq<int>, b: seq<int>, j: nat): (r: seq<int>)
    requires |acc| == 4 * w && j + 8 * w <= |a| && j + 8 * w <= |b|
    ensures |r| == 4 * w
  {
    Add32(4 * w, acc, Madd(4 * w, Pack(w, w, a, j), Pack(w, w, b, j)))
  }

  function Zeros(w: nat): (r: seq<int>)
    ensures |r| == 4 * w
  {
    if w == 0 then [] else Zeros(w - 1) + [0, 0, 0, 0]
  }

  /** What the vector kernel returns from element `j` on with these accumulators, in the arithmetic of its registers:
      four vectors of each array a round, then the merge of the accumulators and the widening reduction. */
  function KernelFrom(w: nat, a: seq<int>, b: seq<int>, j: nat, x: seq<int>, y: seq<int>): int
    requires w > 0 && |x| == |y| == 4 * w
    decreases |a| - j
  {
    if j + 16 * w <= |a| && j + 16 * w <= |b|
    then KernelFrom(w, a, b, j + 16 * w, Advance(w, x, a, b, j), Advance(w, y, a, b, j + 8 * w))
    else Sum(Add32(4 * w, x, y), 4 * w)
  }

  function Kernel(w: nat, a: seq<int>, b: seq<int>): int
    requires w > 0
  {
    KernelFrom(w, a, b, 0, Zeros(w), Zeros(w))
  }

  /** The elements `r` rounds take. */
  function Blocks(w: nat, r: nat): nat {
    if r == 0 then 0 else Blocks(w, r - 1) + 16 * w
  }

  lemma {:induction false} BlocksAre(w: nat, r: nat)
    ensures Blocks(w, r) == r * (16 * w)
  {
    if r > 0 { BlocksAre(w, r - 1); }
  }

  /** What one multiply-add adds to an accumulator. */
  lemma AdvanceSums(w: nat, acc: seq<int>, a: seq<int>, b: seq<int>, j: nat, h: int)
    requires Packable(w, a, b, j) && |acc| == 4 * w && Bounded(acc, h) && h + PAIR < 0x8000_0000
    ensures var r := Advance(w, acc, a, b, j);
            Bounded(r, h + PAIR) && Sum(r, 4 * w) == Sum(acc, 4 * w) + FlatDot(a, b, j + 8 * w) - FlatDot(a, b, j)
  {
    var m := Madd(4 * w, Pack(w, w, a, j), Pack(w, w, b, j));
    MaddSums(w, a, b, j, w, m);
    MaddBounded(w, a, b, j, w, m);
    assert m[..4 * w] == m;
    AddBounded(4 * w, acc, m, h, PAIR);
    AddSums(4 * w, acc, m, h, PAIR, 4 * w);
  }

  lemma {:induction false} ZeroLanes(w: nat)
    ensures forall k :: 0 <= k < 4 * w ==> Zeros(w)[k] == 0
  {
    if w > 0 { ZeroLanes(w - 1); }
  }

  lemma {:induction false} ZeroSum(v: seq<int>, k: nat)
    requires k <= |v| && forall i :: 0 <= i < |v| ==> v[i] == 0
    ensures Sum(v, k) == 0
  {
    if k > 0 { ZeroSum(v, k - 1); }
  }

  /** Accumulators within a bound that add up to the first `j` products. */
  ghost predicate Accumulated(w: nat, x: seq<int>, y: seq<int>, a: seq<int>, b: seq<int>, j: nat, h: int) {
    |x| == |y| == 4 * w && Bounded(x, h) && Bounded(y, h) && Sum(x, 4 * w) + Sum(y, 4 * w) == FlatDot(a, b, j)
  }

  lemma NextRound(w: nat, x: seq<int>, y: seq<int>, a: seq<int>, b: seq<int>, j: nat, h: int)
    requires Accumulated(w, x, y, a, b, j, h) && h + PAIR < 0x8000_0000
    requires j + 16 * w <= |a| && j + 16 * w <= |b| && InRange(a) && InRange(b)
    ensures Accumulated(w, Advance(w, x, a, b, j), Advance(w, y, a, b, j + 8 * w), a, b, j + 16 * w, h + PAIR)
  {
    AdvanceSums(w, x, a, b, j, h);
    AdvanceSums(w, y, a, b, j + 8 * w, h);
  }

  /** The bound on a lane grows by one pair a round. */
  lemma NextCap(r: nat)
    ensures (r + 1) * PAIR == r * PAIR + PAIR
  {
  }

  lemma {:induction false} KernelSums(w: nat, a: seq<int>, b: seq<int>, j: nat, x: seq<int>, y: seq<int>,
                                      h: int, r: nat)
    requires w > 0 && |a| == |b| == j + Blocks(w, r) && InRange(a) && InRange(b)
    requires Accumulated(w, x, y, a, b, j, h) && 2 * (h + r * PAIR) < 0x8000_0000 && h >= 0
    ensures KernelFrom(w, a, b, j, x, y) == FlatDot(a, b, |a|)
    decreases r
  {
    if r == 0 {
      AddSums(4 * w, x, y, h, h, 4 * w);
    } else {
      NextCap(r - 1);
      NextRound(w, x, y, a, b, j, h);
      KernelSums(w, a, b, j + 16 * w, Advance(w, x, a, b, j), Advance(w, y, a, b, j + 8 * w), h + PAIR, r - 1);
    }
  }

  /** As long as the merged accumulators fit 32 bits, the kernel computes the dot product exactly. */
  lemma KernelIsDot(w: nat, rounds: nat, a: seq<int>, b: seq<int>)
    requires w > 0 && |a| == |b| == Blocks(w, rounds) && InRange(a) && InRange(b) && 2 * (rounds * PAIR) < 0x8000_0000
    ensures Kernel(w, a, b) == FlatDot(a, b, |a|)
  {
    ZeroLanes(w);
    ZeroSum(Zeros(w), 4 * w);
    KernelSums(w, a, b, 0, Zeros(w), Zeros(w), 0, rounds);
  }

  /** Two vectors of each array from `j` on, multiplied and added to an accumulator. */
  method MultiplyAdd(w: nat, acc: seq<int>, a: array<int>, b: array<int>, j: nat) returns (r: seq<int>)
    requires |acc| == 4 * w && j + 8 * w <= a.Length && j + 8 * w <= b.Length
    ensures r == Advance(w, acc, a[..], b[..], j)
  {
    var n := 4 * w;
    var a0, a1, b0, b1 := a[j..j + n], a[j + n..j + 2 * n], b[j..j + n], b[j + n..j + 2 * n];
    PackOfLoads(w, w, a[..], j, a0, a1);
    PackOfLoads(w, w, b[..], j, b0, b1);
    r := Add32(n, acc, Madd(n, Packus(w, a0, a1), Packus(w, b0, b1)));
  }

  lemma NextBlock(w: nat, r: nat)
    requires Blocks(w, r) > 0
    ensures r > 0 && Blocks(w, r) == Blocks(w, r - 1) + 16 * w
  {
  }

  /** One pass of the loop: both accumulators advance by two vectors of each array. */
  method Round(w: nat, acc0: seq<int>, acc1: seq<int>, a: array<int>, b: array<int>, j: nat, ghost h: int)
    returns (next0: seq<int>, next1: seq<int>)
    requires Accumulated(w, acc0, acc1, a[..], b[..], j, h) && h + PAIR < 0x8000_0000
    requires j + 16 * w <= a.Length && j + 16 * w <= b.Length && InRange(a[..]) && InRange(b[..])
    ensures Accumulated(w, next0, next1, a[..], b[..], j + 16 * w, h + PAIR)
  {
    NextRound(w, acc0, acc1, a[..], b[..], j, h);
    next0 := MultiplyAdd(w, acc0, a, b, j);
    next1 := MultiplyAdd(w, acc1, a, b, j + 8 * w);
  }

  /** What is left of the bound before another round. */
  ghost predicate Room(left: nat, h: int) {
    h >= 0 && 2 * (h + left * PAIR) < 0x8000_0000
  }

  lemma RoomForOne(left: nat, h: int)
    requires Room(left, h) && left > 0
    ensures Room(left - 1, h + PAIR) && h + PAIR < 0x8000_0000
  {
    NextCap(left - 1);
  }

  lemma ZeroAccumulated(w: nat, a: seq<int>, b: seq<int>)
    ensures Accumulated(w, Zeros(w), Zeros(w), a, b, 0, 0)
  {
    ZeroLanes(w);
    ZeroSum(Zeros(w), 4 * w);
  }

  /** The loop of the vector kernel, with two accumulators. */
  method Rounds(w: nat, a: array<int>, b: array<int>, ghost rounds: nat)
    returns (acc0: seq<int>, acc1: seq<int>, ghost h: int)
    requires w > 0 && a.Length == b.Length == Blocks(w, rounds) && Room(rounds, 0)
    requires InRange(a[..]) && InRange(b[..])
    ensures Accumulated(w, acc0, acc1, a[..], b[..], a.Length, h) && 2 * h < 0x8000_0000
  {
    acc0, acc1, h := Zeros(w), Zeros(w), 0;
    ZeroAccumulated(w, a[..], b[..]);
    var j := 0;
    ghost var left := rounds;
    while j < a.Length
      invariant j >= 0 && a.Length == j + Blocks(w, left) && Room(left, h)
      invariant Accumulated(w, acc0, acc1, a[..], b[..], j, h)
    {
      NextBlock(w, left);
      RoomForOne(left, h);
      acc0, acc1 := Round(w, acc0, acc1, a, b, j, h);
      j, left, h := j + 16 * w, left - 1, h + PAIR;
    }
  }

  lemma Merged(w: nat, x: seq<int>, y: seq<int>, a: seq<int>, b: seq<int>, j: nat, h: int)
    requires Accumulated(w, x, y, a, b, j, h) && 2 * h < 0x8000_0000
    ensures Sum(Add32(4 * w, x, y), 4 * w) == FlatDot(a, b, j)
  {
    AddSums(4 * w, x, y, h, h, 4 * w);
  }

  /** The widening reduction, in 64 bits. */
  method Reduce(acc: seq<int>) returns (r: int)
    ensures r == Sum(acc, |acc|)
  {
    r := 0;
    for k := 0 to |acc|
      invariant r == Sum(acc, k)
    {
      r := r + acc[k];
    }
  }

  /** The vector kernel. On values as challenges have them it computes the dot product. */
  method TraceABT(w: nat, a: array<int>, b: array<int>, ghost rounds: nat) returns (r: int)
    requires w > 0 && a.Length == b.Length == Blocks(w, rounds) && 2 * (rounds * PAIR) < 0x8000_0000
    requires InRange(a[..]) && InRange(b[..])
    ensures r == FlatDot(a[..], b[..], a.Length) == Kernel(w, a[..], b[..])
  {
    var acc0, acc1; ghost var h;
    acc0, acc1, h := Rounds(w, a, b, rounds);
    r := Reduce(Add32(4 * w, acc0, acc1));
    Merged(w, acc0, acc1, a[..], b[..], a.Length, h);
    KernelIsDot(w, rounds, a[..], b[..]);
  }

  // ---------- the tiers ----------

  /** The forms the kernel is compiled to: a plain loop, or `rounds` blocks of vectors of `w` lanes. */
  datatype Tier = Scalar | Vector(w: nat, rounds: nat)

  /** The blocks cover the matrix, and the merged accumulators fit 32 bits. */
  predicate Supported(t: Tier, n: nat) {
    t.Vector? ==> t.w > 0 && Blocks(t.w, t.rounds) == n * n && 2 * (t.rounds * PAIR) < 0x8000_0000
  }

  /** What the compiled form returns. */
  function TraceOf(t: Tier, n: nat, a: seq<int>, b: seq<int>): int {
    match t
    case Scalar => FlatDot(a, b, n * n)
    case Vector(w, _) => if w > 0 then Kernel(w, a, b) else 0
  }

  lemma TraceOfIsDot(t: Tier, n: nat, a: seq<int>, b: seq<int>)
    requires Supported(t, n) && |a| == |b| == n * n && InRange(a) && InRange(b)
    ensures TraceOf(t, n, a, b) == FlatDot(a, b, n * n)
  {
    if t.Vector? { KernelIsDot(t.w, t.rounds, a, b); }
  }

  /** At N = 128 every tier is supported: with AVX2, 512 rounds, the merged lanes stay below 2^31 by less than six
      percent; with AVX-512, 256 rounds, by more than half. */
  lemma TiersFit()
    ensures Supported(Scalar, 128) && Supported(Vector(2, 512), 128) && Supported(Vector(4, 256), 128)
    ensures 2 * (512 * PAIR) == 2031648768
  {
    BlocksAre(2, 512);
    BlocksAre(4, 256);
  }
}

/** The Robin Hood hash table: open addressing in a circular array, with displacement swaps on insertion,
    early exit on lookup and backward shifting on erasure. */
module RobinHood {
  import opened Wrappers

  /** `dib` is one more than the distance to the home bucket; a vacant slot counts as 0. */
  datatype Slot<V> = Vacant | Entry(dib: nat, hash: nat, key: string, value: V)

  function Dib<V>(s: Slot<V>): nat {
    match s case Vacant => 0 case Entry(d, _, _, _) => d
  }

  // ---------- the circle of indices ----------

  /** Bitwise conjunction of naturals. */
  function BitAnd(a: nat, b: nat): nat {
    if a == 0 || b == 0 then 0 else 2 * BitAnd(a / 2, b / 2) + (if a % 2 == 1 && b % 2 == 1 then 1 else 0)
  }

  function Pow2(k: nat): (p: nat)
    ensures p > 0
  {
    if k == 0 then 1 else 2 * Pow2(k - 1)
  }

  ghost predicate PowerOfTwo(n: nat) {
    exists k: nat :: n == Pow2(k)
  }

  lemma PowerOfTwoDoubles(n: nat)
    requires PowerOfTwo(n)
    ensures PowerOfTwo(2 * n)
  {
    var k: nat :| n == Pow2(k);
    assert 2 * n == Pow2(k + 1);
  }

  lemma EightIsPower(n: nat)
    requires PowerOfTwo(n) && 8 <= n < 16
    ensures n == 8
  {
    var k: nat :| n == Pow2(k);
    if k >= 3 {
      assert Pow2(k) == 2 * Pow2(k - 1) == 4 * Pow2(k - 2) == 8 * Pow2(k - 3);
    }
  }

  lemma MaskBits(a: nat, h: nat)
    requires h > 0
    ensures BitAnd(a, 2 * h - 1) == 2 * BitAnd(a / 2, h - 1) + a % 2
  {
    assert (2 * h - 1) / 2 == h - 1 && (2 * h - 1) % 2 == 1;
  }

  lemma MaskStep(a: nat, h: nat)
    requires h > 0 && BitAnd(a / 2, h - 1) == (a / 2) % h
    ensures BitAnd(a, 2 * h - 1) == a % (2 * h)
  {
    MaskBits(a, h);
    ModHalf(a, h);
  }

  /** Masking with a power of two less one is reduction modulo that power. */
  lemma {:induction false} MaskIsModulo(a: nat, k: nat)
    ensures BitAnd(a, Pow2(k) - 1) == a % Pow2(k)
  {
    if k > 0 {
      MaskIsModulo(a / 2, k - 1);
      MaskStep(a, Pow2(k - 1));
    }
  }

  lemma ModHalf(a: nat, h: nat)
    requires h > 0
    ensures a % (2 * h) == 2 * ((a / 2) % h) + a % 2
  {
    var q, r := (a / 2) / h, (a / 2) % h;
    assert a == 2 * (h * q + r) + a % 2;
    ModUnique(a, 2 * h, q, 2 * r + a % 2);
  }

  lemma ModUnique(a: nat, m: nat, q: nat, r: nat)
    requires r < m && a == m * q + r
    ensures a % m == r
  {
    var q', r' := a / m, a % m;
    assert m * (q' - q) == r - r';
    Multiples(m, q' - q);
  }

  lemma Multiples(m: int, k: int)
    requires m > 0
    ensures k >= 1 ==> m * k >= m
    ensures k <= -1 ==> m * k <= -m
  {
    assert m * k == m + m * (k - 1);
    assert m * k == m * (k + 1) - m;
  }

  function Next(i: nat, cap: nat): nat {
    if i + 1 == cap then 0 else i + 1
  }

  function Prev(i: nat, cap: nat): int {
    if i == 0 then cap - 1 else i - 1
  }

  /** Steps from `h` forward to `i` around a circle of `cap` slots. */
  function Dist(h: nat, i: nat, cap: nat): int {
    if i >= h then i - h else i + cap - h
  }

  /** The bucket of a hash, by masking. */
  method Bucket(hash: nat, mask: nat) returns (idx: nat)
    requires PowerOfTwo(mask + 1)
    ensures idx == Home(hash, mask + 1) == hash % (mask + 1)
  {
    ghost var k: nat :| mask + 1 == Pow2(k);
    MaskIsModulo(hash, k);
    idx := BitAnd(hash, mask);
  }

  /** The next index, by masking. */
  method Advance(idx: nat, mask: nat) returns (next: nat)
    requires PowerOfTwo(mask + 1) && idx <= mask
    ensures next == Next(idx, mask + 1) == (idx + 1) % (mask + 1)
  {
    ghost var k: nat :| mask + 1 == Pow2(k);
    MaskIsModulo(idx + 1, k);
    if idx == mask { ModUnique(mask + 1, mask + 1, 1, 0); } else { ModUnique(idx + 1, mask + 1, 0, idx + 1); }
    next := BitAnd(idx + 1, mask);
  }

  // ---------- the invariant of the array ----------

  function Home(hash: nat, cap: nat): (h: nat)
    requires cap > 0
    ensures h < cap
  {
    hash % cap
  }

  /** Each entry sits `dib` - 1 steps past its home. */
  ghost predicate Placed<V>(s: seq<Slot<V>>) {
    forall i :: 0 <= i < |s| && s[i].Entry? ==> s[i].dib == Dist(Home(s[i].hash, |s|), i, |s|) + 1
  }

  /** No entry is more than one further from home than the slot before it. */
  ghost predicate Graded<V>(s: seq<Slot<V>>) {
    forall i :: 0 <= i < |s| ==> Dib(s[i]) <= Dib(s[Prev(i, |s|)]) + 1
  }

  ghost predicate Hashed<V>(hasher: string -> nat, s: seq<Slot<V>>) {
    forall i :: 0 <= i < |s| && s[i].Entry? ==> s[i].hash == hasher(s[i].key)
  }

  /** `pos` says where each key is, apart from slot `hole`. */
  ghost predicate Located<V>(s: seq<Slot<V>>, pos: map<string, nat>, hole: int) {
    (forall k <- pos :: pos[k] < |s| && pos[k] != hole && s[pos[k]].Entry? && s[pos[k]].key == k)
    && (forall i :: 0 <= i < |s| && i != hole && s[i].Entry? ==> s[i].key in pos && pos[s[i].key] == i)
  }

  ghost predicate Shape<V>(hasher: string -> nat, s: seq<Slot<V>>) {
    |s| > 0 && Placed(s) && Graded(s) && Hashed(hasher, s)
  }

  ghost function Contents<V>(s: seq<Slot<V>>, pos: map<string, nat>): map<string, V>
    requires forall k <- pos :: pos[k] < |s| && s[pos[k]].Entry?
  {
    map k | k in pos :: s[pos[k]].value
  }

  /** Displacements are bounded by the distance to any vacant slot behind. */
  lemma {:induction false} VacantBehind<V>(hasher: string -> nat, s: seq<Slot<V>>, e: nat, i: nat)
    requires Shape(hasher, s) && e < |s| && i < |s| && s[e].Vacant?
    ensures Dib(s[i]) <= Dist(e, i, |s|)
    decreases Dist(e, i, |s|)
  {
    if i != e { VacantBehind(hasher, s, e, Prev(i, |s|)); }
  }

  /** Between an entry and its home every slot is displaced at least as far as a probe for that entry would be. */
  lemma {:induction false} Climb<V>(hasher: string -> nat, s: seq<Slot<V>>, p: nat, i: nat)
    requires Shape(hasher, s) && p < |s| && i < |s| && s[p].Entry?
    requires var h := Home(s[p].hash, |s|); Dist(h, i, |s|) <= Dist(h, p, |s|)
    ensures Dib(s[i]) >= Dist(Home(s[p].hash, |s|), i, |s|) + 1
    decreases Dist(i, p, |s|)
  {
    if i != p {
      Climb(hasher, s, p, Next(i, |s|));
      assert Prev(Next(i, |s|), |s|) == i;
      assert Dib(s[Next(i, |s|)]) <= Dib(s[i]) + 1;
    }
  }

  // ---------- a vacant slot always remains ----------

  ghost function KeysBelow<V>(s: seq<Slot<V>>, n: nat): set<string>
    requires n <= |s| && forall i :: 0 <= i < n ==> s[i].Entry?
  {
    if n == 0 then {} else KeysBelow(s, n - 1) + {s[n - 1].key}
  }

  lemma {:induction false} KeysBelowCount<V>(s: seq<Slot<V>>, pos: map<string, nat>, n: nat)
    requires n <= |s| && (forall i :: 0 <= i < n ==> s[i].Entry?) && Located(s, pos, -1)
    ensures |KeysBelow(s, n)| == n && KeysBelow(s, n) <= pos.Keys
    ensures forall k <- KeysBelow(s, n) :: k in pos && pos[k] < n
  {
    if n > 0 {
      KeysBelowCount(s, pos, n - 1);
      assert s[n - 1].key !in KeysBelow(s, n - 1);
    }
  }

  lemma SubsetCount(a: set<string>, b: set<string>)
    requires a <= b
    ensures |a| <= |b|
  {
    assert |b| == |a| + |b - a| by { assert b == a + (b - a); }
  }

  lemma VacantSlot<V>(s: seq<Slot<V>>, pos: map<string, nat>) returns (e: nat)
    requires Located(s, pos, -1) && |pos| < |s|
    ensures e < |s| && s[e].Vacant?
  {
    e := 0;
    while e < |s| && s[e].Entry?
      invariant e <= |s| && forall i :: 0 <= i < e ==> s[i].Entry?
    {
      e := e + 1;
    }
    if e == |s| {
      KeysBelowCount(s, pos, e);
      SubsetCount(KeysBelow(s, e), pos.Keys);
    }
  }

  // ---------- the table ----------

  /** What insertion asks of a fresh slot for a key that is not in the array, while `probe` is carried at `idx`. */
  ghost predicate Carrying<V>(hasher: string -> nat, s: seq<Slot<V>>, probe: Slot<V>, idx: nat) {
    Shape(hasher, s) && idx < |s| && probe.Entry? && probe.hash == hasher(probe.key)
    && probe.dib == Dist(Home(probe.hash, |s|), idx, |s|) + 1
    && probe.dib <= Dib(s[Prev(idx, |s|)]) + 1
  }

  /** One step further along: the displacement grows by one, and the circle is never completed. */
  lemma CarryOn<V>(hasher: string -> nat, s: seq<Slot<V>>, probe: Slot<V>, idx: nat, e: nat)
    requires Carrying(hasher, s, probe, idx) && e < |s| && s[e].Vacant? && idx != e
    requires probe.dib <= Dib(s[idx])
    ensures Carrying(hasher, s, probe.(dib := probe.dib + 1), Next(idx, |s|))
    ensures Dist(Next(idx, |s|), e, |s|) < Dist(idx, e, |s|)
  {
    VacantBehind(hasher, s, e, idx);
    assert Prev(Next(idx, |s|), |s|) == idx;
  }

  /** Writing the probe into a slot no better displaced keeps the shape. */
  lemma PutProbe<V>(hasher: string -> nat, s: seq<Slot<V>>, probe: Slot<V>, idx: nat)
    requires Carrying(hasher, s, probe, idx) && Dib(s[idx]) < probe.dib
    ensures Shape(hasher, s[idx := probe])
    ensures s[idx].Entry? ==> Carrying(hasher, s[idx := probe], s[idx], idx)
  {
    var t := s[idx := probe];
    assert |s| == 1 ==> Prev(idx, |s|) == idx;
    forall i | 0 <= i < |t| ensures Dib(t[i]) <= Dib(t[Prev(i, |t|)]) + 1 {
      assert Dib(s[i]) <= Dib(s[Prev(i, |s|)]) + 1;
    }
  }

  /** A lookup for `key` that has inspected the `dist` - 1 slots from its home to `idx` and not passed it. */
  ghost predicate Seeking<V>(hasher: string -> nat, s: seq<Slot<V>>, pos: map<string, nat>, key: string, idx: nat,
                             dist: nat) {
    Shape(hasher, s) && Located(s, pos, -1) && idx < |s|
    && var h := Home(hasher(key), |s|);
       dist == Dist(h, idx, |s|) + 1 && (key in pos ==> Dist(h, pos[key], |s|) >= dist - 1)
  }

  /** The early exit is sound, and a lookup that goes on does not pass the key. */
  lemma SeekStep<V>(hasher: string -> nat, s: seq<Slot<V>>, pos: map<string, nat>,
                    key: string, idx: nat, dist: nat, e: nat)
    requires Seeking(hasher, s, pos, key, idx, dist) && e < |s| && s[e].Vacant?
    ensures Dib(s[idx]) < dist ==> key !in pos
    ensures Dib(s[idx]) >= dist ==> s[idx].Entry? && idx != e
    ensures Dib(s[idx]) >= dist && s[idx].key == key ==> key in pos && pos[key] == idx
    ensures Dib(s[idx]) >= dist && s[idx].key != key ==>
              Seeking(hasher, s, pos, key, Next(idx, |s|), dist + 1) && Dist(Next(idx, |s|), e, |s|) < Dist(idx, e, |s|)
  {
    if key in pos { Climb(hasher, s, pos[key], idx); }
    if Dib(s[idx]) >= dist { VacantBehind(hasher, s, e, idx); }
  }

  /** A lookup starts at the home bucket. */
  lemma SeekStart<V>(hasher: string -> nat, s: seq<Slot<V>>, pos: map<string, nat>, key: string)
    requires Shape(hasher, s) && Located(s, pos, -1)
    ensures Seeking(hasher, s, pos, key, Home(hasher(key), |s|), 1)
  {
  }

  /** Mid-insertion: the array together with the carried `probe` stands for `goal`. Once an entry has been
      displaced the carried key is known to be nowhere in the array. */
  ghost predicate Inserting<V>(hasher: string -> nat, s: seq<Slot<V>>, pos: map<string, nat>, probe: Slot<V>, idx: nat,
                               goal: map<string, V>, swapped: bool)
  {
    Carrying(hasher, s, probe, idx) && Located(s, pos, -1)
    && Contents(s, pos)[probe.key := probe.value] == goal
    && if swapped then probe.key !in pos else Seeking(hasher, s, pos, probe.key, idx, probe.dib)
  }

  lemma InsertVacant<V>(hasher: string -> nat, s: seq<Slot<V>>, pos: map<string, nat>, probe: Slot<V>, idx: nat,
                        goal: map<string, V>, swapped: bool)
    requires Inserting(hasher, s, pos, probe, idx, goal, swapped) && s[idx].Vacant?
    ensures var s', pos' := s[idx := probe], pos[probe.key := idx];
            Shape(hasher, s') && Located(s', pos', -1) && Contents(s', pos') == goal && |pos'| == |pos| + 1
  {
    if !swapped { SeekStep(hasher, s, pos, probe.key, idx, probe.dib, idx); }
    PutProbe(hasher, s, probe, idx);
  }

  lemma InsertSame<V>(hasher: string -> nat, s: seq<Slot<V>>, pos: map<string, nat>, probe: Slot<V>, idx: nat,
                      goal: map<string, V>, swapped: bool)
    requires Inserting(hasher, s, pos, probe, idx, goal, swapped) && s[idx].Entry? && s[idx].key == probe.key
    ensures var s' := s[idx := s[idx].(value := probe.value)];
            Shape(hasher, s') && Located(s', pos, -1) && Contents(s', pos) == goal
  {
    var s' := s[idx := s[idx].(value := probe.value)];
    forall i | 0 <= i < |s'| ensures Dib(s'[i]) <= Dib(s'[Prev(i, |s'|)]) + 1 {
      assert Dib(s[i]) <= Dib(s[Prev(i, |s|)]) + 1;
    }
  }

  /** The books of a swap: the probe takes slot `idx`, the entry there takes the probe's place. */
  lemma SwapContents<V>(s: seq<Slot<V>>, pos: map<string, nat>, probe: Slot<V>, idx: nat)
    requires Located(s, pos, -1) && idx < |s| && s[idx].Entry? && probe.Entry? && probe.key !in pos
    ensures var s', pos' := s[idx := probe], (pos - {s[idx].key})[probe.key := idx];
            Located(s', pos', -1) && |pos'| == |pos| && s[idx].key !in pos'
            && Contents(s', pos')[s[idx].key := s[idx].value] == Contents(s, pos)[probe.key := probe.value]
  {
    assert (pos - {s[idx].key}).Keys == pos.Keys - {s[idx].key};
  }

  lemma InsertSwap<V>(hasher: string -> nat, s: seq<Slot<V>>, pos: map<string, nat>, probe: Slot<V>, idx: nat,
                      goal: map<string, V>, swapped: bool, e: nat)
    requires Inserting(hasher, s, pos, probe, idx, goal, swapped) && s[idx].Entry? && s[idx].key != probe.key
    requires s[idx].dib < probe.dib && e < |s| && s[e].Vacant?
    ensures var s', pos' := s[idx := probe], (pos - {s[idx].key})[probe.key := idx];
            |pos'| == |pos| && idx != e && s'[e].Vacant?
            && Inserting(hasher, s', pos', s[idx].(dib := s[idx].dib + 1), Next(idx, |s|), goal, true)
            && Dist(Next(idx, |s|), e, |s|) < Dist(idx, e, |s|)
  {
    if !swapped { SeekStep(hasher, s, pos, probe.key, idx, probe.dib, e); }
    PutProbe(hasher, s, probe, idx);
    SwapContents(s, pos, probe, idx);
    CarryOn(hasher, s[idx := probe], s[idx], idx, e);
  }

  lemma InsertAdvance<V>(hasher: string -> nat, s: seq<Slot<V>>, pos: map<string, nat>, probe: Slot<V>, idx: nat,
                         goal: map<string, V>, swapped: bool, e: nat)
    requires Inserting(hasher, s, pos, probe, idx, goal, swapped) && s[idx].Entry? && s[idx].key != probe.key
    requires s[idx].dib >= probe.dib && e < |s| && s[e].Vacant?
    ensures Inserting(hasher, s, pos, probe.(dib := probe.dib + 1), Next(idx, |s|), goal, swapped)
            && Dist(Next(idx, |s|), e, |s|) < Dist(idx, e, |s|)
  {
    if !swapped { SeekStep(hasher, s, pos, probe.key, idx, probe.dib, e); }
    CarryOn(hasher, s, probe, idx, e);
  }

  /** Mid-erasure: the entry in slot `idx` is stale, all others are where `pos` says. */
  ghost predicate Shifting<V>(hasher: string -> nat, s: seq<Slot<V>>, pos: map<string, nat>, idx: nat) {
    Shape(hasher, s) && |s| > 1 && idx < |s| && s[idx].Entry? && Located(s, pos, idx)
  }

  lemma ShiftStart<V>(hasher: string -> nat, s: seq<Slot<V>>, pos: map<string, nat>, key: string)
    requires Shape(hasher, s) && Located(s, pos, -1) && |s| > 1 && key in pos
    ensures Shifting(hasher, s, pos - {key}, pos[key])
            && Contents(s, pos - {key}) == Contents(s, pos) - {key} && |pos - {key}| == |pos| - 1
  {
    assert (pos - {key}).Keys == pos.Keys - {key};
  }

  lemma ShiftShape<V>(hasher: string -> nat, s: seq<Slot<V>>, idx: nat)
    requires Shape(hasher, s) && |s| > 1 && idx < |s| && Dib(s[Next(idx, |s|)]) > 1
    ensures var n := Next(idx, |s|); Shape(hasher, s[idx := s[n].(dib := s[n].dib - 1)])
  {
    var n := Next(idx, |s|);
    var s' := s[idx := s[n].(dib := s[n].dib - 1)];
    assert Prev(n, |s|) == idx && Dib(s[n]) <= Dib(s[idx]) + 1;
    forall i | 0 <= i < |s| ensures Dib(s'[i]) <= Dib(s'[Prev(i, |s|)]) + 1 {
      assert Dib(s[i]) <= Dib(s[Prev(i, |s|)]) + 1;
      assert Prev(i, |s|) == idx ==> i == n;
    }
  }

  lemma ShiftBooks<V>(s: seq<Slot<V>>, pos: map<string, nat>, idx: nat, n: nat)
    requires idx < |s| && n < |s| && n != idx && s[n].Entry? && s[n].dib > 1 && Located(s, pos, idx)
    ensures var s', pos' := s[idx := s[n].(dib := s[n].dib - 1)], pos[s[n].key := idx];
            Located(s', pos', n) && Contents(s', pos') == Contents(s, pos) && |pos'| == |pos|
  {
    assert pos[s[n].key := idx].Keys == pos.Keys;
  }

  /** The entry behind the hole moves one step toward its home and leaves a hole in turn. */
  lemma ShiftStep<V>(hasher: string -> nat, s: seq<Slot<V>>, pos: map<string, nat>, idx: nat)
    requires Shifting(hasher, s, pos, idx) && Dib(s[Next(idx, |s|)]) > 1
    ensures var n := Next(idx, |s|);
            var s' := s[idx := s[n].(dib := s[n].dib - 1)];
            var pos' := pos[s[n].key := idx];
            Shifting(hasher, s', pos', n) && Contents(s', pos') == Contents(s, pos) && |pos'| == |pos|
  {
    var n := Next(idx, |s|);
    ShiftBooks(s, pos, idx, n);
    ShiftGoesOn(hasher, s, pos, idx, n);
  }

  lemma ShiftGoesOn<V>(hasher: string -> nat, s: seq<Slot<V>>, pos: map<string, nat>, idx: nat, n: nat)
    requires Shape(hasher, s) && |s| > 1 && idx < |s| && n == Next(idx, |s|) && Dib(s[n]) > 1
    requires Located(s[idx := s[n].(dib := s[n].dib - 1)], pos[s[n].key := idx], n)
    ensures Shifting(hasher, s[idx := s[n].(dib := s[n].dib - 1)], pos[s[n].key := idx], n)
  {
    ShiftShape(hasher, s, idx);
  }

  /** The hole comes nearer to the vacant slot at `e`. */
  lemma ShiftCloser<V>(s: seq<Slot<V>>, idx: nat, e: nat)
    requires idx < |s| && e < |s| && s[e].Vacant? && Dib(s[Next(idx, |s|)]) > 1 && s[idx].Entry?
    ensures e != idx && Dist(Next(idx, |s|), e, |s|) < Dist(idx, e, |s|)
  {
  }

  /** Behind the hole is a vacant slot or an entry at home: the hole may become vacant. */
  lemma ShiftEnd<V>(hasher: string -> nat, s: seq<Slot<V>>, pos: map<string, nat>, idx: nat)
    requires Shifting(hasher, s, pos, idx) && Dib(s[Next(idx, |s|)]) <= 1
    ensures var s' := s[idx := Vacant];
            Shape(hasher, s') && Located(s', pos, -1) && Contents(s', pos) == Contents(s, pos)
  {
    var s' := s[idx := Vacant];
    forall i | 0 <= i < |s| ensures Dib(s'[i]) <= Dib(s'[Prev(i, |s|)]) + 1 {
      assert Dib(s[i]) <= Dib(s[Prev(i, |s|)]) + 1;
      assert Prev(i, |s|) == idx ==> i == Next(idx, |s|);
    }
  }

  function MaxLoad(cap: nat): nat {
    17 * cap / 20
  }

  /** The limit is 0.85 of the capacity, rounded down. */
  lemma LoadLimit(cap: nat, n: nat)
    ensures 20 * MaxLoad(cap) <= 17 * cap < 20 * (MaxLoad(cap) + 1)
    ensures n > MaxLoad(cap) <==> 20 * n > 17 * cap
  {
  }

  /** The entries among the first `n` slots. */
  ghost function Moved<V>(s: seq<Slot<V>>, pos: map<string, nat>, n: nat): map<string, V>
    requires Located(s, pos, -1)
  {
    map k | k in pos && pos[k] < n :: s[pos[k]].value
  }

  lemma MovedCount<V>(s: seq<Slot<V>>, pos: map<string, nat>, n: nat)
    requires Located(s, pos, -1)
    ensures |Moved(s, pos, n)| <= |pos|
    ensures n < |s| && s[n].Entry? ==> |Moved(s, pos, n)| < |pos|
  {
    SubsetCount(Moved(s, pos, n).Keys, pos.Keys);
    if n < |s| && s[n].Entry? {
      SubsetCount(Moved(s, pos, n).Keys, pos.Keys - {s[n].key});
    }
  }

  lemma MovedStep<V>(s: seq<Slot<V>>, pos: map<string, nat>, n: nat)
    requires Located(s, pos, -1) && n < |s|
    ensures Moved(s, pos, n + 1) == if s[n].Vacant? then Moved(s, pos, n) else Moved(s, pos, n)[s[n].key := s[n].value]
  {
  }

  class RobinHoodMap<V> {
    const hasher: string -> nat
    var table: array<Slot<V>>
    var mask: nat
    var size: nat
    ghost var pos: map<string, nat>

    ghost predicate Valid()
      reads this, table
    {
      PowerOfTwo(table.Length) && table.Length >= 8 && mask == table.Length - 1
      && size == |pos| && size <= MaxLoad(table.Length)
      && Shape(hasher, table[..]) && Located(table[..], pos, -1)
    }

    /** The map this table stands for. */
    ghost function Model(): map<string, V>
      reads this, table
      requires Valid()
    {
      Contents(table[..], pos)
    }

    /** `size` is the number of keys. */
    lemma Counted()
      requires Valid()
      ensures size == |Model()|
    {
      assert Model().Keys == pos.Keys;
    }

    /** The smallest power of two at least `n`. */
    static method RoundPow2(n: nat) returns (p: nat)
      ensures PowerOfTwo(p) && p >= n && (p == 1 || p / 2 < n)
    {
      p := 1;
      assert p == Pow2(0);
      while p < n
        invariant p >= 1 && PowerOfTwo(p) && (p == 1 || p / 2 < n)
        decreases n - p
      {
        PowerOfTwoDoubles(p);
        p := 2 * p;
      }
    }

    /** The capacity of a new table. */
    static method Capacity(cap: nat) returns (c: nat)
      ensures PowerOfTwo(c) && c >= 8 && c >= cap && (c == 8 || c / 2 < cap)
    {
      c := RoundPow2(if cap < 8 then 8 else cap);
      if c < 16 { EightIsPower(c); }
    }

    constructor (hasher: string -> nat, cap: nat)
      ensures Valid() && Model() == map[] && this.hasher == hasher && fresh(table)
      ensures PowerOfTwo(table.Length) && table.Length >= 8 && table.Length >= cap
      ensures table.Length == 8 || table.Length / 2 < cap
    {
      var c := Capacity(cap);
      this.hasher := hasher;
      var t := new Slot<V>[c](_ => Vacant);
      table, mask, size, pos := t, c - 1, 0, map[];
      new;
      assert forall i :: 0 <= i < c ==> table[..][i] == Vacant;
    }

    /** The table is about to exceed its load limit. */
    predicate Crowded()
      reads this, table
    {
      size + 1 > MaxLoad(table.Length)
    }

    method Insert(key: string, value: V)
      requires Valid()
      modifies this, table
      ensures Valid() && Model() == old(Model())[key := value]
      ensures table.Length == if old(Crowded()) then 2 * old(table.Length) else old(table.Length)
      ensures if old(Crowded()) then fresh(table) else table == old(table)
      ensures old(Crowded()) <==> 20 * (old(size) + 1) > 17 * old(table.Length)
      decreases Crowded(), 1
    {
      LoadLimit(table.Length, size + 1);
      if Crowded() {
        Rehash(2 * table.Length);
      }
      Place(key, value);
    }

    /** Mid-insertion: everything but the carried probe is in order. */
    ghost predicate Mid(probe: Slot<V>, idx: nat, goal: map<string, V>, swapped: bool)
      reads this, table
    {
      PowerOfTwo(table.Length) && table.Length >= 8 && mask == table.Length - 1
      && size == |pos| && size + 1 <= MaxLoad(table.Length)
      && Inserting(hasher, table[..], pos, probe, idx, goal, swapped)
    }

    /** The probe comes to rest in a vacant slot. */
    method Settle(idx: nat, probe: Slot<V>, ghost goal: map<string, V>, ghost swapped: bool)
      requires Mid(probe, idx, goal, swapped) && table[idx].Vacant?
      modifies this, table
      ensures Valid() && Model() == goal && table == old(table)
    {
      ghost var s := table[..];
      InsertVacant(hasher, s, pos, probe, idx, goal, swapped);
      table[idx] := probe;
      assert table[..] == s[idx := probe];
      pos := pos[probe.key := idx];
      size := size + 1;
    }

    /** The key was there already: its value is replaced. */
    method Renew(idx: nat, probe: Slot<V>, ghost goal: map<string, V>, ghost swapped: bool)
      requires Mid(probe, idx, goal, swapped) && table[idx].Entry? && table[idx].key == probe.key
      modifies table
      ensures Valid() && Model() == goal
    {
      ghost var s := table[..];
      InsertSame(hasher, s, pos, probe, idx, goal, swapped);
      table[idx] := table[idx].(value := probe.value);
      assert table[..] == s[idx := s[idx].(value := probe.value)];
    }

    /** The entry at `idx` is closer to home than the probe: they change places, and the probe is one step on. */
    method Displace(idx: nat, probe: Slot<V>, ghost goal: map<string, V>, ghost swapped: bool, ghost e: nat)
      returns (probe': Slot<V>)
      requires Mid(probe, idx, goal, swapped) && e < table.Length && table[e].Vacant?
      requires table[idx].Entry? && table[idx].key != probe.key && table[idx].dib < probe.dib
      modifies this`pos, table
      ensures Mid(probe', Next(idx, table.Length), goal, true) && table[e].Vacant?
      ensures Dist(Next(idx, table.Length), e, table.Length) < Dist(idx, e, table.Length)
    {
      ghost var s, s', pos' := table[..], table[..][idx := probe], (pos - {table[idx].key})[probe.key := idx];
      InsertSwap(hasher, s, pos, probe, idx, goal, swapped, e);
      probe' := table[idx].(dib := table[idx].dib + 1);
      assert Inserting(hasher, s', pos', probe', Next(idx, |s|), goal, true) && |pos'| == |pos|;
      table[idx] := probe;
      assert table[..] == s';
      pos := pos';
    }

    /** The probe sets out from the key's home. */
    lemma SetOut(key: string, value: V)
      requires Valid() && !Crowded()
      ensures Mid(Entry(1, hasher(key), key, value), Home(hasher(key), table.Length), Model()[key := value], false)
    {
      SeekStart(hasher, table[..], pos, key);
    }

    /** The entry at `idx` is at least as far from home as the probe: the probe moves on. */
    lemma StepOver(idx: nat, probe: Slot<V>, goal: map<string, V>, swapped: bool, e: nat)
      requires Mid(probe, idx, goal, swapped) && e < table.Length && table[e].Vacant?
      requires table[idx].Entry? && table[idx].key != probe.key && table[idx].dib >= probe.dib
      ensures Mid(probe.(dib := probe.dib + 1), Next(idx, table.Length), goal, swapped)
      ensures Dist(Next(idx, table.Length), e, table.Length) < Dist(idx, e, table.Length)
    {
      InsertAdvance(hasher, table[..], pos, probe, idx, goal, swapped, e);
    }

    /** One pass of the probe loop: the probe comes to rest, or goes on to the next slot. */
    method Probe(idx: nat, probe: Slot<V>, ghost goal: map<string, V>, ghost swapped: bool, ghost e: nat)
      returns (done: bool, probe': Slot<V>, ghost swapped': bool)
      requires Mid(probe, idx, goal, swapped) && e < table.Length && table[e].Vacant?
      modifies this, table
      ensures table == old(table)
      ensures done ==> Valid() && Model() == goal
      ensures !done ==> Mid(probe', Next(idx, table.Length), goal, swapped') && table[e].Vacant?
      ensures !done ==> Dist(Next(idx, table.Length), e, table.Length) < Dist(idx, e, table.Length)
    {
      var cur := table[idx];
      done, probe', swapped' := false, probe, swapped;
      if cur.Vacant? {
        Settle(idx, probe, goal, swapped);
        done := true;
      } else if cur.hash == probe.hash && cur.key == probe.key {
        Renew(idx, probe, goal, swapped);
        done := true;
      } else if cur.dib < probe.dib {
        probe' := Displace(idx, probe, goal, swapped, e);
        swapped' := true;
      } else {
        StepOver(idx, probe, goal, swapped, e);
        probe' := probe.(dib := probe.dib + 1);
      }
    }

    /** The probe loop of insertion. */
    method Place(key: string, value: V)
      requires Valid() && !Crowded()
      modifies this, table
      ensures Valid() && Model() == old(Model())[key := value] && table == old(table)
    {
      ghost var goal, swapped := Model()[key := value], false;
      ghost var e := VacantSlot(table[..], pos);
      var h := hasher(key);
      var idx := Bucket(h, mask);
      var probe := Entry(1, h, key, value);
      SetOut(key, value);
      while true
        invariant table == old(table) && e < table.Length && table[e].Vacant?
        invariant Mid(probe, idx, goal, swapped)
        decreases Dist(idx, e, table.Length)
      {
        var next := Advance(idx, mask);
        var done;
        done, probe, swapped := Probe(idx, probe, goal, swapped, e);
        if done { return; }
        idx := next;
      }
    }

    /** An all-vacant table of the given capacity. */
    method Reset(cap: nat)
      requires PowerOfTwo(cap) && cap >= 8
      modifies this
      ensures Valid() && Model() == map[] && fresh(table) && table.Length == cap
    {
      var t := new Slot<V>[cap](_ => Vacant);
      assert forall i :: 0 <= i < cap ==> t[..][i] == Vacant;
      table, mask, size, pos := t, cap - 1, 0, map[];
    }

    /** Reinserts slot `i` of an older table `s`. */
    method Reinsert(cur: Slot<V>, ghost s: seq<Slot<V>>, ghost oldPos: map<string, nat>, ghost i: nat)
      requires Valid() && Located(s, oldPos, -1) && i < |s| && cur == s[i]
      requires Model() == Moved(s, oldPos, i) && |oldPos| <= MaxLoad(table.Length)
      modifies this, table
      ensures Valid() && Model() == Moved(s, oldPos, i + 1) && table == old(table)
      decreases false, 2
    {
      MovedStep(s, oldPos, i);
      MovedCount(s, oldPos, i);
      if cur.Entry? {
        Counted();
        Insert(cur.key, cur.value);
      }
    }

    /** Reinserts every entry of an older table `s`; that never triggers another rehash. */
    method ReinsertAll(oldTable: array<Slot<V>>, ghost s: seq<Slot<V>>, ghost oldPos: map<string, nat>)
      requires Valid() && Model() == map[] && Located(s, oldPos, -1) && |oldPos| <= MaxLoad(table.Length)
      requires oldTable != table && oldTable[..] == s
      modifies this, table
      ensures Valid() && Model() == Moved(s, oldPos, |s|) && table == old(table)
      decreases false, 3
    {
      for i := 0 to oldTable.Length
        invariant table == old(table) && oldTable[..] == s
        invariant Valid() && Model() == Moved(s, oldPos, i)
      {
        Reinsert(oldTable[i], s, oldPos, i);
      }
    }

    /** Moves every entry into a table of twice the size. */
    method Rehash(newCap: nat)
      requires Valid() && newCap == 2 * table.Length
      modifies this, table
      ensures Valid() && Model() == old(Model()) && fresh(table) && table.Length == newCap && size == old(size)
      decreases true, 0
    {
      var oldTable := table;
      ghost var s, oldPos := table[..], pos;
      PowerOfTwoDoubles(table.Length);
      Counted();
      Reset(newCap);
      ReinsertAll(oldTable, s, oldPos);
      Counted();
      assert Moved(s, oldPos, |s|) == old(Model());
    }

    /** The probe loop of lookup and erasure. */
    method Locate(key: string) returns (r: Option<nat>)
      requires Valid()
      ensures r == if key in pos then Some(pos[key]) else None
    {
      ghost var s := table[..];
      ghost var e := VacantSlot(s, pos);
      var h := hasher(key);
      var idx := Bucket(h, mask);
      var dist := 1;
      SeekStart(hasher, s, pos, key);
      while true
        invariant Seeking(hasher, s, pos, key, idx, dist)
        decreases Dist(idx, e, |s|)
      {
        SeekStep(hasher, s, pos, key, idx, dist, e);
        var cur := table[idx];
        if cur.Vacant? || cur.dib < dist { return None; }
        if cur.hash == h && cur.key == key { return Some(idx); }
        idx := Advance(idx, mask);
        dist := dist + 1;
      }
    }

    method Find(key: string) returns (r: Option<V>)
      requires Valid()
      ensures r == if key in Model() then Some(Model()[key]) else None
    {
      var at := Locate(key);
      r := if at.Some? then Some(table[at.value].value) else None;
    }

    /** Pulls the entries behind the hole one slot toward home, up to the first that is at home or vacant. */
    method Backshift(start: nat, ghost e: nat)
      requires PowerOfTwo(table.Length) && mask == table.Length - 1 && e < table.Length && table[e].Vacant?
      requires Shifting(hasher, table[..], pos, start)
      modifies this`pos, table
      ensures Shape(hasher, table[..]) && Located(table[..], pos, -1) && |pos| == old(|pos|)
      ensures Contents(table[..], pos) == Contents(old(table[..]), old(pos))
    {
      var idx := start;
      ghost var goal := Contents(table[..], pos);
      while true
        invariant 0 <= idx && table[e].Vacant? && Shifting(hasher, table[..], pos, idx)
        invariant Contents(table[..], pos) == goal && |pos| == old(|pos|)
        decreases Dist(idx, e, table.Length)
      {
        var next := Advance(idx, mask);
        if table[next].Vacant? || table[next].dib <= 1 {
          Vacate(idx);
          return;
        }
        Pull(idx, next, e);
        idx := next;
      }
    }

    /** Moves the entry behind the hole into it, one step toward its home. */
    method Pull(idx: nat, next: nat, ghost e: nat)
      requires e < table.Length && table[e].Vacant? && Shifting(hasher, table[..], pos, idx)
      requires next == Next(idx, table.Length) && next < table.Length && table[next].Entry? && table[next].dib > 1
      modifies this`pos, table
      ensures table[e].Vacant? && Shifting(hasher, table[..], pos, next)
      ensures Contents(table[..], pos) == Contents(old(table[..]), old(pos)) && |pos| == old(|pos|)
      ensures Dist(next, e, table.Length) < Dist(idx, e, table.Length)
    {
      ghost var s := table[..];
      ShiftStep(hasher, s, pos, idx);
      ShiftCloser(s, idx, e);
      table[idx] := table[next].(dib := table[next].dib - 1);
      assert table[..] == s[idx := s[next].(dib := s[next].dib - 1)];
      pos := pos[s[next].key := idx];
    }

    /** Empties the hole once nothing behind it may move. */
    method Vacate(idx: nat)
      requires Shifting(hasher, table[..], pos, idx) && Dib(table[Next(idx, table.Length)]) <= 1
      modifies table
      ensures Shape(hasher, table[..]) && Located(table[..], pos, -1)
      ensures Contents(table[..], pos) == Contents(old(table[..]), pos)
    {
      ghost var s := table[..];
      ShiftEnd(hasher, s, pos, idx);
      table[idx] := Vacant;
      assert table[..] == s[idx := Vacant];
    }

    /** Removes the entry at `start` and closes the gap. */
    method Forget(key: string, start: nat)
      requires Valid() && key in pos && start == pos[key]
      modifies this`pos, table
      ensures Shape(hasher, table[..]) && Located(table[..], pos, -1) && |pos| + 1 == |old(pos)|
      ensures Contents(table[..], pos) == old(Model()) - {key}
    {
      ghost var e := VacantSlot(table[..], pos);
      ShiftStart(hasher, table[..], pos, key);
      pos := pos - {key};
      Backshift(start, e);
    }

    method Erase(key: string) returns (found: bool)
      requires Valid()
      modifies this, table
      ensures Valid() && Model() == old(Model()) - {key} && table == old(table)
      ensures found == (key in old(Model()))
    {
      var at := Locate(key);
      if at.None? { return false; }
      Forget(key, at.value);
      size := size - 1;
      return true;
    }
  }

  // ---------- runs ----------

  datatype Op<V> = Put(key: string, value: V) | Remove(key: string)

  ghost function AfterOps<V>(m: map<string, V>, ops: seq<Op<V>>): map<string, V>
    decreases ops
  {
    if ops == [] then m
    else AfterOps(match ops[0] { case Put(k, v) => m[k := v] case Remove(k) => m - {k} }, ops[1..])
  }

  /** Where `key` is put last; -1 if nowhere. */
  function LastPut<V>(ops: seq<Op<V>>, key: string): (k: int)
    ensures -1 <= k < |ops| && (k >= 0 ==> ops[k].Put? && ops[k].key == key)
    ensures forall j :: k < j < |ops| && ops[j].Put? ==> ops[j].key != key
  {
    if ops == [] then -1
    else
      var last := |ops| - 1;
      if ops[last].Put? && ops[last].key == key then last else LastPut(ops[..last], key)
  }

  /** Where `key` is removed last; -1 if nowhere. */
  function LastRemove<V>(ops: seq<Op<V>>, key: string): (k: int)
    ensures -1 <= k < |ops| && (k >= 0 ==> ops[k].Remove? && ops[k].key == key)
    ensures forall j :: k < j < |ops| && ops[j].Remove? ==> ops[j].key != key
  {
    if ops == [] then -1
    else
      var last := |ops| - 1;
      if ops[last].Remove? && ops[last].key == key then last else LastRemove(ops[..last], key)
  }

  lemma {:induction false} AfterOpsSnoc<V>(m: map<string, V>, ops: seq<Op<V>>, op: Op<V>)
    ensures AfterOps(m, ops + [op]) ==
            match op { case Put(k, v) => AfterOps(m, ops)[k := v] case Remove(k) => AfterOps(m, ops) - {k} }
    decreases ops
  {
    if ops == [] {
      assert (ops + [op])[1..] == [];
    } else {
      assert (ops + [op])[1..] == ops[1..] + [op];
      AfterOpsSnoc(match ops[0] { case Put(k, v) => m[k := v] case Remove(k) => m - {k} }, ops[1..], op);
    }
  }

  /** A run leaves a key exactly if it was put after any removal, with the value put last. */
  lemma {:induction false} AfterOpsTold<V>(ops: seq<Op<V>>, key: string)
    ensures var m := AfterOps<V>(map[], ops);
            (key in m <==> LastPut(ops, key) > LastRemove(ops, key))
            && (key in m ==> LastPut(ops, key) >= 0 && m[key] == ops[LastPut(ops, key)].value)
    decreases |ops|
  {
    if ops != [] {
      var last := |ops| - 1;
      assert ops == ops[..last] + [ops[last]];
      AfterOpsSnoc(map[], ops[..last], ops[last]);
      AfterOpsTold(ops[..last], key);
    }
  }

  /** Any run of insertions and erasures, with the rehashes they cause, leaves the map that the run describes; a lookup
      then finds a key exactly if it was put after any removal, with the value put last. */
  method Replay<V(0)>(hasher: string -> nat, cap: nat, ops: seq<Op<V>>, key: string)
    returns (t: RobinHoodMap<V>, found: Option<V>)
    ensures t.Valid() && t.Model() == AfterOps(map[], ops) && t.size == |AfterOps(map[], ops)|
    ensures found == if LastPut(ops, key) > LastRemove(ops, key) then Some(ops[LastPut(ops, key)].value) else None
  {
    t := Rebuild(hasher, cap, ops);
    t.Counted();
    AfterOpsTold(ops, key);
    found := t.Find(key);
  }

  method Rebuild<V(0)>(hasher: string -> nat, cap: nat, ops: seq<Op<V>>) returns (t: RobinHoodMap<V>)
    ensures t.Valid() && t.Model() == AfterOps(map[], ops)
  {
    t := new RobinHoodMap(hasher, cap);
    ghost var left := ops;
    for n := 0 to |ops|
      invariant fresh(t) && fresh(t.table) && t.Valid() && left == ops[n..]
      invariant AfterOps(t.Model(), left) == AfterOps(map[], ops)
    {
      match ops[n] {
        case Put(k, v) => t.Insert(k, v);
        case Remove(k) => var _ := t.Erase(k);
      }
      left := left[1..];
    }
  }
}

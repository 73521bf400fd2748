/** The `Stat` record of progress counters and its combinator `Add`.
    Counters are Go `uint64`s, so every addition wraps around modulo 2^64. */
module Stats {

  /** 2^64, the modulus of Go's `uint64` arithmetic. */
  const TWO_TO_THE_64: int := 0x1_0000_0000_0000_0000

  newtype u64 = x: int | 0 <= x < TWO_TO_THE_64

  /** Go's `a + b` on `uint64`: the mathematical sum, wrapped modulo 2^64. */
  function WrapAdd(a: u64, b: u64): (r: u64)
    ensures r as int == (a as int + b as int) % TWO_TO_THE_64
    ensures a as int + b as int < TWO_TO_THE_64 ==> r as int == a as int + b as int
  {
    if a as int + b as int < TWO_TO_THE_64 then a + b
    else (a as int + b as int - TWO_TO_THE_64) as u64
  }

  /** The five counters of a `Stat`, used to speak about all of them at once. */
  datatype Counter = Files | Dirs | Bytes | Trees | Blobs
  {
    /** The counters that `Add` folds in; `Trees` and `Blobs` are never accumulated. */
    predicate Accumulated() {
      this == Files || this == Dirs || this == Bytes
    }
  }

  datatype Stat = Stat(files: u64, dirs: u64, bytes: u64, trees: u64, blobs: u64)
  {
    function Get(c: Counter): u64 {
      match c
      case Files => files
      case Dirs => dirs
      case Bytes => bytes
      case Trees => trees
      case Blobs => blobs
    }

    /** `s.Add(other)`: `Files`, `Dirs` and `Bytes` grow by `other`'s values (wrapping);
        `Trees` and `Blobs` keep the receiver's values, whatever `other` holds. */
    function Add(other: Stat): (r: Stat)
      ensures r.files as int == (files as int + other.files as int) % TWO_TO_THE_64
      ensures r.dirs as int == (dirs as int + other.dirs as int) % TWO_TO_THE_64
      ensures r.bytes as int == (bytes as int + other.bytes as int) % TWO_TO_THE_64
      ensures r.trees == trees && r.blobs == blobs
    {
      this.(bytes := WrapAdd(bytes, other.bytes),
            dirs := WrapAdd(dirs, other.dirs),
            files := WrapAdd(files, other.files))
    }
  }

  /** `Stat{}`, Go's zero value. */
  const Zero := Stat(0, 0, 0, 0, 0)

  /** The delta `ReportFile(size)` reports: added to any total, it counts one
      more file and `size` more bytes and leaves every other counter alone. */
  function FileDelta(size: u64): (r: Stat)
    ensures forall s: Stat ::
      s.Add(r).files as int == (s.files as int + 1) % TWO_TO_THE_64
      && s.Add(r).bytes as int == (s.bytes as int + size as int) % TWO_TO_THE_64
      && s.Add(r).dirs == s.dirs && s.Add(r).trees == s.trees && s.Add(r).blobs == s.blobs
  {
    Stat(1, 0, size, 0, 0)
  }

  /** The delta `ReportDir()` reports: added to any total, it counts one more
      directory and leaves every other counter alone. */
  function DirDelta(): (r: Stat)
    ensures forall s: Stat ::
      s.Add(r).dirs as int == (s.dirs as int + 1) % TWO_TO_THE_64
      && s.Add(r).files == s.files && s.Add(r).bytes == s.bytes
      && s.Add(r).trees == s.trees && s.Add(r).blobs == s.blobs
  {
    Stat(0, 1, 0, 0, 0)
  }

  /** `Add` on one counter: accumulated counters add modulo 2^64, the others keep
      the receiver's value. */
  lemma AddGet(s: Stat, t: Stat, c: Counter)
    ensures s.Add(t).Get(c) as int ==
      if c.Accumulated() then (s.Get(c) as int + t.Get(c) as int) % TWO_TO_THE_64
      else s.Get(c) as int
  {
    match c
    case Files =>
    case Dirs =>
    case Bytes =>
    case Trees =>
    case Blobs =>
  }

  lemma ModAddLeft(x: int, y: int)
    ensures (x % TWO_TO_THE_64 + y) % TWO_TO_THE_64 == (x + y) % TWO_TO_THE_64
  {
    var q := x / TWO_TO_THE_64;
    assert x == q * TWO_TO_THE_64 + x % TWO_TO_THE_64;
    ModShift(x % TWO_TO_THE_64 + y, q);
  }

  lemma ModShift(z: int, q: int)
    ensures (z + q * TWO_TO_THE_64) % TWO_TO_THE_64 == z % TWO_TO_THE_64
  {
    var r := z % TWO_TO_THE_64;
    var k := z / TWO_TO_THE_64;
    assert z + q * TWO_TO_THE_64 == (k + q) * TWO_TO_THE_64 + r;
  }

  /** Two wrapped additions in either order agree. */
  lemma ModSwap(a: int, b: int, d: int)
    ensures ((a + b) % TWO_TO_THE_64 + d) % TWO_TO_THE_64 == ((a + d) % TWO_TO_THE_64 + b) % TWO_TO_THE_64
  {
    ModAddLeft(a + b, d);
    ModAddLeft(a + d, b);
    assert a + b + d == a + d + b;
  }

  /** Wrapped addition is associative. */
  lemma ModAssoc(a: int, b: int, d: int)
    ensures ((a + b) % TWO_TO_THE_64 + d) % TWO_TO_THE_64 == (a + (b + d) % TWO_TO_THE_64) % TWO_TO_THE_64
  {
    ModAddLeft(a + b, d);
    ModAddLeft(b + d, a);
    assert (b + d) % TWO_TO_THE_64 + a == a + (b + d) % TWO_TO_THE_64;
  }

  /** Adding the zero stat changes nothing. */
  lemma AddZero(s: Stat)
    ensures s.Add(Zero) == s
  {
  }

  /** Starting from zero, `Add` yields the other stat's accumulated counters and
      zero `Trees`/`Blobs`: the asymmetry of the combinator. */
  lemma ZeroAdd(s: Stat)
    ensures Zero.Add(s) == s.(trees := 0, blobs := 0)
  {
  }

  /** `Add` is commutative on the counters it accumulates. */
  lemma AddCommutes(s: Stat, t: Stat)
    ensures forall c: Counter :: c.Accumulated() ==> s.Add(t).Get(c) == t.Add(s).Get(c)
  {
    forall c: Counter | c.Accumulated()
      ensures s.Add(t).Get(c) == t.Add(s).Get(c)
    {
      AddGet(s, t, c);
      AddGet(t, s, c);
    }
  }

  /** Folding two deltas in either order gives the same total. */
  lemma AddSwap(s: Stat, t: Stat, u: Stat)
    ensures s.Add(t).Add(u) == s.Add(u).Add(t)
  {
    ModSwap(s.files as int, t.files as int, u.files as int);
    ModSwap(s.dirs as int, t.dirs as int, u.dirs as int);
    ModSwap(s.bytes as int, t.bytes as int, u.bytes as int);
  }

  /** `Add` is associative: adding a combined delta is adding its parts one by one. */
  lemma AddAssociates(s: Stat, t: Stat, u: Stat)
    ensures s.Add(t).Add(u) == s.Add(t.Add(u))
  {
    ModAssoc(s.files as int, t.files as int, u.files as int);
    ModAssoc(s.dirs as int, t.dirs as int, u.dirs as int);
    ModAssoc(s.bytes as int, t.bytes as int, u.bytes as int);
  }

  /** The running total after reporting `deltas` in order, starting from `start`. */
  function Accumulate(start: Stat, deltas: seq<Stat>): (r: Stat)
    ensures r.trees == start.trees && r.blobs == start.blobs
    decreases |deltas|
  {
    if deltas == [] then start else Accumulate(start.Add(deltas[0]), deltas[1..])
  }

  /** The mathematical (unbounded) sum of counter `c` over `deltas`. */
  function Total(deltas: seq<Stat>, c: Counter): nat {
    if deltas == [] then 0 else deltas[0].Get(c) as int + Total(deltas[1..], c)
  }

  /** Reporting one more delta is one more `Add` on the running total. */
  lemma {:induction false} AccumulateSnoc(start: Stat, deltas: seq<Stat>, d: Stat)
    ensures Accumulate(start, deltas + [d]) == Accumulate(start, deltas).Add(d)
    decreases |deltas|
  {
    if deltas == [] {
      assert [] + [d] == [d];
    } else {
      assert (deltas + [d])[1..] == deltas[1..] + [d];
      AccumulateSnoc(start.Add(deltas[0]), deltas[1..], d);
    }
  }

  /** Each accumulated counter of the total is the start value plus the sum of the
      deltas, modulo 2^64; `Trees` and `Blobs` keep their start values. */
  lemma AccumulatePointwise(start: Stat, deltas: seq<Stat>, c: Counter)
    ensures Accumulate(start, deltas).Get(c) as int ==
      if c.Accumulated() then (start.Get(c) as int + Total(deltas, c)) % TWO_TO_THE_64
      else start.Get(c) as int
  {
    if c.Accumulated() {
      CounterAdditive(c);
      AccumulateBy(start, deltas, CounterOf(c));
      TotalIsSumBy(deltas, c);
    }
  }

  /** Each accumulated counter is one that `Add` adds up modulo 2^64. */
  lemma CounterAdditive(c: Counter)
    requires c.Accumulated()
    ensures Additive(CounterOf(c))
  {
    forall s: Stat, t: Stat
      ensures CounterOf(c)(s.Add(t)) == (CounterOf(c)(s) + CounterOf(c)(t)) % TWO_TO_THE_64
    {
      CounterOfAdd(s, t, c);
    }
  }

  lemma CounterOfAdd(s: Stat, t: Stat, c: Counter)
    requires c.Accumulated()
    ensures CounterOf(c)(s.Add(t)) == (CounterOf(c)(s) + CounterOf(c)(t)) % TWO_TO_THE_64
  {
    AddGet(s, t, c);
  }

  /** Counter `c` of a stat, as a function. */
  function CounterOf(c: Counter): Stat -> int {
    (s: Stat) => s.Get(c) as int
  }

  /** The unbounded sum of `get` over `deltas`. */
  function SumBy(deltas: seq<Stat>, get: Stat -> int): int {
    if deltas == [] then 0 else get(deltas[0]) + SumBy(deltas[1..], get)
  }

  /** `get` is a counter that `Add` adds up modulo 2^64. */
  ghost predicate Additive(get: Stat -> int) {
    (forall s: Stat :: 0 <= get(s) < TWO_TO_THE_64)
    && forall s: Stat, t: Stat :: get(s.Add(t)) == (get(s) + get(t)) % TWO_TO_THE_64
  }

  /** Folding `Add` over `deltas` adds up any such counter modulo 2^64. */
  lemma {:induction false} AccumulateBy(start: Stat, deltas: seq<Stat>, get: Stat -> int)
    requires Additive(get)
    ensures get(Accumulate(start, deltas)) == (get(start) + SumBy(deltas, get)) % TWO_TO_THE_64
    decreases |deltas|
  {
    if deltas == [] {
      assert get(start) % TWO_TO_THE_64 == get(start);
    } else {
      var next, tail := start.Add(deltas[0]), deltas[1..];
      AccumulateBy(next, tail, get);
      ModStep(get(start), get(deltas[0]), SumBy(tail, get), get(next),
        get(Accumulate(start, deltas)), SumBy(deltas, get));
    }
  }

  lemma {:induction false} TotalIsSumBy(deltas: seq<Stat>, c: Counter)
    ensures Total(deltas, c) == SumBy(deltas, CounterOf(c))
    decreases |deltas|
  {
    if deltas != [] {
      TotalIsSumBy(deltas[1..], c);
    }
  }

  /** Wrapping after each addition is wrapping once at the end. */
  lemma ModStep(a: int, d: int, t: int, n: int, x: int, total: int)
    requires n == (a + d) % TWO_TO_THE_64
    requires x == (n + t) % TWO_TO_THE_64
    requires total == d + t
    ensures x == (a + total) % TWO_TO_THE_64
  {
    ModAddLeft(a + d, t);
    assert a + d + t == a + total;
  }

  /** Taking delta `i` out of the sequence and adding it first gives the same total. */
  lemma {:induction false} AccumulateRemove(start: Stat, deltas: seq<Stat>, i: nat)
    requires i < |deltas|
    ensures Accumulate(start, deltas) == Accumulate(start.Add(deltas[i]), deltas[..i] + deltas[i + 1..])
    decreases |deltas|
  {
    if i == 0 {
      assert deltas[..0] + deltas[1..] == deltas[1..];
    } else {
      var tail := deltas[1..];
      AccumulateRemove(start.Add(deltas[0]), tail, i - 1);
      assert tail[i - 1] == deltas[i];
      AddSwap(start, deltas[0], deltas[i]);
      var rest := deltas[..i] + deltas[i + 1..];
      assert rest[0] == deltas[0];
      assert rest[1..] == tail[..i - 1] + tail[i..];
    }
  }

  /** Reports may arrive in any order: every permutation of the deltas yields the
      same total. */
  lemma {:induction false} AccumulateOrderIrrelevant(start: Stat, a: seq<Stat>, b: seq<Stat>)
    requires multiset(a) == multiset(b)
    ensures Accumulate(start, a) == Accumulate(start, b)
    decreases |a|
  {
    if a != [] {
      var i := MatchFirst(a, b);
      AccumulateOrderIrrelevant(start.Add(a[0]), a[1..], b[..i] + b[i + 1..]);
      AccumulateRemove(start, b, i);
    } else {
      assert |b| == |multiset(b)| == 0;
    }
  }

  /** The first element of `a` occurs in a permutation `b` of it, at some index `i`;
      what remains of both is still a permutation. */
  lemma MatchFirst(a: seq<Stat>, b: seq<Stat>) returns (i: nat)
    requires a != [] && multiset(a) == multiset(b)
    ensures i < |b| && b[i] == a[0]
    ensures multiset(a[1..]) == multiset(b[..i] + b[i + 1..])
  {
    assert a[0] in multiset(a);
    i := IndexOf(b, a[0]);
    MultisetTail(a);
    MultisetWithout(b, i);
  }

  lemma MultisetTail(s: seq<Stat>)
    requires s != []
    ensures multiset(s[1..]) == multiset(s) - multiset{s[0]}
  {
    assert s == [s[0]] + s[1..];
  }

  lemma IndexOf(s: seq<Stat>, x: Stat) returns (i: nat)
    requires x in multiset(s)
    ensures i < |s| && s[i] == x
  {
    i :| 0 <= i < |s| && s[i] == x;
  }

  /** Taking out the element at `i` takes one occurrence of it out of the multiset. */
  lemma MultisetWithout(s: seq<Stat>, i: nat)
    requires i < |s|
    ensures multiset(s[..i] + s[i + 1..]) == multiset(s) - multiset{s[i]}
  {
    assert s == s[..i] + [s[i]] + s[i + 1..];
    assert multiset(s) == multiset(s[..i] + s[i + 1..]) + multiset{s[i]};
  }

  /** `n` reports of one byte each, from any number of producers, add up to `n`
      bytes (modulo 2^64): no update is lost. */
  lemma {:induction false} RepeatedByteReports(n: nat)
    ensures Accumulate(Zero, seq(n, _ => Stat(0, 0, 1, 0, 0))).bytes as int == n % TWO_TO_THE_64
  {
    var ds := seq(n, _ => Stat(0, 0, 1, 0, 0));
    AccumulatePointwise(Zero, ds, Bytes);
    TotalOfOnes(n);
  }

  lemma {:induction false} TotalOfOnes(n: nat)
    ensures Total(seq(n, _ => Stat(0, 0, 1, 0, 0)), Bytes) == n
  {
    if n > 0 {
      var ds := seq(n, _ => Stat(0, 0, 1, 0, 0));
      assert ds[1..] == seq(n - 1, _ => Stat(0, 0, 1, 0, 0));
      TotalOfOnes(n - 1);
    }
  }
}

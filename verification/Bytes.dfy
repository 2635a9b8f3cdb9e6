/** Bytes, byte strings and the few sequence facts that every component uses. */
module Bytes {

  type Byte = x: int | 0 <= x < 256
  type Data = seq<Byte>

  const U32_SIZE: int := 0x1_0000_0000
  const U64_SIZE: int := 0x1_0000_0000_0000_0000

  type U32 = x: int | 0 <= x < U32_SIZE
  type U64 = x: int | 0 <= x < U64_SIZE

  datatype Option<+T> = None | Some(value: T)

  datatype Result<+T, +E> = Ok(value: T) | Err(error: E)

  const U64_MAX: int := U64_SIZE - 1

  function SaturatingAdd(x: nat, y: nat): nat { if x + y > U64_MAX then U64_MAX else x + y }

  /** The time since an instant, zero if the clock shows an earlier one. */
  function Elapsed(since: nat, now: nat): nat { if now >= since then now - since else 0 }

  lemma Assoc<T>(a: seq<T>, b: seq<T>, c: seq<T>)
    ensures a + b + c == a + (b + c)
  {
  }

  /** All parts joined in order. */
  function Concat<T>(parts: seq<seq<T>>): seq<T> {
    if parts == [] then [] else Concat(parts[..|parts| - 1]) + parts[|parts| - 1]
  }

  lemma {:induction false} ConcatSplit<T>(a: seq<seq<T>>, b: seq<seq<T>>)
    ensures Concat(a + b) == Concat(a) + Concat(b)
  {
    if b == [] {
      assert a + b == a;
    } else {
      ConcatSplit(a, b[..|b| - 1]);
      assert (a + b)[..|a + b| - 1] == a + b[..|b| - 1];
    }
  }

  lemma ConcatOne<T>(a: seq<seq<T>>, x: seq<T>)
    ensures Concat(a + [x]) == Concat(a) + x
  {
    assert (a + [x])[..|a|] == a;
  }

  /** The sum of a map's values. */
  ghost function Total<K>(m: map<K, nat>): nat {
    if m == map[] then 0
    else
      var k :| k in m;
      m[k] + Total(m - {k})
  }

  lemma {:induction false} TotalSplit<K>(m: map<K, nat>, k: K)
    requires k in m
    ensures Total(m) == m[k] + Total(m - {k})
    decreases |m|
  {
    var j :| j in m && Total(m) == m[j] + Total(m - {j});
    if j == k {
    } else {
      TotalSplit(m - {j}, k);
      TotalSplit(m - {k}, j);
      assert m - {j} - {k} == m - {k} - {j};
    }
  }

  /** Setting one value changes the sum by the difference. */
  lemma TotalUpdate<K>(m: map<K, nat>, k: K, v: nat)
    ensures Total(m[k := v]) == Total(m) - (if k in m then m[k] else 0) + v
  {
    TotalSplit(m[k := v], k);
    assert m[k := v] - {k} == m - {k};
    if k in m {
      TotalSplit(m, k);
    } else {
      assert m - {k} == m;
    }
  }

  function UpTo(n: nat): (r: set<nat>)
    ensures forall c: nat :: c in r <==> c < n
    ensures |r| == n
  {
    if n == 0 then {} else UpTo(n - 1) + {n - 1}
  }

  ghost predicate InjectiveBelow(f: nat -> nat, n: nat) {
    forall i: nat, j: nat :: i < j < n ==> f(i) != f(j)
  }

  ghost function Image(f: nat -> nat, n: nat): set<nat> {
    if n == 0 then {} else Image(f, n - 1) + {f(n - 1)}
  }

  lemma {:induction false} InImage(f: nat -> nat, n: nat, y: nat) returns (i: nat)
    requires y in Image(f, n)
    ensures i < n && f(i) == y
  {
    if y == f(n - 1) {
      i := n - 1;
    } else {
      i := InImage(f, n - 1, y);
    }
  }

  lemma {:induction false} ImageSize(f: nat -> nat, n: nat)
    requires InjectiveBelow(f, n)
    ensures |Image(f, n)| == n
  {
    if n == 0 {
    } else {
      ImageSize(f, n - 1);
      if f(n - 1) in Image(f, n - 1) {
        var i := InImage(f, n - 1, f(n - 1));
        assert false;
      }
    }
  }

  /** An injection of the numbers below n into those below m needs n <= m. */
  lemma Pigeonhole(f: nat -> nat, n: nat, m: nat)
    requires InjectiveBelow(f, n) && forall i: nat :: i < n ==> f(i) < m
    ensures n <= m
  {
    ImageSize(f, n);
    forall y | y in Image(f, n) ensures y in UpTo(m) {
      var i := InImage(f, n, y);
    }
    assert UpTo(m) == Image(f, n) + (UpTo(m) - Image(f, n));
  }

  function Pow2(n: nat): (r: nat)
    ensures r > 0
  {
    if n == 0 then 1 else 2 * Pow2(n - 1)
  }

  lemma {:induction false} Pow2Add(m: nat, n: nat)
    ensures Pow2(m + n) == Pow2(m) * Pow2(n)
  {
    if m == 0 {
    } else {
      Pow2Add(m - 1, n);
      assert Pow2(m) * Pow2(n) == 2 * (Pow2(m - 1) * Pow2(n));
    }
  }

  lemma Pow2Of64()
    ensures Pow2(32) == U32_SIZE && Pow2(64) == U64_SIZE
  {
    assert Pow2(8) == 256;
    Pow2Add(8, 8);
    Pow2Add(16, 16);
    Pow2Add(32, 32);
  }

  // ---- Division ----

  lemma DivideTwice(x: nat, a: nat, b: nat)
    requires a > 0 && b > 0
    ensures a * b > 0 && x / (a * b) == x / a / b
  {
    var q, r := x / a, x % a;
    var p, s := q / b, q % b;
    assert x == a * (b * p + s) + r;
    Regroup(a, b, p, s);
    Remainder(a, b, s, r);
    Quotient(x, a * b, p, a * s + r);
  }

  lemma Regroup(a: nat, b: nat, p: nat, s: nat)
    ensures a * (b * p + s) == (a * b) * p + a * s
  {
  }

  lemma Remainder(a: nat, b: nat, s: nat, r: nat)
    requires s < b && r < a
    ensures 0 <= a * s + r < a * b
  {
    var t := b - s - 1;
    assert a * b == a * s + a + a * t;
  }

  lemma Quotient(x: nat, d: nat, q: int, r: int)
    requires d > 0 && x == d * q + r && 0 <= r < d
    ensures x / d == q
  {
    var e := q - x / d;
    assert d * e == d * q - d * (x / d);
    MultipleIsLarge(d, e);
  }

  lemma MultipleIsLarge(d: nat, e: int)
    ensures e >= 1 ==> d * e >= d
    ensures e <= -1 ==> d * e <= 0 - d
  {
    assert d * e == d + d * (e - 1) == d * (e + 1) - d;
  }
}

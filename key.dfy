/** key.go: the key selectors that decide which replica of an operator receives a value. */
module KeySelectors {
  import opened Values
  import opened Arithmetic

  /** The fixed selector sends every value to key 0. */
  function FixedGetKey(v: Value): (r: Key)
    ensures r == 0
  {
    0
  }

  /** FnKeySelector is the selecting function itself. */
  function FnGetKey(f: Value -> Key, v: Value): (r: Key)
    ensures r == f(v)
  {
    f(v)
  }

  /** The counter after one round-robin call: incremented, and reset to 0 when it reaches n. */
  function NextCounter(n: int, i: int): int {
    if i + 1 == n then 0 else i + 1
  }

  /** The counter after c calls from a fresh selector. */
  function CounterAfter(n: int, c: nat): (r: int)
    ensures r >= 0
  {
    if c == 0 then 0 else NextCounter(n, CounterAfter(n, c - 1))
  }

  /** One more call on a counter that is reduced modulo n. */
  lemma ModStep(n: int, c: nat)
    requires n > 0
    ensures NextCounter(n, c % n) == (c + 1) % n
  {
    var q, r := c / n, c % n;
    if r == n - 1 {
      assert (q + 1) * n == q * n + n;
      ModUnique(n, c + 1, q + 1, 0);
    } else {
      ModUnique(n, c + 1, q, r + 1);
    }
  }

  /** With n > 0 the counter after c calls is c mod n, so it stays in [0, n). */
  lemma {:induction false} CounterIsMod(n: int, c: nat)
    requires n > 0
    ensures CounterAfter(n, c) == c % n
    ensures 0 <= CounterAfter(n, c) < n
  {
    if c > 0 {
      CounterIsMod(n, c - 1);
      ModStep(n, c - 1);
    }
  }

  /** With n <= 0 the counter never wraps: the c-th call returns c. */
  lemma {:induction false} CounterNoWrap(n: int, c: nat)
    requires n <= 0
    ensures CounterAfter(n, c) == c
  {
    if c > 0 {
      CounterNoWrap(n, c - 1);
    }
  }

  /** The selector's state: the bound n and the counter i. */
  class RoundRobinKeySelector {
    const n: int
    var i: int
    ghost var calls: nat

    ghost predicate Valid()
      reads this
    {
      i == CounterAfter(n, calls)
    }

    /** NewRoundRobinKeySelector(n): the counter starts at 0. */
    constructor (n: int)
      ensures this.n == n && i == 0 && calls == 0 && Valid()
    {
      this.n := n;
      i := 0;
      calls := 0;
    }

    /**
     * GetKey: returns the counter as a key and advances it, wrapping to 0 at n.  The
     * key of the c-th call is CounterAfter(n, c), converted to uint64.
     */
    method GetKey(v: Value) returns (k: Key)
      requires Valid()
      modifies this
      ensures Valid() && calls == old(calls) + 1
      ensures k == CounterAfter(n, old(calls)) % KEY_BOUND
      ensures i == NextCounter(n, old(i))
    {
      k := i % KEY_BOUND;
      i := i + 1;
      if i == n {
        i := 0;
      }
      calls := calls + 1;
    }
  }

  /** The keys of m consecutive calls on a selector that has already served c calls. */
  function RoundRobinKeys(n: int, c: nat, m: nat): (r: seq<int>)
    ensures |r| == m
    decreases m
  {
    if m == 0 then [] else [CounterAfter(n, c)] + RoundRobinKeys(n, c + 1, m - 1)
  }

  /** The keys of consecutive calls, read one by one: the j-th is (c + j) mod n. */
  lemma {:induction false} RoundRobinKeysAt(n: int, c: nat, m: nat, j: nat)
    requires n > 0 && j < m
    ensures RoundRobinKeys(n, c, m)[j] == (c + j) % n
    decreases m
  {
    if j == 0 {
      CounterIsMod(n, c);
    } else {
      RoundRobinKeysAt(n, c + 1, m - 1, j - 1);
    }
  }

  /** Any n consecutive round-robin calls return each key in 0..n-1 exactly once. */
  lemma RoundRobinFair(n: int, c: nat)
    requires n > 0
    ensures forall j :: 0 <= j < n ==> 0 <= RoundRobinKeys(n, c, n)[j] < n
    ensures forall j1, j2 :: 0 <= j1 < j2 < n ==> RoundRobinKeys(n, c, n)[j1] != RoundRobinKeys(n, c, n)[j2]
    ensures forall k :: 0 <= k < n ==> k in RoundRobinKeys(n, c, n)
  {
    var ks := RoundRobinKeys(n, c, n);
    forall j | 0 <= j < n ensures ks[j] == (c + j) % n {
      RoundRobinKeysAt(n, c, n, j);
    }
    forall j1, j2 | 0 <= j1 < j2 < n ensures ks[j1] != ks[j2] {
      ModDistinct(n, c + j1, c + j2);
    }
    forall k | 0 <= k < n ensures k in ks {
      var j := (k - c) % n;
      ModHit(n, c, k);
      assert ks[j] == k;
    }
  }

  lemma ModDistinct(n: int, a: int, b: int)
    requires n > 0 && a < b < a + n
    ensures a % n != b % n
  {
    var q, r := a / n, a % n;
    if r + (b - a) < n {
      ModUnique(n, b, q, r + (b - a));
    } else {
      assert (q + 1) * n == q * n + n;
      ModUnique(n, b, q + 1, r + (b - a) - n);
    }
  }

  lemma ModHit(n: int, c: int, k: int)
    requires n > 0 && 0 <= k < n
    ensures 0 <= (k - c) % n < n
    ensures (c + (k - c) % n) % n == k
  {
    var j, q := (k - c) % n, (k - c) / n;
    assert (-q) * n == -(q * n);
    ModUnique(n, c + j, -q, k);
  }

  /** FNV-1a 64 (draft-eastlake-fnv, section 2): the 64-bit offset basis (section 2.2). */
  const FNV64_OFFSET: bv64 := 0xcbf29ce484222325

  /** The 64-bit FNV prime (section 2.1). */
  const FNV64_PRIME: bv64 := 0x100000001b3

  /** One FNV-1a step: exclusive-or the octet into the hash, then multiply modulo 2^64. */
  function FnvStep(h: bv64, b: bv8): bv64 {
    (h ^ (b as bv64)) * FNV64_PRIME
  }

  /** The running hash after writing the bytes in order, starting from h. */
  function FnvFold(h: bv64, bytes: seq<bv8>): bv64
    decreases |bytes|
  {
    if bytes == [] then h else FnvFold(FnvStep(h, bytes[0]), bytes[1..])
  }

  /** fnv.New64a followed by Write and Sum64. */
  function Fnv1a64(bytes: seq<bv8>): (h: bv64)
    ensures bytes == [] ==> h == FNV64_OFFSET
    ensures bytes != [] ==> h == FnvFold(FnvStep(FNV64_OFFSET, bytes[0]), bytes[1..])
  {
    FnvFold(FNV64_OFFSET, bytes)
  }

  /** Writing a then b to a hash gives the hash of a + b: Write may be split anywhere. */
  lemma {:induction false} FnvFoldAppend(h: bv64, a: seq<bv8>, b: seq<bv8>)
    ensures FnvFold(h, a + b) == FnvFold(FnvFold(h, a), b)
    decreases |a|
  {
    if a != [] {
      assert (a + b)[0] == a[0] && (a + b)[1..] == a[1..] + b;
      FnvFoldAppend(FnvStep(h, a[0]), a[1..], b);
    } else {
      assert a + b == b;
    }
  }

  /** Hashing one more byte is one more step on the running hash. */
  lemma FnvSnoc(bytes: seq<bv8>, b: bv8)
    ensures Fnv1a64(bytes + [b]) == FnvStep(Fnv1a64(bytes), b)
  {
    FnvFoldAppend(FNV64_OFFSET, bytes, [b]);
  }

  /**
   * stringValueKeySelector.GetKey: the key is the FNV-1a 64 hash of the bytes of the
   * projected string (a Go string is a byte sequence).
   */
  function StringGetKey(f: Value -> seq<bv8>, v: Value): (r: Key)
    ensures r == Fnv1a64(f(v)) as int
  {
    Fnv1a64(f(v)) as int
  }

  /** Equal projections always give equal keys. */
  lemma StringKeyDeterministic(f: Value -> seq<bv8>, v: Value, w: Value)
    requires f(v) == f(w)
    ensures StringGetKey(f, v) == StringGetKey(f, w)
  {
  }

  /** The test vectors of the draft for "" and "a". */
  lemma FnvVectors()
    ensures Fnv1a64([]) == 0xcbf29ce484222325
    ensures Fnv1a64([0x61]) == 0xaf63dc4c8601ec8c
  {
  }

  /** "foo" and "bar" hash to different keys, so the string selector separates them. */
  lemma FooBarDiffer(f: Value -> seq<bv8>, foo: Value, bar: Value)
    requires f(foo) == [0x66, 0x6f, 0x6f] && f(bar) == [0x62, 0x61, 0x72]
    ensures StringGetKey(f, foo) == 0xdcb27518fed9d577
    ensures StringGetKey(f, bar) == 0x3934191339461a
    ensures StringGetKey(f, foo) != StringGetKey(f, bar)
  {
    assert Fnv1a64([0x66, 0x6f, 0x6f]) == 0xdcb27518fed9d577;
    assert Fnv1a64([0x62, 0x61, 0x72]) == 0x3934191339461a;
  }
}

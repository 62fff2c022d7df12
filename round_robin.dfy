/** The selection rule of the load balancer: a `uint64` counter that
    `atomic.AddUint64` advances by one, wrapping at 2^64, and the backend index
    `(next - 1) % n` read from it. The concurrency of the atomic add is not
    modelled; each selection is one sequential step. */
module RoundRobin {

  /** Number of values of Go's `uint64`. */
  const U64_MODULUS: int := 0x1_0000_0000_0000_0000

  type uint64 = x: int | 0 <= x < U64_MODULUS

  /** `c + 1` in `uint64` arithmetic. */
  function Increment(c: uint64): uint64
  {
    (c + 1) % U64_MODULUS
  }

  /** `c - 1` in `uint64` arithmetic (Dafny's `%` never yields a negative value,
      so `0 - 1` becomes 2^64 - 1 as in Go). */
  function Decrement(c: uint64): uint64
  {
    (c - 1) % U64_MODULUS
  }

  /** Subtracting one undoes adding one, also across the wrap: the index that
      getNextServer reads is the counter value before the call. */
  lemma DecrementUndoesIncrement(c: uint64)
    ensures Decrement(Increment(c)) == c
  {
    if c == U64_MODULUS - 1 {
      assert Increment(c) == 0;
    } else {
      assert Increment(c) == c + 1;
    }
  }

  /** Adding one to a counter that has already taken `x` steps from zero
      gives the counter after `x + 1` steps. */
  lemma IncrementAfterSteps(x: nat)
    ensures Increment(x % U64_MODULUS) == (x + 1) % U64_MODULUS
  {
    NextResidue(x, U64_MODULUS);
  }

  /** Backend indices picked by `k` consecutive selections over `n` backends,
      starting with the counter at `c`: each call reads slot `c % n` and leaves
      the counter at `Increment(c)`. */
  function Selections(c: uint64, n: nat, k: nat): (s: seq<nat>)
    requires n >= 1
    ensures |s| == k
    ensures forall j :: 0 <= j < k ==> s[j] < n
    decreases k
  {
    if k == 0 then [] else [c % n] + Selections(Increment(c), n, k - 1)
  }

  /** Before the counter reaches 2^64 - 1, the selections after the first one
      start from the next counter value. */
  lemma SelectionsStep(c: uint64, n: nat, k: nat)
    requires n >= 1 && k >= 1 && c + 1 < U64_MODULUS
    ensures Selections(c, n, k) == [c % n] + Selections(c + 1, n, k - 1)
  {
    assert Increment(c) == c + 1;
  }

  /** The indices `lo, lo + 1, ..., hi - 1`. */
  function Span(lo: nat, hi: nat): (s: seq<nat>)
    decreases hi - lo
  {
    if lo >= hi then [] else [lo] + Span(lo + 1, hi)
  }

  lemma {:induction false} SpanCount(lo: nat, hi: nat, i: nat)
    ensures multiset(Span(lo, hi))[i] == if lo <= i < hi then 1 else 0
    decreases hi - lo
  {
    if lo < hi {
      assert multiset(Span(lo, hi)) == multiset{lo} + multiset(Span(lo + 1, hi));
      SpanCount(lo + 1, hi, i);
    }
  }

  /** Consecutive selections visit the backends in registration order: the
      selection after slot `i` is slot `i + 1`, or slot 0 after the last one. */
  lemma {:induction false} CyclicOrder(c: uint64, n: nat, k: nat, j: nat)
    requires n >= 1 && j + 1 < k && c + k <= U64_MODULUS
    ensures var s := Selections(c, n, k); s[j + 1] == if s[j] == n - 1 then 0 else s[j] + 1
    decreases j
  {
    SelectionsStep(c, n, k);
    if j == 0 {
      NextResidue(c, n);
    } else {
      CyclicOrder(c + 1, n, k - 1, j - 1);
    }
  }

  /** A product of two non-negative integers is non-negative. */
  lemma MulNonNegative(a: int, b: int)
    requires a >= 0 && b >= 0
    ensures a * b >= 0
  {
  }

  /** A multiple of `n` strictly between `-n` and `n` is zero. */
  lemma SmallMultiple(d: int, n: int)
    requires n >= 1 && -n < d * n < n
    ensures d == 0
  {
    if d >= 1 {
      assert d * n == (d - 1) * n + n;
      MulNonNegative(d - 1, n);
    } else if d <= -1 {
      assert d * n == -((-d - 1) * n) - n;
      MulNonNegative(-d - 1, n);
    }
  }

  /** The remainder of `x` by `n` is the only `r` in `[0, n)` with `x == q * n + r`. */
  lemma ModUnique(x: int, n: int, q: int, r: int)
    requires n >= 1 && 0 <= r < n && x == q * n + r
    ensures x % n == r
  {
    var q', r' := x / n, x % n;
    assert x == q' * n + r';
    assert (q - q') * n == r' - r;
    SmallMultiple(q - q', n);
  }

  /** Stepping the counter by one steps its slot by one, wrapping to 0 after the
      last backend. */
  lemma NextResidue(x: nat, n: nat)
    requires n >= 1
    ensures (x + 1) % n == if x % n == n - 1 then 0 else x % n + 1
  {
    var q, r := x / n, x % n;
    assert x == q * n + r;
    if r == n - 1 {
      assert x + 1 == (q + 1) * n + 0;
      ModUnique(x + 1, n, q + 1, 0);
    } else {
      ModUnique(x + 1, n, q, r + 1);
    }
  }

  /** Advancing the counter by `k <= n` advances its slot by `k`, modulo `n`. */
  lemma {:induction false} ResidueAdvance(x: nat, n: nat, k: nat)
    requires n >= 1 && k <= n
    ensures (x + k) % n == if x % n + k < n then x % n + k else x % n + k - n
    decreases k
  {
    if k > 0 {
      ResidueAdvance(x, n, k - 1);
      NextResidue(x + k - 1, n);
    }
  }

  /** Selections over `a + b` calls are the first `a` followed by the next `b`,
      which start from the counter the first `a` left behind. */
  lemma {:induction false} SelectionsSplit(c: uint64, n: nat, a: nat, b: nat)
    requires n >= 1 && c + a < U64_MODULUS && c + a + b <= U64_MODULUS
    ensures Selections(c, n, a + b) == Selections(c, n, a) + Selections(c + a, n, b)
    decreases a
  {
    if a > 0 {
      SelectionsStep(c, n, a + b);
      SelectionsStep(c, n, a);
      SelectionsSplit(c + 1, n, a - 1, b);
    }
  }

  /** While the slot does not pass the last backend, selections read consecutive
      slots. */
  lemma {:induction false} SelectionsRun(c: uint64, n: nat, k: nat)
    requires n >= 1 && c % n + k <= n && c + k <= U64_MODULUS
    ensures Selections(c, n, k) == Span(c % n, c % n + k)
    decreases k
  {
    if k > 0 {
      if k > 1 {
        SelectionsStep(c, n, k);
        NextResidue(c, n);
        SelectionsRun(c + 1, n, k - 1);
      }
    }
  }

  /** One full cycle is the list of backends rotated to start at the counter's
      slot. */
  lemma CycleIsRotation(c: uint64, n: nat)
    requires n >= 1 && c + n <= U64_MODULUS
    ensures Selections(c, n, n) == Span(c % n, n) + Span(0, c % n)
  {
    var r := c % n;
    if r == 0 {
      SelectionsRun(c, n, n);
      return;
    }
    SelectionsSplit(c, n, n - r, r);
    SelectionsRun(c, n, n - r);
    ResidueAdvance(c, n, n - r);
    assert (c + (n - r)) % n == 0;
    SelectionsRun(c + (n - r), n, r);
  }

  /** Fairness of one cycle: `n` consecutive selections without a counter wrap
      pick every one of the `n` backends exactly once. */
  lemma FullCycle(c: uint64, n: nat)
    requires n >= 1 && c + n <= U64_MODULUS
    ensures forall i :: 0 <= i < n ==> multiset(Selections(c, n, n))[i] == 1
  {
    var r := c % n;
    CycleIsRotation(c, n);
    assert multiset(Selections(c, n, n)) == multiset(Span(r, n)) + multiset(Span(0, r));
    forall i | 0 <= i < n
      ensures multiset(Selections(c, n, n))[i] == 1
    {
      SpanCount(r, n, i);
      SpanCount(0, r, i);
    }
  }

  /** The call after a full cycle picks the same backend as its first call. */
  lemma CycleRepeats(c: uint64, n: nat)
    requires n >= 1 && c + n < U64_MODULUS
    ensures Selections(c, n, n + 1)[n] == Selections(c, n, n + 1)[0]
  {
    SelectionsSplit(c, n, n, 1);
    ResidueAdvance(c, n, n);
  }

  /** Appending one more full cycle adds one to every backend's count. */
  lemma CountsAdd(first: seq<nat>, cycle: seq<nat>, n: nat, m: nat)
    requires forall i :: 0 <= i < n ==> multiset(first)[i] == m
    requires forall i :: 0 <= i < n ==> multiset(cycle)[i] == 1
    ensures forall i :: 0 <= i < n ==> multiset(first + cycle)[i] == m + 1
  {
    assert multiset(first + cycle) == multiset(first) + multiset(cycle);
  }

  lemma OneCycleLess(m: nat, n: nat, k: nat)
    requires m >= 1 && k == m * n
    ensures k - n == (m - 1) * n && k >= n
  {
  }

  /** Balance: when the number `k` of selections is a multiple `m * n` of the
      number of backends and the counter does not wrap, each backend is picked
      exactly `m` times. */
  lemma {:induction false} Balanced(c: uint64, n: nat, m: nat, k: nat)
    requires n >= 1 && k == m * n && c + k <= U64_MODULUS
    ensures forall i :: 0 <= i < n ==> multiset(Selections(c, n, k))[i] == m
    decreases m
  {
    if m == 0 {
      assert k == 0;
    } else {
      var a := k - n;
      OneCycleLess(m, n, k);
      assert c + a + n <= U64_MODULUS;
      Balanced(c, n, m - 1, a);
      SelectionsSplit(c, n, a, n);
      FullCycle(c + a, n);
      CountsAdd(Selections(c, n, a), Selections(c + a, n, n), n, m - 1);
    }
  }

  /** Across the 2^64 wrap the rotation breaks when `n` does not divide 2^64:
      with three backends, the call that takes the counter from 2^64 - 1 to 0 and
      the call after it both pick backend 0. */
  lemma WrapRepeatsSlot()
    ensures Selections(U64_MODULUS - 1, 3, 2) == [0, 0]
  {
    assert Increment(U64_MODULUS - 1) == 0;
    assert (U64_MODULUS - 1) % 3 == 0;
  }
}

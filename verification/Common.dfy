/** Shared datatypes and small facts about division and sums. */
module Common {
  datatype Option<+T> = None | Some(value: T)

  function Max(a: nat, b: nat): (m: nat)
    ensures m >= a && m >= b && m in {a, b}
  {
    if a >= b then a else b
  }

  function Min(a: nat, b: nat): (m: nat)
    ensures m <= a && m <= b && m in {a, b}
  {
    if a <= b then a else b
  }

  lemma Decompose(a: nat, n: nat)
    requires 0 < n
    ensures a == (a / n) * n + a % n
  {
  }

  /** Quotient and remainder are determined by a decomposition. */
  lemma DivModUnique(a: nat, q: nat, r: nat, n: nat)
    requires 0 < n && r < n && a == q * n + r
    ensures a / n == q && a % n == r
  {
    var q', r' := a / n, a % n;
    assert a == q' * n + r';
    if q' < q {
      assert (q - q') * n == r' - r;
      MulAtLeast(q - q', n);
      assert false;
    }
    if q < q' {
      assert (q' - q) * n == r - r';
      MulAtLeast(q' - q, n);
      assert false;
    }
  }

  lemma MulAtLeast(k: nat, n: nat)
    requires k >= 1
    ensures k * n >= n
  {
    assert k * n == (k - 1) * n + n;
    assert (k - 1) * n >= 0;
  }

  /** Adding a multiple of the modulus does not change the remainder. */
  lemma ModAddMultiple(q: nat, x: nat, m: nat)
    requires 0 < m
    ensures (q * m + x) % m == x % m
  {
    assert q * m + x == (q + x / m) * m + x % m;
    DivModUnique(q * m + x, q + x / m, x % m, m);
  }

  /** How quotient and remainder move when the dividend grows by one. */
  lemma DivModStep(a: nat, n: nat)
    requires 0 < n
    ensures a % n == n - 1 ==> (a + 1) / n == a / n + 1 && (a + 1) % n == 0
    ensures a % n < n - 1 ==> (a + 1) / n == a / n && (a + 1) % n == a % n + 1
  {
    if a % n == n - 1 {
      assert a + 1 == (a / n + 1) * n;
      DivModUnique(a + 1, a / n + 1, 0, n);
    } else {
      DivModUnique(a + 1, a / n, a % n + 1, n);
    }
  }

  // ---- Loops over a set ----

  /** The items still to visit and those visited. */
  ghost predicate Splits<T>(all: set<T>, todo: set<T>, done: set<T>) {
    todo + done == all && todo !! done
  }

  lemma SplitsStep<T>(all: set<T>, todo: set<T>, done: set<T>, x: T)
    requires Splits(all, todo, done) && x in todo
    ensures Splits(all, todo - {x}, done + {x}) && x in all && x !in done && done + {x} <= all
  {
  }

  lemma SplitsEnd<T>(all: set<T>, done: set<T>)
    requires Splits(all, {}, done)
    ensures done == all
  {
  }
}

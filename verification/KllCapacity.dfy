/** Level capacities of the KLL compactor stack.

    Distance `j` from the top of the stack has capacity ceil(k * (2/3)^j), and a
    capacity of two or less is replaced by zero: that level belongs to the sampler. */
module KllCapacity {
  import opened Options
  import opened Arith

  function Pow(b: nat, e: nat): (r: nat)
    requires b > 0
    ensures r > 0
  {
    if e == 0 then 1 else b * Pow(b, e - 1)
  }

  function CeilDiv(a: nat, b: nat): nat
    requires b > 0
  {
    (a + b - 1) / b
  }

  /** The ceiling is the least integer whose multiple of `b` covers `a`. */
  lemma {:induction false} CeilDivBounds(a: nat, b: nat)
    requires b > 0
    ensures CeilDiv(a, b) * b >= a
    ensures (CeilDiv(a, b) - 1) * b < a
  {
    var q, r := (a + b - 1) / b, (a + b - 1) % b;
    assert a + b - 1 == q * b + r;
    assert (q - 1) * b == q * b - b;
  }

  function RawCapacity(k: nat, j: nat): nat {
    CeilDiv(k * Pow(2, j), Pow(3, j))
  }

  function TargetCapacity(k: nat, j: nat): nat {
    if RawCapacity(k, j) > 2 then RawCapacity(k, j) else 0
  }

  /** The capacity at distance j from the top is the least integer that is not below k (2/3)^j, and
      none if that is 2 or less. */
  lemma {:induction false} CapacityIs(k: nat, j: nat, c: nat)
    ensures c == RawCapacity(k, j) <==> (c - 1) * Pow(3, j) < k * Pow(2, j) <= c * Pow(3, j)
    ensures TargetCapacity(k, j) == if RawCapacity(k, j) <= 2 then 0 else RawCapacity(k, j)
  {
    hide Pow;
    var a, b, d := k * Pow(2, j), Pow(3, j), RawCapacity(k, j);
    CeilDivBounds(a, b);
    if (c - 1) * b < a <= c * b {
      if c < d { MulMonotone(c, d - 1, b); }
      if d < c { MulMonotone(d, c - 1, b); }
    }
  }

  lemma {:induction false} TopCapacity(k: nat)
    ensures RawCapacity(k, 0) == k
  {
    CeilDivBounds(k, 1);
  }

  lemma {:induction false} ShrinkStep(a: nat, b: nat, c: nat, d: int)
    requires (d - 1) * (3 * b) < 2 * a && a <= c * b
    ensures d <= c
  {
    var t := (d - 1) * b;
    assert (d - 1) * (3 * b) == 3 * t;
    if d > c { MulMonotone(c, d - 1, b); }
  }

  /** Capacities never grow with distance from the top. */
  lemma {:induction false} RawCapacityShrinks(k: nat, j: nat)
    ensures RawCapacity(k, j + 1) <= RawCapacity(k, j)
  {
    var a, b := k * Pow(2, j), Pow(3, j);
    CeilDivBounds(a, b);
    assert k * Pow(2, j + 1) == 2 * a;
    CeilDivBounds(2 * a, 3 * b);
    ShrinkStep(a, b, RawCapacity(k, j), CeilDiv(2 * a, 3 * b));
  }

  lemma {:induction false} TargetShrinks(k: nat, j: nat)
    ensures TargetCapacity(k, j + 1) <= TargetCapacity(k, j)
  {
    RawCapacityShrinks(k, j);
  }

  lemma {:induction false} ActivePrefix(k: nat, i: nat, j: nat)
    requires i <= j && TargetCapacity(k, j) > 0
    ensures TargetCapacity(k, i) >= 3
    decreases j - i
  {
    if i < j {
      RawCapacityShrinks(k, j - 1);
      ActivePrefix(k, i, j - 1);
    }
  }

  /** Capacity of the `m` topmost levels together. */
  function CapacitySum(k: nat, m: nat): nat {
    if m == 0 then 0 else CapacitySum(k, m - 1) + TargetCapacity(k, m - 1)
  }

  /** One more term of the geometric series, over plain integers. */
  lemma {:induction false} GeometricStep(k: nat, s: int, c: int, p3: nat, p2: nat)
    requires s * p3 <= 3 * k * (p3 - p2)
    requires c * p3 <= k * p2
    ensures (s + c) * (3 * p3) <= 3 * k * (3 * p3 - 2 * p2)
  {
    var u, v := k * p3, k * p2;
    assert 3 * k * (p3 - p2) == 3 * u - 3 * v;
    assert (s + c) * (3 * p3) == 3 * (s * p3) + 3 * (c * p3);
    assert 3 * k * (3 * p3 - 2 * p2) == 9 * u - 6 * v;
  }

  lemma {:induction false} GeometricBound(k: nat, m: nat)
    ensures (CapacitySum(k, m) - m) * Pow(3, m) <= 3 * k * (Pow(3, m) - Pow(2, m))
  {
    if m > 0 {
      var p3, p2 := Pow(3, m - 1), Pow(2, m - 1);
      var s, c := CapacitySum(k, m - 1) - (m - 1), TargetCapacity(k, m - 1) - 1;
      GeometricBound(k, m - 1);
      CeilDivBounds(k * p2, p3);
      MulMonotone(c, RawCapacity(k, m - 1) - 1, p3);
      GeometricStep(k, s, c, p3, p2);
    }
  }

  /** The space bound: `m` levels together hold fewer than 3k + m items. */
  lemma {:induction false} CapacityBound(k: nat, m: nat)
    requires k > 0
    ensures CapacitySum(k, m) < 3 * k + m
  {
    GeometricBound(k, m);
    var s, p := CapacitySum(k, m) - m, Pow(3, m);
    assert 3 * k * (p - Pow(2, m)) == 3 * k * p - 3 * k * Pow(2, m);
    assert 3 * k * Pow(2, m) > 0;
    if s >= 3 * k {
      MulMonotone(3 * k, s, p);
      assert false;
    }
  }

  /** A level is active for some height if and only if k >= 3, and then the topmost is. */
  lemma {:induction false} SmallKHasNoActiveLevel(k: nat)
    ensures k >= 3 <==> TargetCapacity(k, 0) >= 3
    ensures k >= 3 <==> exists j :: TargetCapacity(k, j) > 0
  {
    TopCapacity(k);
    if k < 3 {
      forall j: nat ensures TargetCapacity(k, j) == 0 {
        if TargetCapacity(k, j) > 0 { ActivePrefix(k, 0, j); }
      }
    }
  }

  // ---------- why k is at least 3 ----------

  /** AddLevel entered with so many levels, so many of them replaced by the sampler. */
  datatype Call = Call(levels: nat, replaced: nat)

  /** The call of AddLevel that this one makes before it returns, if any: a new lowest active
      level without a capacity is replaced and compacted, and compacting the topmost level
      adds a level. */
  function NestedCall(k: nat, c: Call): Option<Call>
    requires c.replaced <= c.levels
  {
    if TargetCapacity(k, c.levels - c.replaced) != 0 then None
    else if c.replaced == c.levels then Some(Call(c.levels + 1, c.replaced + 1))
    else None
  }

  /** The n-th nested call on an empty stack. */
  function CallAt(k: nat, n: nat): (r: Option<Call>)
    ensures r.Some? ==> r.value.replaced <= r.value.levels
  {
    if n == 0 then Some(Call(0, 0))
    else
      var c := CallAt(k, n - 1);
      if c.Some? then NestedCall(k, c.value) else None
  }

  /** With k >= 3 no call nests; with k <= 2 another one follows after every number of them. */
  lemma {:induction false} RecursionEndsIff(k: nat)
    ensures k >= 3 ==> forall c: Call :: c.replaced <= c.levels ==> NestedCall(k, c) == None
    ensures k < 3 ==> forall n :: CallAt(k, n) == Some(Call(n, n))
  {
    TopCapacity(k);
    if k < 3 {
      forall n ensures CallAt(k, n) == Some(Call(n, n)) { NestsAt(k, n); }
    }
  }

  lemma {:induction false} NestsAt(k: nat, n: nat)
    requires k < 3
    ensures CallAt(k, n) == Some(Call(n, n))
  {
    TopCapacity(k);
    if n > 0 { NestsAt(k, n - 1); }
  }
}

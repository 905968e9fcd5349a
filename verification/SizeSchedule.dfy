/** The sizes at which a property is tested, one after each success. */
module SizeSchedule {
  import opened Bits
  import opened Configuration

  function SizeFor(params: TestParams, i: int): int
    requires 0 <= params.maxSize && 0 <= i < params.maxSuccess
  {
    var numSizes := params.maxSize + 1;
    var numRegular := (params.maxSuccess / numSizes) * numSizes;
    if i < numRegular then i % numSizes
    else
      var numRest := params.maxSuccess - numRegular;
      DivMod(params.maxSuccess, numSizes);
      if numRest == 1 then 0 else ((i % numSizes) * params.maxSize) / (numRest - 1)
  }

  function Rounds(params: TestParams): nat
    requires 0 <= params.maxSize && 0 <= params.maxSuccess
  {
    DivMod(params.maxSuccess, params.maxSize + 1);
    params.maxSuccess / (params.maxSize + 1)
  }

  /** The cases left after the last complete round through all sizes. */
  function Rest(params: TestParams): (r: nat)
    requires 0 <= params.maxSize && 0 <= params.maxSuccess
    ensures r <= params.maxSize
  {
    params.maxSuccess % (params.maxSize + 1)
  }

  /** The size of the j-th case left: spread over the whole range. */
  function RestSize(params: TestParams, j: nat): nat
    requires 0 <= params.maxSize && 0 <= params.maxSuccess && j < Rest(params)
  {
    if Rest(params) == 1 then 0
    else
      DivMod(j * params.maxSize, Rest(params) - 1);
      (j * params.maxSize) / (Rest(params) - 1)
  }

  lemma Regular(params: TestParams, k: nat, j: nat)
    requires 0 <= params.maxSize && 0 <= params.maxSuccess
    requires k < Rounds(params) && j <= params.maxSize
    ensures 0 <= k * (params.maxSize + 1) + j < params.maxSuccess
    ensures SizeFor(params, k * (params.maxSize + 1) + j) == j
  {
    var numSizes := params.maxSize + 1;
    var i := k * numSizes + j;
    DivMod(params.maxSuccess, numSizes);
    MulMonotone(k + 1, Rounds(params), numSizes);
    assert (k + 1) * numSizes == k * numSizes + numSizes;
    MulMonotone(0, k, numSizes);
    DivModUnique(i, k, numSizes, j);
    RegularAt(params, i);
  }

  lemma RegularAt(params: TestParams, i: nat)
    requires 0 <= params.maxSize && i < params.maxSuccess && i < Rounds(params) * (params.maxSize + 1)
    ensures SizeFor(params, i) == i % (params.maxSize + 1)
  {
  }

  lemma RestAt(params: TestParams, j: nat)
    requires 0 <= params.maxSize && 0 <= params.maxSuccess && j < Rest(params)
    ensures 0 <= Rounds(params) * (params.maxSize + 1) + j < params.maxSuccess
    ensures SizeFor(params, Rounds(params) * (params.maxSize + 1) + j) == RestSize(params, j)
  {
    var numSizes := params.maxSize + 1;
    DivMod(params.maxSuccess, numSizes);
    DivModUnique(Rounds(params) * numSizes + j, Rounds(params), numSizes, j);
  }

  /** A larger numerator by at least the divisor gives a larger quotient. */
  lemma QuotientGrows(a: nat, b: nat, d: nat)
    requires 0 < d && a + d <= b
    ensures a / d < b / d
  {
    DivMod(a, d);
    DivMod(b, d);
    if b / d <= a / d {
      MulMonotone(b / d, a / d, d);
    }
  }

  lemma RestSizesGrow(params: TestParams, j: nat, l: nat)
    requires 0 <= params.maxSize && 0 <= params.maxSuccess && j < l < Rest(params)
    ensures RestSize(params, j) < RestSize(params, l)
  {
    var m, d := params.maxSize, Rest(params) - 1;
    MulMonotone(j + 1, l, m);
    assert (j + 1) * m == j * m + m;
    QuotientGrows(j * m, l * m, d);
  }

  /** From 0 up to maxSize they go in steps that differ by one at most. */
  lemma RestSizesEven(params: TestParams, j: nat)
    requires 0 <= params.maxSize && 0 <= params.maxSuccess && j + 1 < Rest(params)
    ensures var step := RestSize(params, j + 1) - RestSize(params, j);
            var q := params.maxSize / (Rest(params) - 1);
            q <= step <= q + 1
    ensures RestSize(params, 0) == 0 && RestSize(params, Rest(params) - 1) == params.maxSize
  {
    var m, d := params.maxSize, Rest(params) - 1;
    RestSizeBound(params, d);
    NoProduct(m, d);
    StepOfQuotient(j * m, m, d);
    assert (j + 1) * m == j * m + m;
  }

  lemma NoProduct(m: nat, d: nat)
    requires 0 < d
    ensures (0 * m) / d == 0
  {
  }

  lemma StepOfQuotient(a: nat, m: nat, d: nat)
    requires 0 < d
    ensures m / d <= (a + m) / d - a / d <= m / d + 1
  {
    DivMod(a, d);
    DivMod(m, d);
    var r := a % d + m % d;
    assert a + m == (a / d + m / d) * d + r;
    if r < d {
      DivModUnique(a + m, a / d + m / d, d, r);
    } else {
      assert a + m == (a / d + m / d + 1) * d + (r - d);
      DivModUnique(a + m, a / d + m / d + 1, d, r - d);
    }
  }

  lemma RestSizeBound(params: TestParams, j: nat)
    requires 0 <= params.maxSize && 0 <= params.maxSuccess && j < Rest(params)
    ensures RestSize(params, j) <= params.maxSize
    ensures 1 < Rest(params) && j == Rest(params) - 1 ==> RestSize(params, j) == params.maxSize
  {
    var m, d := params.maxSize, Rest(params) - 1;
    if d > 0 {
      DivModUnique(d * m, m, d, 0);
      if j < d {
        RestSizesGrow(params, j, d);
      }
    }
  }

  /** How many of the first n cases have the given size. */
  function CountOfSize(params: TestParams, n: nat, size: int): nat
    requires 0 <= params.maxSize && n <= params.maxSuccess
  {
    if n == 0 then 0
    else CountOfSize(params, n - 1, size) + (if SizeFor(params, n - 1) == size then 1 else 0)
  }

  lemma {:induction false} CountInRounds(params: TestParams, k: nat, j: nat, size: nat)
    requires 0 <= params.maxSize && 0 <= params.maxSuccess && size <= params.maxSize
    requires (k < Rounds(params) && j <= params.maxSize) || (k == Rounds(params) && j == 0)
    ensures 0 <= k * (params.maxSize + 1) + j <= params.maxSuccess
    ensures CountOfSize(params, k * (params.maxSize + 1) + j, size) == k + if size < j then 1 else 0
    decreases k, j
  {
    hide SizeFor, Rounds;
    var numSizes := params.maxSize + 1;
    RoundsBound(params, k);
    if j > 0 {
      CountInRounds(params, k, j - 1, size);
      Regular(params, k, j - 1);
    } else if k > 0 {
      CountInRounds(params, k - 1, params.maxSize, size);
      Regular(params, k - 1, params.maxSize);
      assert k * numSizes == (k - 1) * numSizes + params.maxSize + 1;
    }
  }

  lemma RoundsBound(params: TestParams, k: nat)
    requires 0 <= params.maxSize && 0 <= params.maxSuccess && k <= Rounds(params)
    ensures 0 <= k * (params.maxSize + 1) <= params.maxSuccess
    ensures Rounds(params) * (params.maxSize + 1) + Rest(params) == params.maxSuccess
    ensures k < Rounds(params) ==> k * (params.maxSize + 1) + params.maxSize < params.maxSuccess
  {
    var numSizes := params.maxSize + 1;
    DivMod(params.maxSuccess, numSizes);
    MulMonotone(k, Rounds(params), numSizes);
    if k < Rounds(params) {
      MulMonotone(k + 1, Rounds(params), numSizes);
    }
  }

  /** Among the first j cases of the rest a size occurs at most once. */
  ghost predicate InRest(params: TestParams, j: nat, size: int)
    requires 0 <= params.maxSize && 0 <= params.maxSuccess && j <= Rest(params)
  {
    exists l :: 0 <= l < j && RestSize(params, l) == size
  }

  lemma {:induction false} CountInRest(params: TestParams, j: nat, size: nat)
    requires 0 <= params.maxSize && 0 <= params.maxSuccess && size <= params.maxSize && j <= Rest(params)
    ensures 0 <= Rounds(params) * (params.maxSize + 1) + j <= params.maxSuccess
    ensures CountOfSize(params, Rounds(params) * (params.maxSize + 1) + j, size)
         == Rounds(params) + if InRest(params, j, size) then 1 else 0
  {
    hide SizeFor, Rounds, Rest, RestSize;
    RoundsBound(params, Rounds(params));
    if j == 0 {
      CountInRounds(params, Rounds(params), 0, size);
    } else {
      CountInRest(params, j - 1, size);
      RestAt(params, j - 1);
      forall l | 0 <= l < j - 1 ensures RestSize(params, l) < RestSize(params, j - 1) {
        RestSizesGrow(params, l, j - 1);
      }
    }
  }

  /** Every size is used as often as every other, give or take one. */
  lemma Fair(params: TestParams, size: nat)
    requires 0 <= params.maxSize && 0 <= params.maxSuccess && size <= params.maxSize
    ensures Rounds(params) <= CountOfSize(params, params.maxSuccess, size) <= Rounds(params) + 1
  {
    RoundsBound(params, Rounds(params));
    CountInRest(params, Rest(params), size);
  }

  /** A position is one of a complete round or one of the rest. */
  lemma Position(params: TestParams, i: int)
    requires 0 <= params.maxSize && 0 <= i < params.maxSuccess
    ensures var k, j := i / (params.maxSize + 1), i % (params.maxSize + 1);
            && i == k * (params.maxSize + 1) + j && 0 <= k && 0 <= j <= params.maxSize
            && (k < Rounds(params) || (k == Rounds(params) && j < Rest(params)))
  {
    var numSizes := params.maxSize + 1;
    var k := i / numSizes;
    DivMod(i, numSizes);
    RoundsBound(params, Rounds(params));
    DivBelow(i, numSizes, Rounds(params) + 1);
  }

  /** No other size is used. */
  lemma SizeInRange(params: TestParams, i: int)
    requires 0 <= params.maxSize && 0 <= i < params.maxSuccess
    ensures 0 <= SizeFor(params, i) <= params.maxSize
  {
    hide SizeFor, RestSize;
    Position(params, i);
    var k, j := i / (params.maxSize + 1), i % (params.maxSize + 1);
    if k < Rounds(params) {
      Regular(params, k, j);
    } else {
      RestAt(params, j);
      RestSizeBound(params, j);
    }
  }

  /** The maximum size is used unless there is but one case, and that of size 0. */
  lemma MaxSizeUsed(params: TestParams)
    requires 0 <= params.maxSize && 0 <= params.maxSuccess
    ensures (exists i :: 0 <= i < params.maxSuccess && SizeFor(params, i) == params.maxSize)
       <==> 2 <= params.maxSuccess || (params.maxSuccess == 1 && params.maxSize == 0)
  {
    hide SizeFor, RestSize;
    RoundsBound(params, Rounds(params));
    if 0 < Rounds(params) {
      Regular(params, 0, params.maxSize);
      assert SizeFor(params, params.maxSize) == params.maxSize;
      FewCases(params);
    } else if 1 < Rest(params) {
      RestAt(params, Rest(params) - 1);
      RestSizeBound(params, Rest(params) - 1);
    } else if Rest(params) == 1 {
      OnlyCase(params);
    }
  }

  lemma FewCases(params: TestParams)
    requires 0 <= params.maxSize && 0 <= params.maxSuccess && 0 < Rounds(params)
    ensures params.maxSuccess >= params.maxSize + 1
  {
    RoundsBound(params, 1);
  }

  lemma OnlyCase(params: TestParams)
    requires 0 <= params.maxSize && params.maxSuccess == 1 && Rounds(params) == 0
    ensures SizeFor(params, 0) == 0 < params.maxSize
  {
    DivMod(params.maxSuccess, params.maxSize + 1);
  }

  /** The products computed for the cases of the rest stay within a bound exactly when the last of
      them does. */
  lemma ProductsWithin(params: TestParams, bound: nat)
    requires 0 <= params.maxSize && 0 <= params.maxSuccess
    ensures (forall j :: 0 <= j < Rest(params) ==> j * params.maxSize <= bound)
       <==> (0 < Rest(params) ==> (Rest(params) - 1) * params.maxSize <= bound)
  {
    hide Rest;
    if 0 < Rest(params) && (Rest(params) - 1) * params.maxSize <= bound {
      forall j | 0 <= j < Rest(params) ensures j * params.maxSize <= bound {
        MulMonotone(j, Rest(params) - 1, params.maxSize);
      }
    }
  }
}

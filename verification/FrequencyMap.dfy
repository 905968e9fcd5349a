/** Weighted choice: a table of running sums that maps a number below the sum of the weights to the
    index of the weight it falls into. */
module FrequencyMap {
  import opened Bits

  function Sum(weights: seq<UInt64>): nat {
    if weights == [] then 0 else Sum(weights[..|weights| - 1]) + weights[|weights| - 1]
  }

  /** The running sums, as 64-bit integers. */
  function Table(weights: seq<UInt64>): (t: seq<UInt64>)
    ensures |t| == |weights|
  {
    seq(|weights|, i requires 0 <= i < |weights| => Sum(weights[..i + 1]) % TWO_TO_THE_64)
  }

  /** `std::upper_bound`: the first place that holds more than x. */
  function UpperBound(table: seq<UInt64>, x: UInt64): (i: nat)
    ensures i <= |table| && (forall j :: 0 <= j < i ==> table[j] <= x)
    ensures i < |table| ==> x < table[i]
  {
    if table == [] || x < table[0] then 0 else 1 + UpperBound(table[1..], x)
  }

  predicate Sorted(table: seq<UInt64>) {
    forall i, j :: 0 <= i < j < |table| ==> table[i] <= table[j]
  }

  lemma {:induction false} SumGrows(weights: seq<UInt64>, k: nat, n: nat)
    requires k <= n <= |weights|
    ensures Sum(weights[..k]) <= Sum(weights[..n])
    decreases n
  {
    if k < n {
      SumGrows(weights, k, n - 1);
      SumStep(weights, n - 1);
    }
  }

  lemma SumStep(weights: seq<UInt64>, n: nat)
    requires n < |weights|
    ensures Sum(weights[..n + 1]) == Sum(weights[..n]) + weights[n]
  {
    assert weights[..n + 1][..n] == weights[..n];
  }

  lemma TableExact(weights: seq<UInt64>)
    requires Sum(weights) < TWO_TO_THE_64
    ensures forall i :: 0 <= i < |weights| ==> Table(weights)[i] == Sum(weights[..i + 1])
  {
    assert weights[..|weights|] == weights;
    forall i | 0 <= i < |weights| ensures Table(weights)[i] == Sum(weights[..i + 1]) {
      SumGrows(weights, i + 1, |weights|);
    }
  }

  lemma {:induction false} FirstOverflow(weights: seq<UInt64>, n: nat) returns (k: nat)
    requires n <= |weights| && TWO_TO_THE_64 <= Sum(weights[..n])
    ensures 0 < k < n && Sum(weights[..k]) < TWO_TO_THE_64 <= Sum(weights[..k + 1])
  {
    assert n > 0;
    SumStep(weights, n - 1);
    if Sum(weights[..n - 1]) < TWO_TO_THE_64 {
      k := n - 1;
      assert weights[..0] == [];
    } else {
      k := FirstOverflow(weights, n - 1);
    }
  }

  /** Where the sum first overflows, the table goes down. */
  lemma DropAtOverflow(weights: seq<UInt64>, k: nat)
    requires 0 < k < |weights| && Sum(weights[..k]) < TWO_TO_THE_64 <= Sum(weights[..k + 1])
    ensures Table(weights)[k] < Table(weights)[k - 1]
  {
    hide Sum;
    SumStep(weights, k);
    var before, after := Sum(weights[..k]), Sum(weights[..k + 1]);
    DivModUnique(after, 1, TWO_TO_THE_64, after - TWO_TO_THE_64);
    DivModUnique(before, 0, TWO_TO_THE_64, before);
    assert Table(weights)[k - 1] == Sum(weights[..k - 1 + 1]) % TWO_TO_THE_64;
  }

  /** The table is sorted, as the search in it needs, exactly when the sum of the weights fits. */
  lemma SortedUnlessOverflow(weights: seq<UInt64>)
    ensures Sorted(Table(weights)) <==> Sum(weights) < TWO_TO_THE_64
  {
    hide Table, Sum;
    assert weights[..|weights|] == weights;
    if Sum(weights) < TWO_TO_THE_64 {
      TableExact(weights);
      forall i, j | 0 <= i < j < |weights| ensures Table(weights)[i] <= Table(weights)[j] {
        SumGrows(weights, i + 1, j + 1);
      }
    } else {
      var k := FirstOverflow(weights, |weights|);
      DropAtOverflow(weights, k);
    }
  }

  /** Looking up x gives the weight whose share of [0, sum) contains x; from the sum on it gives no
      weight at all. */
  lemma LookupRange(weights: seq<UInt64>, x: UInt64, i: nat)
    requires Sum(weights) < TWO_TO_THE_64 && i <= |weights|
    ensures UpperBound(Table(weights), x) == i
       <==> Sum(weights[..i]) <= x && (i < |weights| ==> x < Sum(weights[..i + 1]))
  {
    hide Table;
    TableExact(weights);
    assert weights[..0] == [];
    var r := UpperBound(Table(weights), x);
    if i > 0 && r < i {
      SumGrows(weights, r + 1, i);
    } else if i < r {
      assert Table(weights)[i] <= x;
    } else if i > 0 {
      assert Table(weights)[i - 1] <= x;
    }
  }

  /** How many of the numbers below n are mapped to index i. */
  function CountLookups(table: seq<UInt64>, n: nat, i: nat): nat
    requires n <= TWO_TO_THE_64
  {
    if n == 0 then 0 else CountLookups(table, n - 1, i) + if UpperBound(table, n - 1) == i then 1 else 0
  }

  lemma {:induction false} CountBelow(weights: seq<UInt64>, n: nat, i: nat)
    requires Sum(weights) < TWO_TO_THE_64 && i < |weights| && n <= Sum(weights)
    ensures var lo, hi := Sum(weights[..i]), Sum(weights[..i + 1]);
            lo <= hi && CountLookups(Table(weights), n, i) == if n <= lo then 0 else if n <= hi then n - lo else hi - lo
  {
    hide Table, UpperBound, Sum;
    SumStep(weights, i);
    if n > 0 {
      CountBelow(weights, n - 1, i);
      LookupRange(weights, n - 1, i);
    }
  }

  /** Of the numbers below the sum each index gets as many as its weight says, so an index of
      weight zero is never returned. */
  lemma LookupExact(weights: seq<UInt64>, i: nat)
    requires Sum(weights) < TWO_TO_THE_64 && i < |weights|
    ensures CountLookups(Table(weights), Sum(weights), i) == weights[i]
  {
    hide Table, Sum, CountLookups;
    assert weights[..|weights|] == weights;
    SumStep(weights, i);
    SumGrows(weights, i + 1, |weights|);
    CountBelow(weights, Sum(weights), i);
  }

  class FrequencyMap {
    var sum: UInt64
    var table: seq<UInt64>

    constructor (frequencies: seq<UInt64>)
      ensures table == Table(frequencies) && sum == Sum(frequencies) % TWO_TO_THE_64
    {
      sum := 0;
      table := [];
      new;
      for k := 0 to |frequencies|
        invariant sum == Sum(frequencies[..k]) % TWO_TO_THE_64
        invariant |table| == k && forall i :: 0 <= i < k ==> table[i] == Sum(frequencies[..i + 1]) % TWO_TO_THE_64
      {
        SumStep(frequencies, k);
        sum := (sum + frequencies[k]) % TWO_TO_THE_64;
        table := table + [sum];
      }
      assert frequencies[..|frequencies|] == frequencies;
    }

    method Lookup(x: UInt64) returns (i: nat)
      ensures i == UpperBound(table, x)
    {
      i := UpperBound(table, x);
    }
  }
}

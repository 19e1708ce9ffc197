/**
  The matrix-chain multiplication problem solved by dynamic programming:
  matrix i of the chain is `d[i] x d[i+1]`, and `dp[i][j]` holds the cheapest
  known cost, in scalar multiplications, of the product of matrices i..j, or
  -1 while no way of computing it has been tried.
*/
module MatrixChain {
  import opened Wrappers

  // ---------------------------------------------------------------------
  // The reference: cheapest cost over all bracketings
  // ---------------------------------------------------------------------

  /** The cost of multiplying matrices i..k and k+1..j separately and then together. */
  function SplitCost(d: seq<int>, i: nat, j: nat, k: nat): int
    requires i <= k < j < |d| - 1
    decreases j - i, 0, 0
  {
    MinCost(d, i, k) + MinCost(d, k + 1, j) + d[i] * d[k + 1] * d[j + 1]
  }

  /** The cheapest split among the split points i..k of the product of matrices i..j. */
  function BestSplit(d: seq<int>, i: nat, j: nat, k: nat): int
    requires i <= k < j < |d| - 1
    decreases j - i, 0, k - i + 1
  {
    var c := SplitCost(d, i, j, k);
    if k == i then c
    else
      var rest := BestSplit(d, i, j, k - 1);
      if c < rest then c else rest
  }

  /** The cheapest cost of the product of matrices i..j. */
  function MinCost(d: seq<int>, i: nat, j: nat): int
    requires i <= j < |d| - 1
    decreases j - i, 1, 0
  {
    if i == j then 0 else BestSplit(d, i, j, j - 1)
  }

  /** A way of bracketing a product of consecutive matrices. */
  datatype Bracketing = Single(index: nat) | Product(left: Bracketing, right: Bracketing)

  function First(b: Bracketing): nat {
    match b
    case Single(x) => x
    case Product(l, _) => First(l)
  }

  function Last(b: Bracketing): nat {
    match b
    case Single(x) => x
    case Product(_, r) => Last(r)
  }

  /** Each product joins two adjacent runs of matrices. */
  predicate WellFormed(b: Bracketing) {
    match b
    case Single(_) => true
    case Product(l, r) => WellFormed(l) && WellFormed(r) && Last(l) + 1 == First(r)
  }

  lemma {:induction false} FirstBeforeLast(b: Bracketing)
    requires WellFormed(b)
    ensures First(b) <= Last(b)
  {
    match b
    case Single(_) =>
    case Product(l, r) =>
      FirstBeforeLast(l);
      FirstBeforeLast(r);
  }

  /** The scalar multiplications the bracketing performs. */
  function Cost(d: seq<int>, b: Bracketing): int
    requires WellFormed(b) && Last(b) < |d| - 1
  {
    match b
    case Single(_) => 0
    case Product(l, r) =>
      FirstBeforeLast(l);
      FirstBeforeLast(r);
      Cost(d, l) + Cost(d, r) + d[First(l)] * d[Last(l) + 1] * d[Last(r) + 1]
  }

  lemma {:induction false} BestSplitAtMost(d: seq<int>, i: nat, j: nat, k: nat, m: nat)
    requires i <= m <= k < j < |d| - 1
    ensures BestSplit(d, i, j, k) <= SplitCost(d, i, j, m)
    decreases k - i
  {
    if k != m {
      BestSplitAtMost(d, i, j, k - 1, m);
    }
  }

  lemma {:induction false} BestSplitAttained(d: seq<int>, i: nat, j: nat, k: nat) returns (m: nat)
    requires i <= k < j < |d| - 1
    ensures i <= m <= k && BestSplit(d, i, j, k) == SplitCost(d, i, j, m)
    decreases k - i
  {
    if k == i {
      m := i;
    } else {
      var m' := BestSplitAttained(d, i, j, k - 1);
      m := if SplitCost(d, i, j, k) < BestSplit(d, i, j, k - 1) then k else m';
    }
  }

  /** No bracketing of matrices i..j is cheaper than `MinCost`. */
  lemma {:induction false} MinCostIsLowerBound(d: seq<int>, b: Bracketing)
    requires WellFormed(b) && Last(b) < |d| - 1
    ensures First(b) <= Last(b)
    ensures MinCost(d, First(b), Last(b)) <= Cost(d, b)
  {
    FirstBeforeLast(b);
    match b
    case Single(_) =>
    case Product(l, r) =>
      FirstBeforeLast(l);
      FirstBeforeLast(r);
      MinCostIsLowerBound(d, l);
      MinCostIsLowerBound(d, r);
      BestSplitAtMost(d, First(b), Last(b), Last(b) - 1, Last(l));
  }

  /** Some bracketing of matrices i..j costs exactly `MinCost`. */
  lemma {:induction false} MinCostIsAttained(d: seq<int>, i: nat, j: nat) returns (b: Bracketing)
    requires i <= j < |d| - 1
    ensures WellFormed(b) && First(b) == i && Last(b) == j
    ensures Cost(d, b) == MinCost(d, i, j)
    decreases j - i
  {
    if i == j {
      b := Single(i);
    } else {
      var m := BestSplitAttained(d, i, j, j - 1);
      var l := MinCostIsAttained(d, i, m);
      var r := MinCostIsAttained(d, m + 1, j);
      b := Product(l, r);
    }
  }

  predicate NonNegative(d: seq<int>) {
    forall x :: 0 <= x < |d| ==> d[x] >= 0
  }

  /** With no negative dimension no product costs less than nothing. */
  lemma {:induction false} MinCostNonNegative(d: seq<int>, i: nat, j: nat)
    requires NonNegative(d) && i <= j < |d| - 1
    ensures MinCost(d, i, j) >= 0
    decreases j - i
  {
    if i < j {
      var m := BestSplitAttained(d, i, j, j - 1);
      MinCostNonNegative(d, i, m);
      MinCostNonNegative(d, m + 1, j);
      assert d[i] * d[m + 1] >= 0;
      assert d[i] * d[m + 1] * d[j + 1] >= 0;
    }
  }

  // ---------------------------------------------------------------------
  // The memo table
  // ---------------------------------------------------------------------

  /** Row `i` of the initial table: 0 at position i, -1 everywhere else. */
  function InitRow(i: nat, n: int): (row: seq<int>)
    ensures |row| == if i < n then n else i + 1
    ensures row[i] == 0
    ensures forall k :: 0 <= k < |row| && k != i ==> row[k] == -1
  {
    seq(i, _ => -1) + [0] + seq(if i + 1 < n then n - i - 1 else 0, _ => -1)
  }

  /** An n-by-n table, shaped for a chain with dimensions `d`. */
  predicate Shaped(dp: seq<seq<int>>, d: seq<int>) {
    |dp| == |d| - 1 && forall r :: 0 <= r < |dp| ==> |dp[r]| == |dp|
  }

  /** The initial table: 0 on the diagonal (one matrix costs nothing), -1 elsewhere. */
  function InitDpMatrix(n: int): (dp: seq<seq<int>>)
    ensures |dp| == if n > 0 then n else 0
    ensures forall r :: 0 <= r < |dp| ==> |dp[r]| == n
    ensures forall a, b :: 0 <= a < |dp| && 0 <= b < |dp| ==> dp[a][b] == if a == b then 0 else -1
  {
    seq(if n > 0 then n else 0, i requires 0 <= i => InitRow(i, n))
  }

  /** What the table must hold before solving: 0 on the diagonal and -1 above it. */
  predicate Initialised(dp: seq<seq<int>>, d: seq<int>) {
    Shaped(dp, d) && forall a, b :: 0 <= a <= b < |dp| ==> dp[a][b] == if a == b then 0 else -1
  }

  /** The cost, read from the table, of splitting the product i..j after matrix k. */
  function Candidate(dp: seq<seq<int>>, d: seq<int>, i: nat, j: nat, k: nat): int
    requires Shaped(dp, d) && i <= k < j < |dp|
  {
    dp[i][k] + dp[k + 1][j] + d[i] * d[k + 1] * d[j + 1]
  }

  /** An entry after one relaxation: the candidate when the entry is unset or larger. */
  function Relax(v: int, c: int): (r: int)
    ensures r == c || r == v
    ensures r <= c && (v != -1 ==> r <= v)
    ensures c >= 0 ==> r != -1
  {
    if v == -1 || c < v then c else v
  }

  /** Entry i..j, starting from `v`, after relaxing with the split points i..i+m-1 in turn. */
  function RelaxAll(dp: seq<seq<int>>, d: seq<int>, i: nat, j: nat, v: int, m: nat): int
    requires Shaped(dp, d) && i + m <= j < |dp|
  {
    if m == 0 then v else Relax(RelaxAll(dp, d, i, j, v, m - 1), Candidate(dp, d, i, j, i + m - 1))
  }

  /** `RelaxAll` reads only the entries of the two parts of each split. */
  lemma {:induction false} RelaxAllFrame(dp1: seq<seq<int>>, dp2: seq<seq<int>>, d: seq<int>, i: nat, j: nat, v: int, m: nat)
    requires Shaped(dp1, d) && Shaped(dp2, d) && i + m <= j < |dp1|
    requires forall k :: i <= k < i + m ==> dp1[i][k] == dp2[i][k]
    requires forall k :: i < k <= i + m ==> dp1[k][j] == dp2[k][j]
    ensures RelaxAll(dp1, d, i, j, v, m) == RelaxAll(dp2, d, i, j, v, m)
  {
    if m > 0 {
      RelaxAllFrame(dp1, dp2, d, i, j, v, m - 1);
      assert Candidate(dp1, d, i, j, i + m - 1) == Candidate(dp2, d, i, j, i + m - 1);
    }
  }

  /**
    When the table holds the cheapest costs of all shorter products and no
    dimension is negative, relaxing an unset entry with the split points
    i..i+m-1 yields the cheapest of those splits.
  */
  lemma {:induction false} RelaxAllIsBest(dp: seq<seq<int>>, d: seq<int>, i: nat, j: nat, m: nat)
    requires Shaped(dp, d) && NonNegative(d) && 1 <= m && i + m <= j < |dp|
    requires forall k :: i <= k < j ==> dp[i][k] == MinCost(d, i, k) && dp[k + 1][j] == MinCost(d, k + 1, j)
    ensures RelaxAll(dp, d, i, j, -1, m) == BestSplit(d, i, j, i + m - 1)
  {
    var k := i + m - 1;
    assert Candidate(dp, d, i, j, k) == SplitCost(d, i, j, k);
    if m > 1 {
      RelaxAllIsBest(dp, d, i, j, m - 1);
      var m' := BestSplitAttained(d, i, j, k - 1);
      MinCostNonNegative(d, i, m');
      MinCostNonNegative(d, m' + 1, j);
      assert d[i] * d[m' + 1] >= 0;
      assert d[i] * d[m' + 1] * d[j + 1] >= 0;
    }
  }

  /** The solver's state: the chain's dimensions and the memo table. */
  class ChainSolver {
    var matrices: seq<int>
    var dp: seq<seq<int>>

    /** The dimensions of the chain and its initial table. */
    constructor (dims: seq<int>)
      ensures matrices == dims && dp == InitDpMatrix(|dims| - 1)
      ensures |dims| >= 1 ==> Initialised(dp, matrices)
    {
      matrices := dims;
      dp := InitDpMatrix(|dims| - 1);
    }

    /** Relaxes entry i..j with the split after matrix k; every other entry is kept. */
    method UpdateDpMatrix(i: nat, j: nat, k: nat)
      requires Shaped(dp, matrices) && i <= k < j < |dp|
      modifies this`dp
      ensures dp == old(dp[i := dp[i][j := Relax(dp[i][j], Candidate(dp, matrices, i, j, k))]])
    {
      var cost := dp[i][k] + dp[k + 1][j] + matrices[i] * matrices[k + 1] * matrices[j + 1];
      if dp[i][j] == -1 || cost < dp[i][j] {
        dp := dp[i := dp[i][j := cost]];
      } else {
        assert dp[i][j := dp[i][j]] == dp[i];
        assert dp[i := dp[i]] == dp;
      }
    }

    /** Tries every split point of the product startIndex..endIndex, in increasing order. */
    method SecondLoop(length: nat, startIndex: nat, endIndex: nat)
      requires Shaped(dp, matrices) && 1 <= length && endIndex == startIndex + length - 1 && endIndex < |dp|
      modifies this`dp
      ensures dp == old(dp[startIndex := dp[startIndex][endIndex :=
        RelaxAll(dp, matrices, startIndex, endIndex, dp[startIndex][endIndex], length - 1)]])
    {
      assert dp[startIndex][endIndex := dp[startIndex][endIndex]] == dp[startIndex];
      assert dp[startIndex := dp[startIndex]] == dp;
      for k := 0 to length - 1
        invariant dp == old(dp[startIndex := dp[startIndex][endIndex :=
          RelaxAll(dp, matrices, startIndex, endIndex, dp[startIndex][endIndex], k)]])
      {
        assert Candidate(dp, matrices, startIndex, endIndex, startIndex + k) ==
          Candidate(old(dp), matrices, startIndex, endIndex, startIndex + k);
        ghost var next := Relax(dp[startIndex][endIndex], Candidate(dp, matrices, startIndex, endIndex, startIndex + k));
        assert next == RelaxAll(old(dp), matrices, startIndex, endIndex, old(dp[startIndex][endIndex]), k + 1);
        assert dp[startIndex][endIndex := next] == old(dp[startIndex])[endIndex := next];
        UpdateDpMatrix(startIndex, endIndex, startIndex + k);
      }
    }

    /** Solves every product of `length` consecutive matrices; nothing else in the table changes. */
    method FirstLoop(length: nat, numOfMatrices: int)
      requires Shaped(dp, matrices) && numOfMatrices == |dp| && 1 <= length
      modifies this`dp
      ensures Shaped(dp, matrices)
      ensures forall a, b :: 0 <= a < |dp| && 0 <= b < |dp| ==>
        dp[a][b] == if a + length - 1 == b then RelaxAll(old(dp), matrices, a, b, old(dp[a][b]), length - 1)
                    else old(dp[a][b])
    {
      var j := 0;
      while j < numOfMatrices - length + 1
        invariant 0 <= j && (j <= numOfMatrices - length + 1 || j == 0)
        invariant Shaped(dp, matrices)
        invariant forall a, b :: 0 <= a < |dp| && 0 <= b < |dp| ==>
          dp[a][b] == if a + length - 1 == b && a < j then RelaxAll(old(dp), matrices, a, b, old(dp[a][b]), length - 1)
                      else old(dp[a][b])
      {
        RelaxAllFrame(dp, old(dp), matrices, j, j + length - 1, dp[j][j + length - 1], length - 1);
        SecondLoop(length, j, j + length - 1);
        j := j + 1;
      }
    }

    /**
      Solves products of increasing length 2..n, so both parts of a split are
      final when they are used, and returns the entry for the whole chain.
      A chain of no matrices has an empty table, where Python's `dp_matrix[0]`
      raises IndexError; `None` stands for that error.
    */
    method Solve(numOfMatrices: int) returns (result: Option<int>)
      requires Initialised(dp, matrices) && numOfMatrices == |dp|
      modifies this`dp
      ensures Shaped(dp, matrices)
      ensures result.None? <==> numOfMatrices < 1
      ensures result.Some? ==> result.value == dp[0][numOfMatrices - 1]
      ensures numOfMatrices == 1 ==> result == Some(0)
      ensures NonNegative(matrices) ==> forall a, b :: 0 <= a <= b < |dp| ==> dp[a][b] == MinCost(matrices, a, b)
    {
      var length := 2;
      while length < numOfMatrices + 1
        invariant 2 <= length && (length <= numOfMatrices + 1 || length == 2)
        invariant Shaped(dp, matrices)
        invariant forall a :: 0 <= a < |dp| ==> dp[a][a] == 0
        invariant forall a, b :: 0 <= a <= b < |dp| && a + length <= b + 1 ==> dp[a][b] == -1
        invariant NonNegative(matrices) ==>
          forall a, b :: 0 <= a <= b < |dp| && b + 1 < a + length ==> dp[a][b] == MinCost(matrices, a, b)
      {
        ghost var before := dp;
        FirstLoop(length, numOfMatrices);
        if NonNegative(matrices) {
          forall a, b | 0 <= a <= b < |dp| && b + 1 < a + length + 1
            ensures dp[a][b] == MinCost(matrices, a, b)
          {
            if a + length - 1 == b {
              RelaxAllIsBest(before, matrices, a, b, length - 1);
            }
          }
        }
        length := length + 1;
      }
      if numOfMatrices < 1 {
        return None;
      }
      return Some(dp[0][numOfMatrices - 1]);
    }
  }

  /**
    The whole program on a list of dimensions: builds the table and solves
    it.  With non-negative dimensions the answer is the cheapest bracketing.
  */
  method MinimumCost(dims: seq<int>) returns (result: Option<int>)
    ensures result.None? <==> |dims| < 2
    ensures |dims| == 2 ==> result == Some(0)
    ensures NonNegative(dims) && |dims| >= 2 ==> result == Some(MinCost(dims, 0, |dims| - 2))
  {
    if |dims| == 0 {
      // the table is empty, and `dp_matrix[0]` raises IndexError, modelled as None
      return None;
    }
    var solver := new ChainSolver(dims);
    result := solver.Solve(|dims| - 1);
  }
}

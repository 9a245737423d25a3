/** The 0/1 assignment grids of a roster, the views the posting procedures take of
    them, and the sums and counts over those views. */
module Grids {

  /** A grid g[k][i][t]: service (or standby duty) k, staff member i, day t. */
  type Grid = seq<seq<seq<int>>>

  predicate IsMatrix<T>(m: seq<seq<T>>, rows: nat, cols: nat) {
    |m| == rows && forall r :: 0 <= r < rows ==> |m[r]| == cols
  }

  predicate IsCube<T>(g: seq<seq<seq<T>>>, n1: nat, n2: nat, n3: nat) {
    |g| == n1 && forall k :: 0 <= k < n1 ==> IsMatrix(g[k], n2, n3)
  }

  predicate IsBinarySeq(q: seq<int>) {
    forall k :: 0 <= k < |q| ==> q[k] == 0 || q[k] == 1
  }

  /** Every cell lies in the domain {0, 1} of the solver's variables. */
  predicate Binary(g: Grid) {
    forall k, i, t :: 0 <= k < |g| && 0 <= i < |g[k]| && 0 <= t < |g[k][i]| ==>
      g[k][i][t] == 0 || g[k][i][t] == 1
  }

  // ---------------------------------------------------------------------------
  // Sums and counts over a sequence, both folded from the last element so that a
  // loop which extends a prefix by one element matches one unfolding.

  function Sum(q: seq<int>): int {
    if |q| == 0 then 0 else Sum(q[..|q| - 1]) + q[|q| - 1]
  }

  /** The number of cells equal to 1 (what the tests count with `getValue() == 1`). */
  function CountOnes(q: seq<int>): nat {
    if |q| == 0 then 0 else CountOnes(q[..|q| - 1]) + (if q[|q| - 1] == 1 then 1 else 0)
  }

  lemma SumPrefixStep(q: seq<int>, k: nat)
    requires k < |q|
    ensures Sum(q[..k + 1]) == Sum(q[..k]) + q[k]
    ensures CountOnes(q[..k + 1]) == CountOnes(q[..k]) + (if q[k] == 1 then 1 else 0)
  {
    assert q[..k + 1][..k] == q[..k];
  }

  /** On a 0/1 sequence the sum of the values is the number of ones. */
  lemma {:induction false} SumOfBinaryIsCount(q: seq<int>)
    requires IsBinarySeq(q)
    ensures Sum(q) == CountOnes(q)
  {
    if |q| > 0 {
      SumOfBinaryIsCount(q[..|q| - 1]);
    }
  }

  /** A sum of non-negative values is non-negative, and it is zero only when every value is. */
  lemma {:induction false} SumOfNonNegative(q: seq<int>)
    requires forall k :: 0 <= k < |q| ==> q[k] >= 0
    ensures Sum(q) >= 0
    ensures Sum(q) == 0 <==> forall k :: 0 <= k < |q| ==> q[k] == 0
  {
    if |q| > 0 {
      var front := q[..|q| - 1];
      SumOfNonNegative(front);
      if Sum(q) == 0 {
        forall k | 0 <= k < |q| ensures q[k] == 0 {
          if k < |q| - 1 {
            assert q[k] == front[k];
          }
        }
      }
    }
  }

  lemma {:induction false} SumConcat(a: seq<int>, b: seq<int>)
    ensures Sum(a + b) == Sum(a) + Sum(b)
  {
    if |b| > 0 {
      assert (a + b)[..|a + b| - 1] == a + b[..|b| - 1];
      SumConcat(a, b[..|b| - 1]);
    } else {
      assert a + b == a;
    }
  }

  // ---------------------------------------------------------------------------
  // Views of a grid along one axis: the rows the source builds by transposition.

  /** Column t of a matrix: m[0][t], m[1][t], ... */
  function Column(m: seq<seq<int>>, t: nat): seq<int>
    requires forall r :: 0 <= r < |m| ==> t < |m[r]|
  {
    seq(|m|, r requires 0 <= r < |m| => m[r][t])
  }

  /** The matrix of staff member i: one day-row g[k][i] per service (or duty) k. */
  function StaffRows(g: Grid, i: nat): seq<seq<int>>
    requires forall k :: 0 <= k < |g| ==> i < |g[k]|
  {
    seq(|g|, k requires 0 <= k < |g| => g[k][i])
  }

  /** g[0][i][t], g[1][i][t], ...: every service (or duty) of staff member i on day t. */
  function Across(g: Grid, i: nat, t: nat): seq<int>
    requires forall k :: 0 <= k < |g| ==> i < |g[k]| && t < |g[k][i]|
  {
    Column(StaffRows(g, i), t)
  }

  // ---------------------------------------------------------------------------
  // Flattening: the concatenation of the rows of a matrix.

  function Flatten(rows: seq<seq<int>>): seq<int> {
    if |rows| == 0 then [] else Flatten(rows[..|rows| - 1]) + rows[|rows| - 1]
  }

  lemma FlattenPrefixStep(rows: seq<seq<int>>, k: nat)
    requires k < |rows|
    ensures Flatten(rows[..k + 1]) == Flatten(rows[..k]) + rows[k]
  {
    assert rows[..k + 1][..k] == rows[..k];
  }

  lemma MulMono(a: nat, b: nat, c: nat)
    requires a <= b
    ensures a * c <= b * c
  {
  }

  lemma Distrib(a: nat, b: nat, c: nat)
    ensures (a + b) * c == a * c + b * c
  {
  }

  /** Row k of an n-by-c matrix starts at position k * c of its flattening. */
  lemma {:induction false} FlattenAt(rows: seq<seq<int>>, n: nat, c: nat)
    requires IsMatrix(rows, n, c)
    ensures |Flatten(rows)| == n * c
    ensures forall k, t :: 0 <= k < n && 0 <= t < c ==> Flatten(rows)[k * c + t] == rows[k][t]
  {
    if n > 0 {
      var front := rows[..n - 1];
      var last := rows[n - 1];
      FlattenAt(front, n - 1, c);
      assert Flatten(rows) == Flatten(front) + last;
      Distrib(n - 1, 1, c);
      forall k, t | 0 <= k < n && 0 <= t < c
        ensures Flatten(rows)[k * c + t] == rows[k][t]
      {
        if k < n - 1 {
          MulMono(k + 1, n - 1, c);
          Distrib(k, 1, c);
          assert front[k] == rows[k];
          assert Flatten(front)[k * c + t] == front[k][t];
        } else {
          assert k * c + t == |Flatten(front)| + t;
        }
      }
    }
  }

  /** The planes g[0], g[1], ... of a grid, each flattened row by row. */
  function Planes(g: Grid): seq<seq<int>> {
    seq(|g|, k requires 0 <= k < |g| => Flatten(g[k]))
  }

  /** A whole grid laid out plane by plane, row by row. */
  function Flatten3(g: Grid): seq<int> {
    Flatten(Planes(g))
  }

  lemma PlanesShape(g: Grid, n1: nat, n2: nat, n3: nat)
    requires IsCube(g, n1, n2, n3)
    ensures IsMatrix(Planes(g), n1, n2 * n3)
    ensures |Flatten3(g)| == n1 * n2 * n3
  {
    forall k | 0 <= k < n1 ensures |Planes(g)[k]| == n2 * n3 {
      FlattenAt(g[k], n2, n3);
    }
    FlattenAt(Planes(g), n1, n2 * n3);
    MulAssoc(n1, n2, n3);
  }

  lemma MulAssoc(a: nat, b: nat, c: nat)
    ensures a * (b * c) == a * b * c
  {
  }

  lemma LayoutIndex(k: nat, i: nat, t: nat, n2: nat, n3: nat)
    requires i < n2 && t < n3
    ensures (k * n2 + i) * n3 + t == k * (n2 * n3) + (i * n3 + t)
    ensures i * n3 + t < n2 * n3
  {
    MulMono(i + 1, n2, n3);
  }

  /** One cell of FlattenAt. */
  lemma FlattenCell(rows: seq<seq<int>>, n: nat, c: nat, k: nat, t: nat)
    requires IsMatrix(rows, n, c) && k < n && t < c
    ensures k * c + t < |Flatten(rows)|
    ensures Flatten(rows)[k * c + t] == rows[k][t]
  {
    FlattenAt(rows, n, c);
    MulMono(k + 1, n, c);
  }

  /** Cell g[k][i][t] of an n1-by-n2-by-n3 grid sits at (k * n2 + i) * n3 + t of its layout. */
  lemma Flatten3Cell(g: Grid, n1: nat, n2: nat, n3: nat, k: nat, i: nat, t: nat)
    requires IsCube(g, n1, n2, n3) && k < n1 && i < n2 && t < n3
    ensures 0 <= (k * n2 + i) * n3 + t < |Flatten3(g)|
    ensures Flatten3(g)[(k * n2 + i) * n3 + t] == g[k][i][t]
  {
    PlanesShape(g, n1, n2, n3);
    LayoutIndex(k, i, t, n2, n3);
    var m := n2 * n3;
    var j := i * n3 + t;
    FlattenCell(Planes(g), n1, m, k, j);
    FlattenCell(g[k], n2, n3, i, t);
  }

  /** The sum over every service and day of a matrix, row by row. */
  function SumRows(m: seq<seq<int>>): int {
    if |m| == 0 then 0 else SumRows(m[..|m| - 1]) + Sum(m[|m| - 1])
  }

  lemma {:induction false} SumFlatten(rows: seq<seq<int>>)
    ensures Sum(Flatten(rows)) == SumRows(rows)
  {
    if |rows| > 0 {
      SumFlatten(rows[..|rows| - 1]);
      SumConcat(Flatten(rows[..|rows| - 1]), rows[|rows| - 1]);
    }
  }

  /** Rows of non-negative sums flatten to a non-negative sum, which is zero exactly when
      the sum of every row is. */
  lemma {:induction false} FlattenSumZero(rows: seq<seq<int>>)
    requires forall r :: 0 <= r < |rows| ==> Sum(rows[r]) >= 0
    ensures Sum(Flatten(rows)) >= 0
    ensures Sum(Flatten(rows)) == 0 <==> forall r :: 0 <= r < |rows| ==> Sum(rows[r]) == 0
  {
    if |rows| > 0 {
      var front := rows[..|rows| - 1];
      assert forall r :: 0 <= r < |front| ==> front[r] == rows[r];
      FlattenSumZero(front);
      SumConcat(Flatten(front), rows[|rows| - 1]);
    }
  }

  /** Sum over the first d columns of a matrix of width c, column by column. */
  function SumCols(m: seq<seq<int>>, c: nat, d: nat): int
    requires IsMatrix(m, |m|, c) && d <= c
  {
    if d == 0 then 0 else SumCols(m, c, d - 1) + Sum(Column(m, d - 1))
  }

  /** The number of ones in the first d columns of a matrix of width c, column by column. */
  function CountCols(m: seq<seq<int>>, c: nat, d: nat): nat
    requires IsMatrix(m, |m|, c) && d <= c
  {
    if d == 0 then 0 else CountCols(m, c, d - 1) + CountOnes(Column(m, d - 1))
  }

  lemma {:induction false} SumColsDropLastRow(m: seq<seq<int>>, c: nat, d: nat)
    requires IsMatrix(m, |m|, c) && d <= c && |m| > 0
    ensures SumCols(m, c, d) == SumCols(m[..|m| - 1], c, d) + Sum(m[|m| - 1][..d])
  {
    var n := |m|;
    if d > 0 {
      SumColsDropLastRow(m, c, d - 1);
      assert Column(m, d - 1)[..n - 1] == Column(m[..n - 1], d - 1);
      SumPrefixStep(m[n - 1], d - 1);
    }
  }

  /** Summing a matrix row by row or column by column gives the same total. */
  lemma {:induction false} SumRowsIsSumCols(m: seq<seq<int>>, c: nat)
    requires IsMatrix(m, |m|, c)
    ensures SumRows(m) == SumCols(m, c, c)
  {
    if |m| == 0 {
      SumColsOfEmpty(m, c, c);
    } else {
      var n := |m|;
      SumRowsIsSumCols(m[..n - 1], c);
      SumColsDropLastRow(m, c, c);
      assert m[n - 1][..c] == m[n - 1];
    }
  }

  lemma {:induction false} SumColsOfEmpty(m: seq<seq<int>>, c: nat, d: nat)
    requires |m| == 0 && d <= c
    ensures SumCols(m, c, d) == 0
  {
    if d > 0 {
      SumColsOfEmpty(m, c, d - 1);
    }
  }

  /** On 0/1 cells, counting ones column by column is summing column by column. */
  lemma {:induction false} CountColsIsSumCols(m: seq<seq<int>>, c: nat, d: nat)
    requires IsMatrix(m, |m|, c) && d <= c
    requires forall r, t :: 0 <= r < |m| && 0 <= t < c ==> m[r][t] == 0 || m[r][t] == 1
    ensures CountCols(m, c, d) == SumCols(m, c, d)
  {
    if d > 0 {
      CountColsIsSumCols(m, c, d - 1);
      SumOfBinaryIsCount(Column(m, d - 1));
    }
  }

  /** The first d columns hold at most as many ones as the whole matrix. */
  lemma {:induction false} CountColsMono(m: seq<seq<int>>, c: nat, d: nat)
    requires IsMatrix(m, |m|, c) && d <= c
    ensures CountCols(m, c, d) <= CountCols(m, c, c)
    decreases c - d
  {
    if d < c {
      CountColsMono(m, c, d + 1);
    }
  }

  // ---------------------------------------------------------------------------
  // Weekday buckets: the days t with t % 7 == w.

  /** Sum of row[t] over the days t < n with t % 7 == w. */
  function WeekdaySum(row: seq<int>, w: nat, n: nat): int
    requires n <= |row|
  {
    if n == 0 then 0
    else WeekdaySum(row, w, n - 1) + (if (n - 1) % 7 == w then row[n - 1] else 0)
  }

  /** Sum over the first k rows of a matrix of width c of their weekday-w buckets. */
  function WeekdayRows(m: seq<seq<int>>, c: nat, w: nat, k: nat): int
    requires IsMatrix(m, |m|, c) && k <= |m|
  {
    if k == 0 then 0 else WeekdayRows(m, c, w, k - 1) + WeekdaySum(m[k - 1], w, c)
  }

  /** Within the first week after day w, the weekday-w bucket of a row holds day w alone. */
  lemma {:induction false} WeekdaySumFirstWeek(row: seq<int>, w: nat, n: nat)
    requires w < 7 && n <= |row| && n <= w + 7
    ensures WeekdaySum(row, w, n) == if w < n then row[w] else 0
  {
    if n > 0 {
      WeekdaySumFirstWeek(row, w, n - 1);
    }
  }

  /** Summing one column over the first k rows. */
  lemma {:induction false} WeekdayRowsFirstWeek(m: seq<seq<int>>, c: nat, w: nat, k: nat)
    requires IsMatrix(m, |m|, c) && k <= |m| && w < 7 && w < c && c <= w + 7
    ensures WeekdayRows(m, c, w, k) == Sum(Column(m, w)[..k])
  {
    if k > 0 {
      WeekdayRowsFirstWeek(m, c, w, k - 1);
      WeekdaySumFirstWeek(m[k - 1], w, c);
      SumPrefixStep(Column(m, w), k - 1);
    }
  }
}

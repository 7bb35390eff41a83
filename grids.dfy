/** Shared vocabulary of the model: failure-carrying results, rectangular
    grids of pixel values, minima and maxima of sequences, sorting, and the
    k x k neighbourhood window that the median filter and the morphological
    operators read. */
module Grids {

  datatype Option<+T> = None | Some(value: T)

  datatype Result<+T, +E> = Ok(value: T) | Err(error: E)

  /** A grid is a sequence of rows; a rectangular grid has rows of equal
      length.  Images, masks and relevance maps are all grids. */
  predicate Rectangular<T>(g: seq<seq<T>>)
  {
    forall i | 0 <= i < |g| :: |g[i]| == |g[0]|
  }

  /** A grid with at least one pixel, as every decoded image has. */
  predicate NonEmptyGrid<T>(g: seq<seq<T>>)
  {
    |g| > 0 && |g[0]| > 0 && Rectangular(g)
  }

  /** Same height, and row by row the same width. */
  predicate SameShape<T, U>(a: seq<seq<T>>, b: seq<seq<U>>)
  {
    |a| == |b| && forall i | 0 <= i < |a| :: |a[i]| == |b[i]|
  }

  /** Every cell is a byte value, 0 to 255. */
  predicate InByteRange(g: seq<seq<int>>)
  {
    forall i, j | 0 <= i < |g| && 0 <= j < |g[i]| :: 0 <= g[i][j] <= 255
  }

  /** Every cell is 0 or 255: the two levels of an 8-bit binary mask. */
  predicate IsBinary(g: seq<seq<int>>)
  {
    forall i, j | 0 <= i < |g| && 0 <= j < |g[i]| :: g[i][j] == 0 || g[i][j] == 255
  }

  predicate BinarySeq(s: seq<int>)
  {
    forall k | 0 <= k < |s| :: s[k] == 0 || s[k] == 255
  }

  function SeqMin(s: seq<int>): (r: int)
    requires |s| > 0
    ensures r in s
    ensures forall k | 0 <= k < |s| :: r <= s[k]
  {
    if |s| == 1 then s[0]
    else
      var m := SeqMin(s[1..]);
      if s[0] <= m then s[0] else m
  }

  function SeqMax(s: seq<int>): (r: int)
    requires |s| > 0
    ensures r in s
    ensures forall k | 0 <= k < |s| :: s[k] <= r
  {
    if |s| == 1 then s[0]
    else
      var m := SeqMax(s[1..]);
      if s[0] >= m then s[0] else m
  }

  /** Smallest value of a non-empty grid of reals. */
  function GridMin(g: seq<seq<real>>): (r: real)
    requires |g| > 0 && forall i | 0 <= i < |g| :: |g[i]| > 0
    ensures forall i, j | 0 <= i < |g| && 0 <= j < |g[i]| :: r <= g[i][j]
    ensures exists i, j | 0 <= i < |g| && 0 <= j < |g[i]| :: r == g[i][j]
  {
    var m := RowMin(g[0]);
    if |g| == 1 then m
    else
      var rest := GridMin(g[1..]);
      assert forall i | 1 <= i < |g| :: g[i] == g[1..][i - 1];
      if m <= rest then m else rest
  }

  /** Largest value of a non-empty grid of reals. */
  function GridMax(g: seq<seq<real>>): (r: real)
    requires |g| > 0 && forall i | 0 <= i < |g| :: |g[i]| > 0
    ensures forall i, j | 0 <= i < |g| && 0 <= j < |g[i]| :: g[i][j] <= r
    ensures exists i, j | 0 <= i < |g| && 0 <= j < |g[i]| :: r == g[i][j]
  {
    var m := RowMax(g[0]);
    if |g| == 1 then m
    else
      var rest := GridMax(g[1..]);
      assert forall i | 1 <= i < |g| :: g[i] == g[1..][i - 1];
      if m >= rest then m else rest
  }

  function RowMin(s: seq<real>): (r: real)
    requires |s| > 0
    ensures r in s
    ensures forall k | 0 <= k < |s| :: r <= s[k]
  {
    if |s| == 1 then s[0]
    else
      var m := RowMin(s[1..]);
      if s[0] <= m then s[0] else m
  }

  function RowMax(s: seq<real>): (r: real)
    requires |s| > 0
    ensures r in s
    ensures forall k | 0 <= k < |s| :: s[k] <= r
  {
    if |s| == 1 then s[0]
    else
      var m := RowMax(s[1..]);
      if s[0] >= m then s[0] else m
  }

  predicate Ascending(s: seq<int>)
  {
    forall a, b | 0 <= a < b < |s| :: s[a] <= s[b]
  }

  function Insert(x: int, s: seq<int>): (r: seq<int>)
    requires Ascending(s)
    ensures Ascending(r)
    ensures multiset(r) == multiset(s) + multiset{x}
  {
    if s == [] then [x]
    else if x <= s[0] then
      AscendingCons(x, s);
      [x] + s
    else
      var t := Insert(x, s[1..]);
      assert s == [s[0]] + s[1..];
      LowerBoundOfInsert(s[0], x, s[1..], t);
      AscendingCons(s[0], t);
      [s[0]] + t
  }

  lemma AscendingCons(h: int, t: seq<int>)
    requires Ascending(t)
    requires forall m | 0 <= m < |t| :: h <= t[m]
    ensures Ascending([h] + t)
  {
    var u := [h] + t;
    forall a, b | 0 <= a < b < |u|
      ensures u[a] <= u[b]
    {
      assert u[b] == t[b - 1];
      if a > 0 {
        assert u[a] == t[a - 1];
      }
    }
  }

  lemma LowerBoundOfInsert(h: int, x: int, s: seq<int>, t: seq<int>)
    requires h <= x
    requires forall m | 0 <= m < |s| :: h <= s[m]
    requires multiset(t) == multiset(s) + multiset{x}
    ensures forall m | 0 <= m < |t| :: h <= t[m]
  {
    forall m | 0 <= m < |t|
      ensures h <= t[m]
    {
      assert t[m] in multiset(t);
      if t[m] != x {
        assert t[m] in multiset(s);
        assert t[m] in s;
      }
    }
  }

  /** Insertion sort: an ascending permutation of its input. */
  function Sort(s: seq<int>): (r: seq<int>)
    ensures Ascending(r)
    ensures multiset(r) == multiset(s)
  {
    if s == [] then []
    else
      assert s == [s[0]] + s[1..];
      Insert(s[0], Sort(s[1..]))
  }

  /** How many values of s are at most x. */
  function CountAtMost(s: seq<int>, x: int): (c: nat)
    ensures c <= |s|
  {
    if s == [] then 0 else (if s[0] <= x then 1 else 0) + CountAtMost(s[1..], x)
  }

  /** How many values of s are at least x. */
  function CountAtLeast(s: seq<int>, x: int): (c: nat)
    ensures c <= |s|
  {
    if s == [] then 0 else (if s[0] >= x then 1 else 0) + CountAtLeast(s[1..], x)
  }

  /** Inserting y adds one to the counts y belongs to and leaves the others. */
  lemma {:induction false} CountInsert(y: int, t: seq<int>, x: int)
    requires Ascending(t)
    ensures CountAtMost(Insert(y, t), x) == CountAtMost(t, x) + (if y <= x then 1 else 0)
    ensures CountAtLeast(Insert(y, t), x) == CountAtLeast(t, x) + (if y >= x then 1 else 0)
  {
    if t != [] && y > t[0] {
      CountInsert(y, t[1..], x);
      assert Insert(y, t)[1..] == Insert(y, t[1..]);
    } else {
      assert ([y] + t)[1..] == t;
    }
  }

  /** Sorting leaves both counts unchanged. */
  lemma {:induction false} CountSort(s: seq<int>, x: int)
    ensures CountAtMost(Sort(s), x) == CountAtMost(s, x)
    ensures CountAtLeast(Sort(s), x) == CountAtLeast(s, x)
  {
    if s != [] {
      CountSort(s[1..], x);
      CountInsert(s[0], Sort(s[1..]), x);
    }
  }

  /** A sequence whose first p values are at most x has at least p of them. */
  lemma {:induction false} CountAtMostPrefix(t: seq<int>, x: int, p: nat)
    requires p <= |t|
    requires forall n | 0 <= n < p :: t[n] <= x
    ensures CountAtMost(t, x) >= p
  {
    if p > 0 {
      CountAtMostPrefix(t[1..], x, p - 1);
    }
  }

  /** A sequence whose values from position p on are at least x has at
      least |t| - p of them. */
  lemma {:induction false} CountAtLeastSuffix(t: seq<int>, x: int, p: nat)
    requires p <= |t|
    requires forall n | p <= n < |t| :: t[n] >= x
    ensures CountAtLeast(t, x) >= |t| - p
  {
    if t != [] {
      if p > 0 {
        CountAtLeastSuffix(t[1..], x, p - 1);
      } else {
        CountAtLeastSuffix(t[1..], x, 0);
      }
    }
  }

  /** Coordinate clamped into 0 .. n-1: the replicated border. */
  function Clamp(x: int, n: nat): (r: int)
    requires n > 0
    ensures 0 <= r < n
    ensures 0 <= x < n ==> r == x
    ensures x < 0 ==> r == 0
    ensures x >= n ==> r == n - 1
  {
    if x < 0 then 0 else if x >= n then n - 1 else x
  }

  lemma MulMonotone(a: int, b: int, c: int)
    requires a <= b && c >= 0
    ensures a * c <= b * c
  {
  }

  lemma DivOfMulAdd(q: int, r: int, k: int)
    requires k >= 1 && q >= 0 && 0 <= r < k
    ensures (q * k + r) / k == q && (q * k + r) % k == r
  {
    var n := q * k + r;
    var d := n / k;
    assert n == d * k + n % k;
    if d > q {
      MulMonotone(q + 1, d, k);
      assert false;
    } else if d < q {
      MulMonotone(d + 1, q, k);
      assert false;
    }
  }

  lemma AnchorIndex(k: int)
    requires k >= 1
    ensures 0 <= (k / 2) * k + k / 2 < k * k
    ensures ((k / 2) * k + k / 2) / k == k / 2
    ensures ((k / 2) * k + k / 2) % k == k / 2
  {
    var a := k / 2;
    MulMonotone(a + 1, k, k);
    DivOfMulAdd(a, a, k);
  }

  /** The k x k neighbourhood of pixel (i, j), row by row, with the anchor
      (the pixel itself) at offset (k/2, k/2); coordinates that fall off the
      grid are clamped to its edge. */
  function Window(g: seq<seq<int>>, i: int, j: int, k: int): (r: seq<int>)
    requires NonEmptyGrid(g) && 0 <= i < |g| && 0 <= j < |g[0]| && k >= 1
    ensures |r| == k * k
    ensures g[i][j] in r
    ensures forall n | 0 <= n < k * k ::
      r[n] == g[Clamp(i + n / k - k / 2, |g|)][Clamp(j + n % k - k / 2, |g[0]|)]
  {
    var r := seq(k * k, n requires 0 <= n < k * k =>
      g[Clamp(i + n / k - k / 2, |g|)][Clamp(j + n % k - k / 2, |g[0]|)]);
    AnchorIndex(k);
    assert r[(k / 2) * k + k / 2] == g[i][j];
    r
  }

  /** Every value in a window is a value of the grid. */
  lemma {:induction false} WindowOfBinary(g: seq<seq<int>>, i: int, j: int, k: int)
    requires NonEmptyGrid(g) && 0 <= i < |g| && 0 <= j < |g[0]| && k >= 1
    requires IsBinary(g)
    ensures BinarySeq(Window(g, i, j, k))
  {
    var w := Window(g, i, j, k);
    forall n | 0 <= n < k * k
      ensures w[n] == 0 || w[n] == 255
    {
      var a := Clamp(i + n / k - k / 2, |g|);
      var b := Clamp(j + n % k - k / 2, |g[0]|);
      assert |g[a]| == |g[0]|;
      assert w[n] == g[a][b];
    }
  }

  lemma {:induction false} WindowInByteRange(g: seq<seq<int>>, i: int, j: int, k: int)
    requires NonEmptyGrid(g) && 0 <= i < |g| && 0 <= j < |g[0]| && k >= 1
    requires InByteRange(g)
    ensures forall n | 0 <= n < k * k :: 0 <= Window(g, i, j, k)[n] <= 255
  {
    var w := Window(g, i, j, k);
    forall n | 0 <= n < k * k
      ensures 0 <= w[n] <= 255
    {
      var a := Clamp(i + n / k - k / 2, |g|);
      var b := Clamp(j + n % k - k / 2, |g[0]|);
      assert |g[a]| == |g[0]|;
      assert w[n] == g[a][b];
    }
  }

  /** A window over a constant grid holds only that constant. */
  lemma {:induction false} WindowOfConstant(g: seq<seq<int>>, i: int, j: int, k: int, v: int)
    requires NonEmptyGrid(g) && 0 <= i < |g| && 0 <= j < |g[0]| && k >= 1
    requires forall a, b | 0 <= a < |g| && 0 <= b < |g[a]| :: g[a][b] == v
    ensures forall n | 0 <= n < k * k :: Window(g, i, j, k)[n] == v
  {
    var w := Window(g, i, j, k);
    forall n | 0 <= n < k * k
      ensures w[n] == v
    {
      var a := Clamp(i + n / k - k / 2, |g|);
      var b := Clamp(j + n % k - k / 2, |g[0]|);
      assert |g[a]| == |g[0]|;
      assert w[n] == g[a][b];
    }
  }
}

/** The tensor primitives the Q-networks use, for one batch row.

    A tensor row is a `Vec`, a sequence of reals. Each function models one
    library operation the forward passes call: the Python slice `s[-k:]`,
    `torch.cat` along the feature axis, `F.pad` on the left, a `scatter` of a
    single 1 into a zero row, a first-maximum arg-max, and the arithmetic
    blend of two rows. The real arithmetic is exact; floating point is not
    modelled.
 */
module Tensors {
  import opened Wrappers

  type Vec = seq<real>

  predicate AllZero(v: Vec) {
    forall i :: 0 <= i < |v| ==> v[i] == 0.0
  }

  function Zeros(n: nat): (r: Vec)
    ensures |r| == n && AllZero(r)
  {
    seq(n, _ => 0.0)
  }

  /** Every row of `rows` is `w` wide. */
  predicate Uniform(rows: seq<Vec>, w: nat) {
    forall i :: 0 <= i < |rows| ==> |rows[i]| == w
  }

  /** `n` zero rows of width `w`. */
  function BlankRows(n: nat, w: nat): (r: seq<Vec>)
    ensures |r| == n && Uniform(r, w)
    ensures forall i :: 0 <= i < n ==> r[i] == Zeros(w)
  {
    seq(n, _ => Zeros(w))
  }

  /** Python's `s[-k:]`: the last `k` elements, or all of `s` when it is
      shorter. Since `-0 == 0`, `s[-0:]` is the whole of `s`. */
  function Last<T>(s: seq<T>, k: nat): (r: seq<T>)
    ensures |r| == if 1 <= k < |s| then k else |s|
  {
    if 1 <= k < |s| then s[|s| - k..] else s
  }

  /** `torch.cat(rows, dim=-1)`: the rows side by side, in order. */
  function Cat(rows: seq<Vec>): Vec
  {
    if |rows| == 0 then [] else rows[0] + Cat(rows[1..])
  }

  /** The `j`-th block of width `w` of `v`, or `[]` when `v` is too short. */
  function Slot(v: Vec, w: nat, j: nat): Vec
  {
    if j * w + w <= |v| then v[j * w..j * w + w] else []
  }

  /** `F.pad(v, pad=(n - |v|, 0))`: a positive amount puts that many zeros in
      front of `v`, a negative one cuts that many entries off its front. */
  function LeftPad(v: Vec, n: nat): (r: Vec)
    ensures |r| == n
    ensures |v| <= n ==> AllZero(r[..n - |v|]) && r[n - |v|..] == v
    ensures n < |v| ==> r == v[|v| - n..]
  {
    if |v| <= n then Zeros(n - |v|) + v else v[|v| - n..]
  }

  /** A zero row of width `n` with a 1 at position `k`; when `k` lies outside
      `[0, n)` the row stays zero. */
  function OneHot(n: nat, k: int): (r: Vec)
    ensures |r| == n
    ensures 0 <= k < n ==> r[k] == 1.0
    ensures forall j :: 0 <= j < n && j != k ==> r[j] == 0.0
  {
    seq(n, j => if j == k then 1.0 else 0.0)
  }

  /** `torch.zeros(n).scatter(-1, k, 1)`: the one-hot row, or the index error
      torch raises when `k` lies outside `[0, n)`. */
  function Scatter(n: nat, k: int): (r: Result<Vec>)
    ensures r.Ok? <==> 0 <= k < n
    ensures r.Ok? ==> |r.value| == n && r.value[k] == 1.0
    ensures r.Ok? ==> forall j :: 0 <= j < n && j != k ==> r.value[j] == 0.0
  {
    if 0 <= k < n then Ok(OneHot(n, k)) else Err(IndexOutOfRange)
  }

  function Sum(v: Vec): real
  {
    if |v| == 0 then 0.0 else Sum(v[..|v| - 1]) + v[|v| - 1]
  }

  /** `m` is the position of a largest entry of `v`. */
  predicate IsMaxIndex(v: Vec, m: nat) {
    m < |v| && forall j :: 0 <= j < |v| ==> v[j] <= v[m]
  }

  /** `row` is the one-hot row, as wide as `v`, of some largest entry of
      `v`. */
  ghost predicate OneHotAtMax(v: Vec, row: Vec) {
    exists m: nat :: IsMaxIndex(v, m) && row == OneHot(|v|, m)
  }

  /** The position of the first largest entry of `v` (0 for an empty row):
      one of the choices `v.topk(1)[1]` may make. */
  function ArgMax(v: Vec): (m: nat)
    ensures |v| > 0 ==> IsMaxIndex(v, m) && forall j :: 0 <= j < m ==> v[j] < v[m]
  {
    if |v| <= 1 then 0
    else
      var p := ArgMax(v[..|v| - 1]);
      if v[p] < v[|v| - 1] then |v| - 1 else p
  }

  /** `t * y1 + (1 - t) * y0`, entry by entry. */
  function Blend(t: real, y1: Vec, y0: Vec): (r: Vec)
    requires |y1| == |y0|
    ensures |r| == |y0|
    ensures t == 0.0 ==> r == y0
    ensures t == 1.0 ==> r == y1
  {
    var r := seq(|y0|, i requires 0 <= i < |y0| => t * y1[i] + (1.0 - t) * y0[i]);
    assert t == 0.0 ==> forall i :: 0 <= i < |y0| ==> r[i] == y0[i];
    assert t == 1.0 ==> forall i :: 0 <= i < |y0| ==> r[i] == y1[i];
    r
  }

  // ---------------------------------------------------------------------
  // Properties of concatenation, padding and one-hot rows
  // ---------------------------------------------------------------------

  lemma {:induction false} CatAppend(a: seq<Vec>, b: seq<Vec>)
    ensures Cat(a + b) == Cat(a) + Cat(b)
  {
    if |a| == 0 {
      assert a + b == b;
    } else {
      assert (a + b)[1..] == a[1..] + b;
      CatAppend(a[1..], b);
    }
  }

  /** Zero rows side by side are one zero row. */
  lemma {:induction false} CatZeros(m: nat, w: nat)
    ensures Cat(BlankRows(m, w)) == Zeros(m * w)
  {
    var rows := BlankRows(m, w);
    if m > 0 {
      assert rows[1..] == BlankRows(m - 1, w);
      CatZeros(m - 1, w);
      assert m * w == w + (m - 1) * w;
      assert Zeros(w) + Zeros((m - 1) * w) == Zeros(m * w);
    }
  }

  function ZeroRows(n: nat, w: nat): (r: Vec)
    ensures |r| == n * w && AllZero(r)
  {
    CatZeros(n, w);
    Cat(BlankRows(n, w))
  }

  /** `k` rows of width `w` fit in `step` of them, leaving `step - k`. */
  lemma PadWidth(k: nat, step: nat, w: nat)
    requires k <= step
    ensures k * w <= w * step
    ensures w * step - k * w == (step - k) * w == w * (step - k)
  {
    var p := step - k;
    assert step == p + k;
    assert w * step == w * (p + k);
    assert w * (p + k) == w * p + w * k;
  }

  lemma MulAddRight(a: nat, b: nat, c: nat)
    ensures (a + b) * c == a * c + b * c
  {
  }

  lemma SlotFront(a: Vec, b: Vec, w: nat)
    requires |a| == w
    ensures Slot(a + b, w, 0) == a
  {
    assert (a + b)[..w] == a;
  }

  lemma SlotShift(a: Vec, b: Vec, w: nat, j: nat)
    requires |a| == w && j >= 1
    ensures Slot(a + b, w, j) == Slot(b, w, j - 1)
  {
    var k := j - 1;
    assert j * w == k * w + w;
    if k * w + w <= |b| {
      assert (a + b)[j * w..j * w + w] == b[k * w..k * w + w];
    }
  }

  /** Concatenation keeps widths and order: block `j` of `Cat(rows)` is
      `rows[j]`. */
  lemma {:induction false} CatUniform(rows: seq<Vec>, w: nat)
    requires Uniform(rows, w)
    ensures |Cat(rows)| == |rows| * w
    ensures forall j :: 0 <= j < |rows| ==> Slot(Cat(rows), w, j) == rows[j]
  {
    if |rows| > 0 {
      var tail := rows[1..];
      CatUniform(tail, w);
      assert |rows| * w == w + |tail| * w;
      forall j | 0 <= j < |rows|
        ensures Slot(Cat(rows), w, j) == rows[j]
      {
        if j == 0 {
          SlotFront(rows[0], Cat(tail), w);
        } else {
          SlotShift(rows[0], Cat(tail), w, j);
          assert tail[j - 1] == rows[j];
        }
      }
    }
  }

  lemma {:induction false} SumZero(v: Vec)
    requires AllZero(v)
    ensures Sum(v) == 0.0
  {
    if |v| > 0 {
      SumZero(v[..|v| - 1]);
    }
  }

  /** A row that is zero outside position `k` sums to its entry at `k`. */
  lemma {:induction false} SumSingle(v: Vec, k: nat)
    requires k < |v|
    requires forall j :: 0 <= j < |v| && j != k ==> v[j] == 0.0
    ensures Sum(v) == v[k]
  {
    var front := v[..|v| - 1];
    if k == |v| - 1 {
      SumZero(front);
    } else {
      SumSingle(front, k);
    }
  }

  /** A one-hot row holds exactly one non-zero entry, the 1 at `k`, so its
      entries sum to 1. */
  lemma OneHotExactlyOne(n: nat, k: int)
    requires 0 <= k < n
    ensures forall j :: 0 <= j < n ==> (OneHot(n, k)[j] != 0.0 <==> j == k)
    ensures Sum(OneHot(n, k)) == 1.0
  {
    SumSingle(OneHot(n, k), k);
  }
}

/** Complex cells and the flat row-major buffers behind the impedance and
    tipper arrays of ZongeMTAvg: an (n, 2, 2) array is a buffer of width 4
    whose cell (l, i, j) sits at l * 4 + 2 * i + j, an (n, 1, 2) array one
    of width 2. */
module Tensor {
  import opened Failures

  /** A complex number; the values are exact, so no rounding is modelled. */
  datatype Cplx = Cplx(re: real, im: real)

  const Zero := Cplx(0.0, 0.0)

  function Add(a: Cplx, b: Cplx): (r: Cplx)
    ensures r.re == a.re + b.re && r.im == a.im + b.im
  {
    Cplx(a.re + b.re, a.im + b.im)
  }

  /** -1 * z. */
  function Neg(a: Cplx): (r: Cplx)
    ensures Add(a, r) == Zero
  {
    Cplx(-a.re, -a.im)
  }

  /** z / 2. */
  function Half(a: Cplx): (r: Cplx)
    ensures Add(r, r) == a
  {
    Cplx(a.re / 2.0, a.im / 2.0)
  }

  /** Halving a doubled value gives it back. */
  lemma HalfTwice(a: Cplx)
    ensures Half(Add(a, a)) == a
  {
  }

  /** The i-th cell of column col in a buffer of the given width. */
  function Cell(width: nat, l: nat, col: nat): nat
  {
    l * width + col
  }

  lemma MulStep(a: nat, w: nat)
    ensures (a + 1) * w == a * w + w
  {
  }

  lemma {:induction false} MulMono(a: nat, b: nat, w: nat)
    requires a <= b
    ensures a * w <= b * w
    decreases b - a
  {
    if a < b {
      MulMono(a + 1, b, w);
      MulStep(a, w);
    }
  }

  /** Cells of one column in different rows, or of different columns, are
      different positions. */
  lemma CellsDistinct(width: nat, l1: nat, c1: nat, l2: nat, c2: nat)
    requires c1 < width && c2 < width && (l1 != l2 || c1 != c2)
    ensures Cell(width, l1, c1) != Cell(width, l2, c2)
  {
    if l1 < l2 {
      MulStep(l1, width);
      MulMono(l1 + 1, l2, width);
    } else if l2 < l1 {
      MulStep(l2, width);
      MulMono(l2 + 1, l1, width);
    }
  }

  /** A cell of one of the first `rows` rows lies inside them. */
  lemma CellInRows(width: nat, l: nat, col: nat, rows: nat)
    requires col < width && l < rows
    ensures Cell(width, l, col) < rows * width
  {
    MulStep(l, width);
    MulMono(l + 1, rows, width);
  }

  /** A cell lies inside the first `rows` rows exactly when its row does. */
  lemma CellRow(width: nat, l: nat, col: nat, rows: nat)
    requires col < width
    ensures Cell(width, l, col) < rows * width <==> l < rows
  {
    if l < rows {
      CellInRows(width, l, col, rows);
    } else {
      MulMono(rows, l, width);
    }
  }

  /** np.zeros of a larger shape with the old buffer copied over its first
      rows: the old cells come first, zeros fill the rest. */
  function Grow<T>(buf: seq<T>, size: nat, zero: T): (r: seq<T>)
    requires |buf| <= size
    ensures |r| == size && r[..|buf|] == buf
    ensures forall i :: |buf| <= i < size ==> r[i] == zero
  {
    buf + seq(size - |buf|, _ => zero)
  }

  /** The whole-column update `a[:, i, j] = v` (or `+=` with f an addition):
      rows 0 .. |vals|-1 of column col, one after another. */
  function ColumnUpdate<T>(buf: seq<T>, width: nat, col: nat, vals: seq<T>, f: (T, T) -> T): (r: seq<T>)
    requires col < width && |vals| * width <= |buf|
    ensures |r| == |buf|
  {
    if |vals| == 0 then buf
    else
      var prev := ColumnUpdate(buf, width, col, vals[..|vals| - 1], f);
      var at := Cell(width, |vals| - 1, col);
      CellInRows(width, |vals| - 1, col, |vals|);
      prev[at := f(prev[at], vals[|vals| - 1])]
  }

  /** A column update sets every cell of the column from its value and
      leaves every cell outside it alone. */
  lemma {:induction false} ColumnUpdateCells<T>(buf: seq<T>, width: nat, col: nat, vals: seq<T>, f: (T, T) -> T)
    requires col < width && |vals| * width <= |buf|
    ensures forall l :: 0 <= l < |vals| ==>
              Cell(width, l, col) < |buf| &&
              ColumnUpdate(buf, width, col, vals, f)[Cell(width, l, col)] == f(buf[Cell(width, l, col)], vals[l])
    ensures forall p :: 0 <= p < |buf| && (forall l :: 0 <= l < |vals| ==> p != Cell(width, l, col)) ==>
              ColumnUpdate(buf, width, col, vals, f)[p] == buf[p]
  {
    if |vals| > 0 {
      var n := |vals| - 1;
      var front := vals[..n];
      MulMono(n, |vals|, width);
      ColumnUpdateCells(buf, width, col, front, f);
      var prev := ColumnUpdate(buf, width, col, front, f);
      forall l | 0 <= l < n
        ensures Cell(width, l, col) != Cell(width, n, col)
      {
        CellsDistinct(width, l, col, n, col);
      }
      CellInRows(width, n, col, |vals|);
      forall l | 0 <= l < |vals|
        ensures Cell(width, l, col) < |buf|
      {
        CellInRows(width, l, col, |vals|);
      }
    }
  }

  /** The outcome of a run of writes that may stop at an exception. */
  datatype Written<T> = Written(buf: seq<T>, failure: Option<Failure>)

  /** The keyed update `a[ll, i, j] = v` (or `+=`) for kk = 0 .. n-1, where
      ll is the dictionary's entry for the kk-th key: a missing key raises
      KeyError, a row past the end raises IndexError, and the writes made
      before the exception stay. */
  function ScatterUpTo<T>(buf: seq<T>, width: nat, col: nat, keys: seq<string>, index: map<string, nat>,
                          vals: seq<T>, f: (T, T) -> T, n: nat): (w: Written<T>)
    requires col < width && n <= |keys| && n <= |vals|
    ensures |w.buf| == |buf|
  {
    if n == 0 then Written(buf, None)
    else
      var prev := ScatterUpTo(buf, width, col, keys, index, vals, f, n - 1);
      if prev.failure.Some? then prev
      else if keys[n - 1] !in index then Written(prev.buf, Some(KeyError(keys[n - 1])))
      else if Cell(width, index[keys[n - 1]], col) >= |buf| then Written(prev.buf, Some(IndexError(keys[n - 1])))
      else
        var at := Cell(width, index[keys[n - 1]], col);
        Written(prev.buf[at := f(prev.buf[at], vals[n - 1])], None)
  }

  lemma {:induction false} ScatterStopped<T>(buf: seq<T>, width: nat, col: nat, keys: seq<string>,
                                            index: map<string, nat>, vals: seq<T>, f: (T, T) -> T, i: nat, n: nat)
    requires col < width && i <= n <= |keys| && n <= |vals|
    requires ScatterUpTo(buf, width, col, keys, index, vals, f, i).failure.Some?
    ensures ScatterUpTo(buf, width, col, keys, index, vals, f, n) == ScatterUpTo(buf, width, col, keys, index, vals, f, i)
    decreases n - i
  {
    if i < n { ScatterStopped(buf, width, col, keys, index, vals, f, i, n - 1); }
  }

  /** The keyed update fails exactly when some key is missing or names a row
      past the end, and it only ever touches column col. */
  lemma {:induction false} ScatterFacts<T>(buf: seq<T>, width: nat, col: nat, keys: seq<string>,
                                          index: map<string, nat>, vals: seq<T>, f: (T, T) -> T, n: nat)
    requires col < width && n <= |keys| && n <= |vals|
    ensures ScatterUpTo(buf, width, col, keys, index, vals, f, n).failure.None? <==>
              forall k :: 0 <= k < n ==> keys[k] in index && Cell(width, index[keys[k]], col) < |buf|
    ensures forall l: nat, c :: 0 <= c < width && c != col && Cell(width, l, c) < |buf| ==>
              ScatterUpTo(buf, width, col, keys, index, vals, f, n).buf[Cell(width, l, c)] == buf[Cell(width, l, c)]
  {
    if n > 0 {
      ScatterFacts(buf, width, col, keys, index, vals, f, n - 1);
      var prev := ScatterUpTo(buf, width, col, keys, index, vals, f, n - 1);
      if prev.failure.None? && keys[n - 1] in index {
        var ll := index[keys[n - 1]];
        forall l: nat, c | 0 <= c < width && c != col
          ensures Cell(width, l, c) != Cell(width, ll, col)
        {
          CellsDistinct(width, l, c, ll, col);
        }
      }
    }
  }

  /** The same function applied to every cell (`a /= 2`). */
  function MapCells<T>(buf: seq<T>, f: T -> T): (r: seq<T>)
    ensures |r| == |buf| && forall i :: 0 <= i < |buf| ==> r[i] == f(buf[i])
  {
    seq(|buf|, i requires 0 <= i < |buf| => f(buf[i]))
  }

  /** A fresh array of `size` cells holding the old ones first and zeros
      after them. */
  method GrowArray<T>(a: array<T>, size: nat, zero: T) returns (b: array<T>)
    requires a.Length <= size
    ensures fresh(b) && b[..] == Grow(a[..], size, zero)
  {
    b := new T[size](_ => zero);
    var i := 0;
    while i < a.Length
      invariant 0 <= i <= a.Length
      invariant b[..i] == a[..i]
      invariant forall k :: i <= k < size ==> b[k] == zero
    {
      b[i] := a[i];
      i := i + 1;
    }
    assert b[..] == b[..a.Length] + b[a.Length..];
    assert b[a.Length..] == seq(size - a.Length, _ => zero);
  }

  /** `a[:, i, j] = v` or `+=`: the rows of one column, in order. */
  method UpdateColumn<T>(a: array<T>, width: nat, col: nat, vals: seq<T>, f: (T, T) -> T)
    requires col < width && |vals| * width <= a.Length
    modifies a
    ensures a[..] == ColumnUpdate(old(a[..]), width, col, vals, f)
  {
    var l := 0;
    while l < |vals|
      invariant 0 <= l <= |vals|
      invariant l * width <= |vals| * width
      invariant a[..] == ColumnUpdate(old(a[..]), width, col, vals[..l], f)
    {
      CellInRows(width, l, col, |vals|);
      var at := l * width + col;
      assert vals[..l + 1][..l] == vals[..l];
      a[at] := f(a[at], vals[l]);
      MulMono(l + 1, |vals|, width);
      l := l + 1;
    }
    assert vals[..l] == vals;
  }

  /** Whether the keyed update stops depends on the keys, the index and
      the buffer's size only, not on what is written. */
  lemma {:induction false} ScatterFailureAgrees<T, U>(a: seq<T>, b: seq<U>, width: nat, col: nat, keys: seq<string>,
                                                    index: map<string, nat>, va: seq<T>, vb: seq<U>,
                                                    fa: (T, T) -> T, fb: (U, U) -> U, n: nat)
    requires col < width && n <= |keys| && n <= |va| && n <= |vb| && |a| == |b|
    ensures ScatterUpTo(a, width, col, keys, index, va, fa, n).failure == ScatterUpTo(b, width, col, keys, index, vb, fb, n).failure
  {
    if n > 0 { ScatterFailureAgrees(a, b, width, col, keys, index, va, vb, fa, fb, n - 1); }
  }

  /** The keyed loop `for kk: a[ll, i, j] = va[kk]; b[ll, i, j] = vb[kk]`
      (or `+=`) with ll the index's entry for the kk-th key, stopping at the
      first missing key or row past the end; a holds the complex values and
      b their errors. */
  method ScatterColumns(a: array<Cplx>, b: array<real>, width: nat, col: nat, keys: seq<string>,
                        index: map<string, nat>, va: seq<Cplx>, vb: seq<real>, fa: (Cplx, Cplx) -> Cplx,
                        fb: (real, real) -> real, n: nat) returns (failure: Option<Failure>)
    requires col < width && n <= |keys| && n <= |va| && n <= |vb| && a.Length == b.Length
    modifies a, b
    ensures Written(a[..], failure) == ScatterUpTo(old(a[..]), width, col, keys, index, va, fa, n)
    ensures Written(b[..], failure) == ScatterUpTo(old(b[..]), width, col, keys, index, vb, fb, n)
  {
    ghost var bufA, bufB := a[..], b[..];
    failure := None;
    var kk := 0;
    while kk < n && failure.None?
      invariant 0 <= kk <= n
      invariant Written(a[..], failure) == ScatterUpTo(bufA, width, col, keys, index, va, fa, kk)
      invariant Written(b[..], failure) == ScatterUpTo(bufB, width, col, keys, index, vb, fb, kk)
    {
      var key := keys[kk];
      if key !in index {
        failure := Some(KeyError(key));
      } else if index[key] * width + col >= a.Length {
        failure := Some(IndexError(key));
      } else {
        var at := index[key] * width + col;
        a[at] := fa(a[at], va[kk]);
        b[at] := fb(b[at], vb[kk]);
      }
      kk := kk + 1;
    }
    if failure.Some? {
      ScatterStopped(bufA, width, col, keys, index, va, fa, kk, n);
      ScatterStopped(bufB, width, col, keys, index, vb, fb, kk, n);
    }
  }

  /** `a /= 2` and the like: every cell replaced by f of itself. */
  method MapArray<T>(a: array<T>, f: T -> T)
    modifies a
    ensures a[..] == MapCells(old(a[..]), f)
  {
    var i := 0;
    while i < a.Length
      invariant 0 <= i <= a.Length
      invariant forall k :: 0 <= k < i ==> a[k] == f(old(a[k]))
      invariant forall k :: i <= k < a.Length ==> a[k] == old(a[k])
    {
      a[i] := f(a[i]);
      i := i + 1;
    }
  }
}

/** What ZongeMTAvg.fill_Z and fill_Tipper do to the impedance and tipper
    buffers, on values: the frequency count and list taken from the
    components of the file, the shared frequency-key index, growth, and the
    per-component column writes. */
module Fill {
  import opened Failures
  import opened Text
  import opened Tensor
  import opened AvgFile

  /** The numerical pieces the model leaves uninterpreted: the
      '{0:.4g}'.format key of a frequency, convert2complex for one
      magnitude and phase (in milliradians), and the modulus
      sqrt(re**2 + im**2). */
  datatype Numerics = Numerics(key: real -> string, polar: (real, real) -> Cplx, modulus: Cplx -> real)

  /** The freq field of every row. */
  function FreqColumn(rows: seq<AvgRow>): (r: seq<real>)
    ensures |r| == |rows| && forall i :: 0 <= i < |rows| ==> r[i] == rows[i].freq
  {
    seq(|rows|, i requires 0 <= i < |rows| => rows[i].freq)
  }

  /** x[np.nonzero(x)]: the non-zero entries in order. */
  function Nonzero(xs: seq<real>): (r: seq<real>)
    ensures |r| <= |xs| && forall i :: 0 <= i < |r| ==> r[i] != 0.0
  {
    if |xs| == 0 then []
    else Nonzero(xs[..|xs| - 1]) + if xs[|xs| - 1] != 0.0 then [xs[|xs| - 1]] else []
  }

  /** A list with no zero entry is its own non-zero part. */
  lemma {:induction false} NonzeroAll(xs: seq<real>)
    requires forall i :: 0 <= i < |xs| ==> xs[i] != 0.0
    ensures Nonzero(xs) == xs
  {
    if |xs| > 0 {
      NonzeroAll(xs[..|xs| - 1]);
    }
  }

  /** flst: the number of non-zero frequencies of every listed component;
      a component missing from comp_dict raises KeyError. */
  function Counts(table: Table, comps: seq<string>): (r: Result<seq<nat>>)
    ensures r.Ok? <==> forall k :: 0 <= k < |comps| ==> comps[k] in table
    ensures r.Ok? ==> |r.value| == |comps| &&
                      forall k :: 0 <= k < |comps| ==> r.value[k] == |Nonzero(FreqColumn(table[comps[k]]))|
  {
    if |comps| == 0 then Ok([])
    else
      var front := Counts(table, comps[..|comps| - 1]);
      var last := comps[|comps| - 1];
      if front.Err? then front
      else if last !in table then Err(KeyError(last))
      else Ok(front.value + [|Nonzero(FreqColumn(table[last]))|])
  }

  /** flst.max(). */
  function Max(xs: seq<nat>): (m: nat)
    requires |xs| > 0
    ensures m in xs && forall i :: 0 <= i < |xs| ==> xs[i] <= m
  {
    if |xs| == 1 then xs[0]
    else
      var m := Max(xs[..|xs| - 1]);
      assert m in xs[..|xs| - 1];
      if xs[|xs| - 1] > m then xs[|xs| - 1] else m
  }

  /** np.where(flst == v)[0][0]: the first position holding v. */
  function FirstAt(xs: seq<nat>, v: nat): (i: nat)
    requires v in xs
    ensures i < |xs| && xs[i] == v && forall j :: 0 <= j < i ==> xs[j] != v
  {
    if xs[0] == v then 0 else FirstAt(xs[1..], v) + 1
  }

  /** nz and freq: the largest count among the listed components and the
      non-zero frequencies of the first component that has it. */
  datatype Freqs = Freqs(nz: nat, freq: seq<real>)

  /** The start of fill_Z and fill_Tipper: max() of no components raises
      ValueError. */
  function FreqSetup(table: Table, comps: seq<string>): (r: Result<Freqs>)
    ensures r.Ok? ==> |r.value.freq| == r.value.nz
  {
    var counts := Counts(table, comps);
    if counts.Err? then Err(counts.failure)
    else if |counts.value| == 0 then Err(ValueError("max() of an empty sequence"))
    else
      var nz := Max(counts.value);
      var c := comps[FirstAt(counts.value, nz)];
      Ok(Freqs(nz, Nonzero(FreqColumn(table[c]))))
  }

  /** The setup fails exactly when no component is listed or one is missing;
      otherwise nz is the largest count, reached by the component whose
      frequencies are taken, and no earlier component reaches it. */
  lemma FreqSetupFacts(table: Table, comps: seq<string>)
    ensures FreqSetup(table, comps).Ok? <==> |comps| > 0 && forall k :: 0 <= k < |comps| ==> comps[k] in table
    ensures FreqSetup(table, comps).Ok? ==>
              var fs := FreqSetup(table, comps).value;
              (forall k :: 0 <= k < |comps| ==> |Nonzero(FreqColumn(table[comps[k]]))| <= fs.nz) &&
              exists k :: 0 <= k < |comps| && fs.freq == Nonzero(FreqColumn(table[comps[k]])) &&
                          (forall j :: 0 <= j < k ==> |Nonzero(FreqColumn(table[comps[j]]))| < fs.nz)
  {
    var counts := Counts(table, comps);
    if counts.Ok? && |counts.value| > 0 {
      var nz := Max(counts.value);
      var k := FirstAt(counts.value, nz);
      forall j | 0 <= j < k ensures |Nonzero(FreqColumn(table[comps[j]]))| < nz {
        assert counts.value[j] <= nz && counts.value[j] != nz;
      }
    }
  }

  /** dict(('{0:.4g}'.format(ff), nn) for nn, ff in enumerate(freq)) over
      the first n frequencies; a repeated key keeps its last position. */
  function FreqIndex(freq: seq<real>, key: real -> string, n: nat): map<string, nat>
    requires n <= |freq|
  {
    if n == 0 then map[] else FreqIndex(freq, key, n - 1)[key(freq[n - 1]) := n - 1]
  }

  /** The index has a key for every frequency and nothing else; each entry
      is a position whose frequency has that key; and when the keys of the
      frequencies are all different, frequency i is found at position i. */
  lemma {:induction false} FreqIndexFacts(freq: seq<real>, key: real -> string, n: nat)
    requires n <= |freq|
    ensures forall k :: k in FreqIndex(freq, key, n) <==> exists i :: 0 <= i < n && key(freq[i]) == k
    ensures forall k :: k in FreqIndex(freq, key, n) ==>
              FreqIndex(freq, key, n)[k] < n && key(freq[FreqIndex(freq, key, n)[k]]) == k
    ensures (forall i, j :: 0 <= i < j < n ==> key(freq[i]) != key(freq[j])) ==>
              forall i :: 0 <= i < n ==> FreqIndex(freq, key, n)[key(freq[i])] == i
  {
    if n > 0 {
      FreqIndexFacts(freq, key, n - 1);
    }
  }

  /** x[:nz] in Python, clamped to the list. */
  function Take(rows: seq<AvgRow>, nz: nat): (r: seq<AvgRow>)
    ensures |r| <= nz && |r| <= |rows| && r == rows[..|r|]
    ensures nz <= |rows| ==> |r| == nz
  {
    if nz <= |rows| then rows[..nz] else rows
  }

  /** comp_index: the (i, j) position of every component. */
  const CompIndex: map<string, (nat, nat)> :=
    map["zxx" := (0, 0), "zxy" := (0, 1), "zyx" := (1, 0), "zyy" := (1, 1), "tzx" := (0, 0), "tzy" := (0, 1)]

  /** The cell of a frequency row that the (i, j) of ikey names: i * 2 + j.
      A row of Z is [xx, xy, yx, yy] and a row of the tipper [zx, zy]. */
  function Col(lay: Layout, ikey: string): nat
    requires ikey in lay.index
  {
    lay.index[ikey].0 * 2 + lay.index[ikey].1
  }

  /** How one kind of array is filled from a component: the component
      positions (comp_index), the width of a frequency row of the buffer,
      the value and error of a row of the file, and how a new value meets
      the cell (`=` or `+=`). */
  datatype Layout = Layout(index: map<string, (nat, nat)>, width: nat, value: (string, AvgRow) -> Cplx, error: (string, AvgRow) -> real,
                           setV: (Cplx, Cplx) -> Cplx, setE: (real, real) -> real)

  /** The outcome of writing components into a value and an error buffer. */
  datatype Bufs = Bufs(vals: seq<Cplx>, errs: seq<real>, failure: Option<Failure>)

  /** The mode of a component's write: the whole column (nz equals the
      buffer's row count) or, row by row, the row the index gives for each
      frequency's key. */
  datatype Mode = Column | Keyed(key: real -> string, index: map<string, nat>)

  /** The values, errors and frequency keys of the first nz rows of a
      component. */
  function Values(lay: Layout, ikey: string, rows: seq<AvgRow>): (r: seq<Cplx>)
    ensures |r| == |rows| && forall l :: 0 <= l < |rows| ==> r[l] == lay.value(ikey, rows[l])
  {
    seq(|rows|, l requires 0 <= l < |rows| => lay.value(ikey, rows[l]))
  }

  function Errors(lay: Layout, ikey: string, rows: seq<AvgRow>): (r: seq<real>)
    ensures |r| == |rows| && forall l :: 0 <= l < |rows| ==> r[l] == lay.error(ikey, rows[l])
  {
    seq(|rows|, l requires 0 <= l < |rows| => lay.error(ikey, rows[l]))
  }

  function Keys(key: real -> string, rows: seq<AvgRow>): (r: seq<string>)
    ensures |r| == |rows| && forall l :: 0 <= l < |rows| ==> r[l] == key(rows[l].freq)
  {
    seq(|rows|, l requires 0 <= l < |rows| => key(rows[l].freq))
  }

  /** One pass of the component loop: comp_index[ikey] and comp_dict[ikey]
      must exist, the column must fit the width, and then the first nz rows
      of the component are written in the mode given. The model raises
      ValueError for every whole-column assignment whose length is not the
      buffer's row count, before anything is written to that buffer. numpy
      would broadcast a column of a single row instead; a column falls short
      of the buffer only for a component with fewer than nz rows, that is,
      in a table whose components differ in length. */
  function CompUpdate(b: Bufs, table: Table, ikey: string, nz: nat, mode: Mode, lay: Layout): (r: Bufs)
    ensures |r.vals| == |b.vals| && |r.errs| == |b.errs|
  {
    if ikey !in lay.index then b.(failure := Some(KeyError(ikey)))
    else if ikey !in table then b.(failure := Some(KeyError(ikey)))
    else
      var col := Col(lay, ikey);
      if col >= lay.width then b.(failure := Some(IndexError(ikey)))
      else
        var rows := Take(table[ikey], nz);
        var vals := Values(lay, ikey, rows);
        var errs := Errors(lay, ikey, rows);
        match mode
        case Column =>
          if |rows| * lay.width != |b.vals| then b.(failure := Some(ValueError(ikey)))
          else
            var vs := ColumnUpdate(b.vals, lay.width, col, vals, lay.setV);
            if |rows| * lay.width != |b.errs| then Bufs(vs, b.errs, Some(ValueError(ikey)))
            else Bufs(vs, ColumnUpdate(b.errs, lay.width, col, errs, lay.setE), None)
        case Keyed(key, index) =>
          var keys := Keys(key, rows);
          var wv := ScatterUpTo(b.vals, lay.width, col, keys, index, vals, lay.setV, |rows|);
          var we := ScatterUpTo(b.errs, lay.width, col, keys, index, errs, lay.setE, |rows|);
          Bufs(wv.buf, we.buf, wv.failure)
  }

  /** The component loop over the first n components, stopping at the first
      exception. */
  function CompsUpTo(b: Bufs, table: Table, comps: seq<string>, nz: nat, mode: Mode, lay: Layout, n: nat): (r: Bufs)
    requires n <= |comps|
    ensures |r.vals| == |b.vals| && |r.errs| == |b.errs|
  {
    if n == 0 then b
    else
      var prev := CompsUpTo(b, table, comps, nz, mode, lay, n - 1);
      if prev.failure.Some? then prev else CompUpdate(prev, table, comps[n - 1], nz, mode, lay)
  }

  lemma {:induction false} CompsStopped(b: Bufs, table: Table, comps: seq<string>, nz: nat, mode: Mode, lay: Layout,
                                        i: nat, n: nat)
    requires i <= n <= |comps|
    requires CompsUpTo(b, table, comps, nz, mode, lay, i).failure.Some?
    ensures CompsUpTo(b, table, comps, nz, mode, lay, n) == CompsUpTo(b, table, comps, nz, mode, lay, i)
    decreases n - i
  {
    if i < n { CompsStopped(b, table, comps, nz, mode, lay, i, n - 1); }
  }

  /** `ikey.find('yx') > 0`. */
  predicate IsYx(ikey: string)
  {
    Find(ikey, "yx") > 0
  }

  /** fill_Z's layout: (n, 2, 2) cells, zyx stored negated, the error
      %err * 0.005, every write an assignment. */
  function ZLayout(num: Numerics): Layout
  {
    Layout(CompIndex, 4,
           (ikey: string, row: AvgRow) => if IsYx(ikey) then Neg(num.polar(row.zMag, row.zPhz)) else num.polar(row.zMag, row.zPhz),
           (ikey: string, row: AvgRow) => row.aResErr * 0.005,
           (prev: Cplx, v: Cplx) => v, (prev: real, v: real) => v)
  }

  /** fill_Tipper's layout: (n, 1, 2) cells, the error
      %err * 0.05 * |t|, assigned on the first call and added on later
      ones. */
  function TipLayout(num: Numerics, accumulate: bool): Layout
  {
    Layout(CompIndex, 2,
           (ikey: string, row: AvgRow) => num.polar(row.zMag, row.zPhz),
           (ikey: string, row: AvgRow) => TipError(num, row),
           if accumulate then (prev: Cplx, v: Cplx) => Add(prev, v) else (prev: Cplx, v: Cplx) => v,
           if accumulate then (prev: real, v: real) => prev + v else (prev: real, v: real) => v)
  }

  /** A tipper cell's error: the row's %err scaled by 0.05 and by the
      modulus of the cell's value. */
  function TipError(num: Numerics, row: AvgRow): real
  {
    row.aResErr * 0.05 * num.modulus(num.polar(row.zMag, row.zPhz))
  }

  /** The attributes of ZongeMTAvg both fills work on: Z.z, Z.zerr, Z.freq,
      nfreq (0 for None), Tipper.tipper (absent until the first fill,
      hasTip), Tipper.tipper_err, Tipper.freq, nfreq_tipper and the shared
      freq_dict. */
  datatype Tensors = Tensors(z: seq<Cplx>, zerr: seq<real>, zFreq: seq<real>, nfreq: nat,
                             tip: seq<Cplx>, tipErr: seq<real>, tipFreq: seq<real>, nfreqTip: nat, hasTip: bool,
                             freqDict: map<string, nat>)

  /** Z holds nfreq rows of 2 x 2 cells and the tipper nfreq_tipper rows of
      1 x 2 cells. */
  predicate Shaped(t: Tensors)
  {
    |t.z| == 4 * t.nfreq && |t.zerr| == 4 * t.nfreq && |t.tip| == 2 * t.nfreqTip && |t.tipErr| == 2 * t.nfreqTip
  }

  datatype Filled = Filled(t: Tensors, failure: Option<Failure>)

  /** fill_Z. When a Z exists (nfreq set) and the file has more frequencies,
      the index is rebuilt and Z grows to nz rows keeping its old ones; the
      listed components are then written whole-column when the row counts
      agree and through the index otherwise. Without a Z the index is built,
      a zero Z of nz rows is filled column by column and replaces the old
      one, with the frequencies, only if every component went through. */
  function FillZ(t: Tensors, table: Table, comps: seq<string>, num: Numerics): (r: Filled)
    requires Shaped(t)
    ensures r.failure.None? ==> Shaped(r.t)
  {
    var setup := FreqSetup(table, comps);
    if setup.Err? then Filled(t, Some(setup.failure))
    else
      var nz, freq := setup.value.nz, setup.value.freq;
      if t.nfreq > 0 then
        var t1 := if nz > t.nfreq then
                    t.(freqDict := FreqIndex(freq, num.key, |freq|), nfreq := nz,
                       z := Grow(t.z, 4 * nz, Zero), zerr := Grow(t.zerr, 4 * nz, 0.0), zFreq := freq)
                  else t;
        var mode := if nz != t1.nfreq then Keyed(num.key, t1.freqDict) else Column;
        var b := CompsUpTo(Bufs(t1.z, t1.zerr, None), table, comps, nz, mode, ZLayout(num), |comps|);
        Filled(t1.(z := b.vals, zerr := b.errs), b.failure)
      else
        var t1 := t.(nfreq := nz, freqDict := FreqIndex(freq, num.key, |freq|));
        var b := CompsUpTo(Bufs(seq(4 * nz, _ => Zero), seq(4 * nz, _ => 0.0), None), table, comps, nz, Column,
                           ZLayout(num), |comps|);
        if b.failure.Some? then Filled(t1, b.failure)
        else Filled(t1.(z := b.vals, zerr := b.errs, zFreq := freq), None)
  }

  /** fill_Tipper. When a tipper exists (nfreq_tipper set and the tipper
      not None) it may grow as Z does, the listed components are added in,
      and then the whole tipper, but not its error, is halved. Otherwise a
      zero tipper of nz rows is filled and replaces the old one if every
      component went through. */
  function FillTipper(t: Tensors, table: Table, comps: seq<string>, num: Numerics): (r: Filled)
    requires Shaped(t)
    ensures r.failure.None? ==> Shaped(r.t)
  {
    var setup := FreqSetup(table, comps);
    if setup.Err? then Filled(t, Some(setup.failure))
    else
      var nz, freq := setup.value.nz, setup.value.freq;
      if t.nfreqTip > 0 && t.hasTip then
        var t1 := if nz > t.nfreqTip then
                    t.(freqDict := FreqIndex(freq, num.key, |freq|), nfreqTip := nz,
                       tip := Grow(t.tip, 2 * nz, Zero), tipErr := Grow(t.tipErr, 2 * nz, 0.0), tipFreq := freq)
                  else t;
        var mode := if nz != t1.nfreqTip then Keyed(num.key, t1.freqDict) else Column;
        var b := CompsUpTo(Bufs(t1.tip, t1.tipErr, None), table, comps, nz, mode, TipLayout(num, true), |comps|);
        if b.failure.Some? then Filled(t1.(tip := b.vals, tipErr := b.errs), b.failure)
        else Filled(t1.(tip := MapCells(b.vals, Half), tipErr := b.errs), None)
      else
        var t1 := t.(nfreqTip := nz, freqDict := FreqIndex(freq, num.key, |freq|));
        var b := CompsUpTo(Bufs(seq(2 * nz, _ => Zero), seq(2 * nz, _ => 0.0), None), table, comps, nz, Column,
                           TipLayout(num, false), |comps|);
        if b.failure.Some? then Filled(t1, b.failure)
        else Filled(t1.(tip := b.vals, tipErr := b.errs, tipFreq := freq, hasTip := true), None)
  }

  /** The end of read_avg_file: fill_Z, then fill_Tipper unless fill_Z
      raised. A read that goes through leaves both tensors in shape and a
      tipper present. */
  function FillBoth(t: Tensors, table: Table, lstZ: seq<string>, lstTip: seq<string>, num: Numerics): (r: Filled)
    requires Shaped(t)
    ensures r.failure.None? ==> Shaped(r.t) && r.t.hasTip
  {
    var fz := FillZ(t, table, lstZ, num);
    if fz.failure.Some? then fz else FillTipper(fz.t, table, lstTip, num)
  }

  /** A component's pass touches no cell outside its own column. */
  lemma CompUpdateOther(b: Bufs, table: Table, ikey: string, nz: nat, mode: Mode, lay: Layout)
    ensures forall l: nat, c: nat ::
              c < lay.width && Cell(lay.width, l, c) < |b.vals| && (ikey in lay.index ==> c != Col(lay, ikey)) ==>
              CompUpdate(b, table, ikey, nz, mode, lay).vals[Cell(lay.width, l, c)] == b.vals[Cell(lay.width, l, c)]
    ensures forall l: nat, c: nat ::
              c < lay.width && Cell(lay.width, l, c) < |b.errs| && (ikey in lay.index ==> c != Col(lay, ikey)) ==>
              CompUpdate(b, table, ikey, nz, mode, lay).errs[Cell(lay.width, l, c)] == b.errs[Cell(lay.width, l, c)]
  {
    if ikey in lay.index && ikey in table && Col(lay, ikey) < lay.width {
      var col, w := Col(lay, ikey), lay.width;
      var rows := Take(table[ikey], nz);
      var vals, errs := Values(lay, ikey, rows), Errors(lay, ikey, rows);
      forall l: nat, c: nat, l': nat | c < w && c != col
        ensures Cell(w, l, c) != Cell(w, l', col)
      {
        CellsDistinct(w, l, c, l', col);
      }
      match mode
      case Column =>
        if |rows| * w == |b.vals| {
          ColumnUpdateCells(b.vals, w, col, vals, lay.setV);
        }
        if |rows| * w == |b.errs| {
          ColumnUpdateCells(b.errs, w, col, errs, lay.setE);
        }
      case Keyed(key, index) =>
        var keys := Keys(key, rows);
        ScatterFacts(b.vals, w, col, keys, index, vals, lay.setV, |rows|);
        ScatterFacts(b.errs, w, col, keys, index, errs, lay.setE, |rows|);
    }
  }

  /** No component among the first n names column c. */
  predicate Unlisted(lay: Layout, comps: seq<string>, n: nat, c: nat)
    requires n <= |comps|
  {
    forall k :: 0 <= k < n && comps[k] in lay.index ==> Col(lay, comps[k]) != c
  }

  /** "Only the listed components are written": a cell whose column no
      listed component names keeps its value, in either mode. */
  lemma {:induction false} CompsOtherColumns(b: Bufs, table: Table, comps: seq<string>, nz: nat, mode: Mode,
                                             lay: Layout, n: nat)
    requires n <= |comps|
    ensures forall l: nat, c: nat ::
              c < lay.width && Cell(lay.width, l, c) < |b.vals| && Unlisted(lay, comps, n, c) ==>
              CompsUpTo(b, table, comps, nz, mode, lay, n).vals[Cell(lay.width, l, c)] == b.vals[Cell(lay.width, l, c)]
    ensures forall l: nat, c: nat ::
              c < lay.width && Cell(lay.width, l, c) < |b.errs| && Unlisted(lay, comps, n, c) ==>
              CompsUpTo(b, table, comps, nz, mode, lay, n).errs[Cell(lay.width, l, c)] == b.errs[Cell(lay.width, l, c)]
  {
    if n > 0 {
      CompsOtherColumns(b, table, comps, nz, mode, lay, n - 1);
      var prev := CompsUpTo(b, table, comps, nz, mode, lay, n - 1);
      if prev.failure.None? {
        CompUpdateOther(prev, table, comps[n - 1], nz, mode, lay);
      }
    }
  }

  /** Every one of the first n components is known, is in the table with
      enough rows to fill a buffer of `size` cells column-wise, and has a
      column that fits the layout; no two of them share a column. */
  predicate Placeable(table: Table, comps: seq<string>, nz: nat, lay: Layout, n: nat, size: nat)
    requires n <= |comps|
  {
    (forall k :: 0 <= k < n ==>
       comps[k] in lay.index && comps[k] in table && Col(lay, comps[k]) < lay.width &&
       |Take(table[comps[k]], nz)| * lay.width == size) &&
    forall i, j :: 0 <= i < j < n ==> Col(lay, comps[i]) != Col(lay, comps[j])
  }

  /** One component in column mode: row l of its column receives its value
      and error of row l. */
  lemma ColumnStep(b: Bufs, table: Table, ikey: string, nz: nat, lay: Layout)
    requires ikey in lay.index && ikey in table && Col(lay, ikey) < lay.width
    requires |Take(table[ikey], nz)| * lay.width == |b.vals| == |b.errs|
    ensures CompUpdate(b, table, ikey, nz, Column, lay).failure.None?
    ensures forall l: nat :: l < |Take(table[ikey], nz)| ==>
              Cell(lay.width, l, Col(lay, ikey)) < |b.vals| &&
              CompUpdate(b, table, ikey, nz, Column, lay).vals[Cell(lay.width, l, Col(lay, ikey))] ==
                lay.setV(b.vals[Cell(lay.width, l, Col(lay, ikey))], lay.value(ikey, table[ikey][l])) &&
              CompUpdate(b, table, ikey, nz, Column, lay).errs[Cell(lay.width, l, Col(lay, ikey))] ==
                lay.setE(b.errs[Cell(lay.width, l, Col(lay, ikey))], lay.error(ikey, table[ikey][l]))
  {
    var rows := Take(table[ikey], nz);
    ColumnUpdateCells(b.vals, lay.width, Col(lay, ikey), Values(lay, ikey, rows), lay.setV);
    ColumnUpdateCells(b.errs, lay.width, Col(lay, ikey), Errors(lay, ikey, rows), lay.setE);
  }

  /** In column mode the loop goes through. */
  lemma {:induction false} ColumnOk(b: Bufs, table: Table, comps: seq<string>, nz: nat, lay: Layout, n: nat)
    requires n <= |comps| && |b.vals| == |b.errs| && b.failure.None?
    requires Placeable(table, comps, nz, lay, n, |b.vals|)
    ensures CompsUpTo(b, table, comps, nz, Column, lay, n).failure.None?
  {
    if n > 0 {
      ColumnOk(b, table, comps, nz, lay, n - 1);
    }
  }

  /** Row l of the last component's column. */
  lemma ColumnCellLast(b: Bufs, table: Table, comps: seq<string>, nz: nat, lay: Layout, n: nat, l: nat)
    requires 0 < n <= |comps| && |b.vals| == |b.errs| && b.failure.None?
    requires Placeable(table, comps, nz, lay, n, |b.vals|) && l < |Take(table[comps[n - 1]], nz)|
    ensures Cell(lay.width, l, Col(lay, comps[n - 1])) < |b.vals|
    ensures CompsUpTo(b, table, comps, nz, Column, lay, n).vals[Cell(lay.width, l, Col(lay, comps[n - 1]))] ==
              lay.setV(b.vals[Cell(lay.width, l, Col(lay, comps[n - 1]))], lay.value(comps[n - 1], table[comps[n - 1]][l]))
    ensures CompsUpTo(b, table, comps, nz, Column, lay, n).errs[Cell(lay.width, l, Col(lay, comps[n - 1]))] ==
              lay.setE(b.errs[Cell(lay.width, l, Col(lay, comps[n - 1]))], lay.error(comps[n - 1], table[comps[n - 1]][l]))
  {
    var prev := CompsUpTo(b, table, comps, nz, Column, lay, n - 1);
    ColumnOk(b, table, comps, nz, lay, n - 1);
    ColumnStep(prev, table, comps[n - 1], nz, lay);
    assert Unlisted(lay, comps, n - 1, Col(lay, comps[n - 1]));
    CompsOtherColumns(b, table, comps, nz, Column, lay, n - 1);
  }

  /** Row l of the k-th component's column, for one k and l. */
  lemma {:induction false} ColumnCell(b: Bufs, table: Table, comps: seq<string>, nz: nat, lay: Layout, n: nat,
                                      k: nat, l: nat)
    requires n <= |comps| && |b.vals| == |b.errs| && b.failure.None?
    requires Placeable(table, comps, nz, lay, n, |b.vals|) && k < n && l < |Take(table[comps[k]], nz)|
    ensures Cell(lay.width, l, Col(lay, comps[k])) < |b.vals|
    ensures CompsUpTo(b, table, comps, nz, Column, lay, n).vals[Cell(lay.width, l, Col(lay, comps[k]))] ==
              lay.setV(b.vals[Cell(lay.width, l, Col(lay, comps[k]))], lay.value(comps[k], table[comps[k]][l]))
    ensures CompsUpTo(b, table, comps, nz, Column, lay, n).errs[Cell(lay.width, l, Col(lay, comps[k]))] ==
              lay.setE(b.errs[Cell(lay.width, l, Col(lay, comps[k]))], lay.error(comps[k], table[comps[k]][l]))
  {
    if k < n - 1 {
      ColumnOk(b, table, comps, nz, lay, n - 1);
      ColumnCell(b, table, comps, nz, lay, n - 1, k, l);
      CompUpdateOther(CompsUpTo(b, table, comps, nz, Column, lay, n - 1), table, comps[n - 1], nz, Column, lay);
    } else {
      ColumnCellLast(b, table, comps, nz, lay, n, l);
    }
  }

  /** In column mode the loop goes through, and row l of a component's
      column receives that component's value and error of row l, met with
      what the buffer held there before the loop. */
  lemma ColumnComps(b: Bufs, table: Table, comps: seq<string>, nz: nat, lay: Layout, n: nat)
    requires n <= |comps| && |b.vals| == |b.errs| && b.failure.None?
    requires Placeable(table, comps, nz, lay, n, |b.vals|)
    ensures CompsUpTo(b, table, comps, nz, Column, lay, n).failure.None?
    ensures forall k, l: nat :: 0 <= k < n && l < |Take(table[comps[k]], nz)| ==>
              Cell(lay.width, l, Col(lay, comps[k])) < |b.vals| &&
              CompsUpTo(b, table, comps, nz, Column, lay, n).vals[Cell(lay.width, l, Col(lay, comps[k]))] ==
                lay.setV(b.vals[Cell(lay.width, l, Col(lay, comps[k]))], lay.value(comps[k], table[comps[k]][l])) &&
              CompsUpTo(b, table, comps, nz, Column, lay, n).errs[Cell(lay.width, l, Col(lay, comps[k]))] ==
                lay.setE(b.errs[Cell(lay.width, l, Col(lay, comps[k]))], lay.error(comps[k], table[comps[k]][l]))
  {
    ColumnOk(b, table, comps, nz, lay, n);
    forall k, l: nat | 0 <= k < n && l < |Take(table[comps[k]], nz)| {
      ColumnCell(b, table, comps, nz, lay, n, k, l);
    }
  }

  /** No component is listed twice. */
  predicate Distinct(comps: seq<string>)
  {
    forall i, j :: 0 <= i < j < |comps| ==> comps[i] != comps[j]
  }

  /** keys[c] is the component whose column is c, for every column of the
      layout. */
  predicate ColumnKeys(lay: Layout, keys: seq<string>)
  {
    |keys| == lay.width && forall c :: 0 <= c < |keys| ==> keys[c] in lay.index && Col(lay, keys[c]) == c
  }

  /** Column mode over distinct components named by a layout's column keys,
      each with at least nz rows, on buffers of nz rows: the loop goes
      through, a listed component's column receives its values and errors
      row by row, and an unlisted one keeps what it held. */
  lemma ColumnsByKey(b: Bufs, table: Table, comps: seq<string>, nz: nat, lay: Layout, keys: seq<string>)
    requires ColumnKeys(lay, keys) && Distinct(comps)
    requires forall k :: 0 <= k < |comps| ==> comps[k] in keys && comps[k] in table && |table[comps[k]]| >= nz
    requires |b.vals| == nz * lay.width && |b.errs| == nz * lay.width && b.failure.None?
    ensures CompsUpTo(b, table, comps, nz, Column, lay, |comps|).failure.None?
    ensures forall c, l: nat :: 0 <= c < |keys| && keys[c] in comps && l < nz ==>
              Cell(lay.width, l, c) < |b.vals| &&
              CompsUpTo(b, table, comps, nz, Column, lay, |comps|).vals[Cell(lay.width, l, c)] ==
                lay.setV(b.vals[Cell(lay.width, l, c)], lay.value(keys[c], table[keys[c]][l])) &&
              CompsUpTo(b, table, comps, nz, Column, lay, |comps|).errs[Cell(lay.width, l, c)] ==
                lay.setE(b.errs[Cell(lay.width, l, c)], lay.error(keys[c], table[keys[c]][l]))
    ensures forall c, l: nat :: 0 <= c < |keys| && keys[c] !in comps && l < nz ==>
              Cell(lay.width, l, c) < |b.vals| &&
              CompsUpTo(b, table, comps, nz, Column, lay, |comps|).vals[Cell(lay.width, l, c)] == b.vals[Cell(lay.width, l, c)] &&
              CompsUpTo(b, table, comps, nz, Column, lay, |comps|).errs[Cell(lay.width, l, c)] == b.errs[Cell(lay.width, l, c)]
  {
    var n := |comps|;
    forall k | 0 <= k < n ensures |Take(table[comps[k]], nz)| == nz {}
    assert Placeable(table, comps, nz, lay, n, |b.vals|) by {
      forall i, j | 0 <= i < j < n ensures Col(lay, comps[i]) != Col(lay, comps[j]) {
        var ci :| 0 <= ci < |keys| && keys[ci] == comps[i];
        var cj :| 0 <= cj < |keys| && keys[cj] == comps[j];
      }
    }
    ColumnComps(b, table, comps, nz, lay, n);
    CompsOtherColumns(b, table, comps, nz, Column, lay, n);
    forall c, l: nat | 0 <= c < |keys| && l < nz
      ensures Cell(lay.width, l, c) < |b.vals|
    {
      CellInRows(lay.width, l, c, nz);
    }
    forall c: nat | c < |keys| && keys[c] in comps
      ensures exists k :: 0 <= k < n && comps[k] == keys[c] && Col(lay, comps[k]) == c
    {
      var k :| 0 <= k < n && comps[k] == keys[c];
    }
    forall c: nat | c < |keys| && keys[c] !in comps
      ensures Unlisted(lay, comps, n, c)
    {
      forall k | 0 <= k < n && comps[k] in lay.index ensures Col(lay, comps[k]) != c {
        var ck :| 0 <= ck < |keys| && keys[ck] == comps[k];
      }
    }
  }

  /** The components of Z, in column order. */
  const ZKeys: seq<string> := ["zxx", "zxy", "zyx", "zyy"]

  /** The components of the tipper, in column order. */
  const TipKeys: seq<string> := ["tzx", "tzy"]

  lemma ZColumns(num: Numerics)
    ensures ColumnKeys(ZLayout(num), ZKeys)
  {
  }

  lemma TipColumns(num: Numerics, accumulate: bool)
    ensures ColumnKeys(TipLayout(num, accumulate), TipKeys)
  {
  }

  /** Of the four components of Z only zyx contains 'yx' past its start. */
  lemma YxOnly()
    ensures forall c :: 0 <= c < 4 ==> (IsYx(ZKeys[c]) <==> c == 2)
  {
    assert "zyx"[1..3] == "yx";
    forall c | 0 <= c < 4 ensures !OccursAt(ZKeys[c], "yx", 0) {
      assert ZKeys[c][0..2][0] == 'z';
    }
    forall c | 0 <= c < 4 && c != 2 ensures !OccursAt(ZKeys[c], "yx", 1) {
      assert ZKeys[c][1..3][0] == ZKeys[c][1] && ZKeys[c][1..3][1] == ZKeys[c][2];
    }
  }

  /** Every listed component is in the table, and all have the same number
      of rows (as the arrays read_avg_file allocates do). */
  predicate Uniform(table: Table, comps: seq<string>, keys: seq<string>)
  {
    0 < |comps| && Distinct(comps) && comps[0] in table &&
    forall k :: 0 <= k < |comps| ==> comps[k] in keys && comps[k] in table && |table[comps[k]]| == |table[comps[0]]|
  }

  /** Then the setup goes through and nz is at most that row count. */
  lemma NzFits(table: Table, comps: seq<string>, keys: seq<string>)
    requires Uniform(table, comps, keys)
    ensures FreqSetup(table, comps).Ok?
    ensures forall k :: 0 <= k < |comps| ==> FreqSetup(table, comps).value.nz <= |table[comps[k]]|
  {
    FreqSetupFacts(table, comps);
    var fs := FreqSetup(table, comps).value;
    var k :| 0 <= k < |comps| && fs.freq == Nonzero(FreqColumn(table[comps[k]]));
  }

  /** A buffer of nz rows that holds the old buffer's cells and zeros after
      them. */
  ghost predicate Based<T>(buf: seq<T>, prior: seq<T>, zero: T, size: nat)
  {
    |buf| == size && forall p :: 0 <= p < size ==> buf[p] == if p < |prior| then prior[p] else zero
  }

  /** fill_Z when the loop writes whole columns: on the first fill, when Z
      has as many frequencies as the file, and after Z has grown. The fill
      goes through, Z gets the file's frequency count, the frequencies and
      the shared index are rebuilt unless the count was already Z's, and
      the tipper is untouched. */
  lemma FillZResized(t: Tensors, table: Table, comps: seq<string>, num: Numerics)
    requires Shaped(t) && Uniform(table, comps, ZKeys)
    requires FreqSetup(table, comps).Ok? && (t.nfreq == 0 || t.nfreq <= FreqSetup(table, comps).value.nz)
    ensures FillZ(t, table, comps, num).failure.None?
    ensures FillZ(t, table, comps, num).t.nfreq == FreqSetup(table, comps).value.nz
    ensures FillZ(t, table, comps, num).t.(z := t.z, zerr := t.zerr, zFreq := t.zFreq, nfreq := t.nfreq, freqDict := t.freqDict) == t
    ensures var fs := FreqSetup(table, comps).value;
            var r := FillZ(t, table, comps, num).t;
            if t.nfreq > 0 && t.nfreq == fs.nz then r.zFreq == t.zFreq && r.freqDict == t.freqDict
            else r.zFreq == fs.freq && r.freqDict == FreqIndex(fs.freq, num.key, |fs.freq|)
  {
    NzFits(table, comps, ZKeys);
    ZColumns(num);
    YxOnly();
    var fs := FreqSetup(table, comps).value;
    var nz, freq := fs.nz, fs.freq;
    var lay := ZLayout(num);
    if t.nfreq > 0 {
      var t1 := if nz > t.nfreq then
                  t.(freqDict := FreqIndex(freq, num.key, |freq|), nfreq := nz,
                     z := Grow(t.z, 4 * nz, Zero), zerr := Grow(t.zerr, 4 * nz, 0.0), zFreq := freq)
                else t;
      var b := Bufs(t1.z, t1.zerr, None);
      assert Based(b.vals, t.z, Zero, 4 * nz) && Based(b.errs, t.zerr, 0.0, 4 * nz);
      ColumnsByKey(b, table, comps, nz, lay, ZKeys);
      var cu := CompsUpTo(b, table, comps, nz, Column, lay, |comps|);
      assert FillZ(t, table, comps, num) == Filled(t1.(z := cu.vals, zerr := cu.errs), cu.failure);
    } else {
      var t1 := t.(nfreq := nz, freqDict := FreqIndex(freq, num.key, |freq|));
      var b := Bufs(seq(4 * nz, _ => Zero), seq(4 * nz, _ => 0.0), None);
      assert Based(b.vals, t.z, Zero, 4 * nz) && Based(b.errs, t.zerr, 0.0, 4 * nz);
      ColumnsByKey(b, table, comps, nz, lay, ZKeys);
      var cu := CompsUpTo(b, table, comps, nz, Column, lay, |comps|);
      assert FillZ(t, table, comps, num) == Filled(t1.(z := cu.vals, zerr := cu.errs, zFreq := freq), None);
    }
  }

  /** The column-mode pass of fill_Z over a Z grown to the file's nz rows,
      cell by cell: a listed column receives the values, zyx negated, and
      %err * 0.005 as the error; an unlisted one keeps the old cells, with
      zeros past the old Z. */
  lemma ZColumnCells(z: seq<Cplx>, zerr: seq<real>, table: Table, comps: seq<string>, num: Numerics)
    requires Uniform(table, comps, ZKeys)
    requires FreqSetup(table, comps).Ok?
    requires |z| <= 4 * FreqSetup(table, comps).value.nz && |zerr| <= 4 * FreqSetup(table, comps).value.nz
    ensures var nz := FreqSetup(table, comps).value.nz;
            var cu := CompsUpTo(Bufs(Grow(z, 4 * nz, Zero), Grow(zerr, 4 * nz, 0.0), None), table, comps, nz,
                                Column, ZLayout(num), |comps|);
            forall c, l: nat :: 0 <= c < 4 && l < nz ==>
              Cell(4, l, c) < |cu.vals| &&
              (ZKeys[c] in comps ==>
                 var v := num.polar(table[ZKeys[c]][l].zMag, table[ZKeys[c]][l].zPhz);
                 cu.vals[Cell(4, l, c)] == (if c == 2 then Neg(v) else v) &&
                 cu.errs[Cell(4, l, c)] == table[ZKeys[c]][l].aResErr * 0.005) &&
              (ZKeys[c] !in comps ==>
                 cu.vals[Cell(4, l, c)] == (if Cell(4, l, c) < |z| then z[Cell(4, l, c)] else Zero) &&
                 cu.errs[Cell(4, l, c)] == (if Cell(4, l, c) < |zerr| then zerr[Cell(4, l, c)] else 0.0))
  {
    NzFits(table, comps, ZKeys);
    ZColumns(num);
    YxOnly();
    var nz := FreqSetup(table, comps).value.nz;
    var lay := ZLayout(num);
    var b := Bufs(Grow(z, 4 * nz, Zero), Grow(zerr, 4 * nz, 0.0), None);
    assert Based(b.vals, z, Zero, 4 * nz) && Based(b.errs, zerr, 0.0, 4 * nz);
    ColumnsByKey(b, table, comps, nz, lay, ZKeys);
    var cu := CompsUpTo(b, table, comps, nz, Column, lay, |comps|);
    forall c, l: nat | 0 <= c < 4 && l < nz
      ensures Cell(4, l, c) < |cu.vals|
      ensures ZKeys[c] in comps ==>
                cu.vals[Cell(4, l, c)] == lay.value(ZKeys[c], table[ZKeys[c]][l]) &&
                cu.errs[Cell(4, l, c)] == table[ZKeys[c]][l].aResErr * 0.005
      ensures ZKeys[c] !in comps ==> cu.vals[Cell(4, l, c)] == b.vals[Cell(4, l, c)] && cu.errs[Cell(4, l, c)] == b.errs[Cell(4, l, c)]
    {
      if ZKeys[c] in comps {
        assert cu.vals[Cell(4, l, c)] == lay.setV(b.vals[Cell(4, l, c)], lay.value(ZKeys[c], table[ZKeys[c]][l]));
        assert cu.errs[Cell(4, l, c)] == lay.setE(b.errs[Cell(4, l, c)], lay.error(ZKeys[c], table[ZKeys[c]][l]));
      }
    }
  }

  /** fill_Z when the loop writes whole columns: every listed component's
      column holds its values, zyx negated, with %err * 0.005 as the error;
      every other column keeps the old Z in its old rows and zeros in its
      new ones. */
  lemma FillZColumns(t: Tensors, table: Table, comps: seq<string>, num: Numerics)
    requires Shaped(t) && Uniform(table, comps, ZKeys)
    requires FreqSetup(table, comps).Ok? && (t.nfreq == 0 || t.nfreq <= FreqSetup(table, comps).value.nz)
    ensures var nz := FreqSetup(table, comps).value.nz;
            var r := FillZ(t, table, comps, num).t;
            forall c, l: nat :: 0 <= c < 4 && ZKeys[c] in comps && l < nz ==>
              var row := table[ZKeys[c]][l];
              var v := num.polar(row.zMag, row.zPhz);
              Cell(4, l, c) < |r.z| && r.z[Cell(4, l, c)] == (if c == 2 then Neg(v) else v) &&
              r.zerr[Cell(4, l, c)] == row.aResErr * 0.005
    ensures var nz := FreqSetup(table, comps).value.nz;
            var r := FillZ(t, table, comps, num).t;
            forall c, l: nat :: 0 <= c < 4 && ZKeys[c] !in comps && l < nz ==>
              Cell(4, l, c) < |r.z| &&
              r.z[Cell(4, l, c)] == (if Cell(4, l, c) < |t.z| then t.z[Cell(4, l, c)] else Zero) &&
              r.zerr[Cell(4, l, c)] == (if Cell(4, l, c) < |t.zerr| then t.zerr[Cell(4, l, c)] else 0.0)
  {
    ZColumnForm(t, table, comps, num);
    ZColumnCells(t.z, t.zerr, table, comps, num);
  }

  /** In column mode fill_Z's Z is the loop run over the old Z grown to the
      file's frequency count. */
  lemma ZColumnForm(t: Tensors, table: Table, comps: seq<string>, num: Numerics)
    requires Shaped(t) && Uniform(table, comps, ZKeys)
    requires FreqSetup(table, comps).Ok? && (t.nfreq == 0 || t.nfreq <= FreqSetup(table, comps).value.nz)
    ensures var nz := FreqSetup(table, comps).value.nz;
            var cu := CompsUpTo(Bufs(Grow(t.z, 4 * nz, Zero), Grow(t.zerr, 4 * nz, 0.0), None), table, comps, nz,
                                Column, ZLayout(num), |comps|);
            FillZ(t, table, comps, num).t.z == cu.vals && FillZ(t, table, comps, num).t.zerr == cu.errs
  {
    NzFits(table, comps, ZKeys);
    ZColumns(num);
    var nz := FreqSetup(table, comps).value.nz;
    var freq := FreqSetup(table, comps).value.freq;
    var lay := ZLayout(num);
    var gz, ge := Grow(t.z, 4 * nz, Zero), Grow(t.zerr, 4 * nz, 0.0);
    var cu := CompsUpTo(Bufs(gz, ge, None), table, comps, nz, Column, lay, |comps|);
    if t.nfreq > 0 && nz == t.nfreq {
      assert gz == gz[..|t.z|] == t.z;
      assert ge == ge[..|t.zerr|] == t.zerr;
      assert FillZ(t, table, comps, num) == Filled(t.(z := cu.vals, zerr := cu.errs), cu.failure);
    } else if t.nfreq > 0 {
      var t1 := t.(freqDict := FreqIndex(freq, num.key, |freq|), nfreq := nz, z := gz, zerr := ge, zFreq := freq);
      assert FillZ(t, table, comps, num) == Filled(t1.(z := cu.vals, zerr := cu.errs), cu.failure);
    } else {
      assert gz == seq(4 * nz, _ => Zero);
      assert ge == seq(4 * nz, _ => 0.0);
      ColumnsByKey(Bufs(gz, ge, None), table, comps, nz, lay, ZKeys);
      var t1 := t.(nfreq := nz, freqDict := FreqIndex(freq, num.key, |freq|));
      assert FillZ(t, table, comps, num) == Filled(t1.(z := cu.vals, zerr := cu.errs, zFreq := freq), None);
    }
  }

  /** In keyed mode fill_Z changes Z alone, to the keyed loop run over it. */
  lemma ZKeyedForm(t: Tensors, table: Table, comps: seq<string>, num: Numerics)
    requires Shaped(t) && FreqSetup(table, comps).Ok? && FreqSetup(table, comps).value.nz < t.nfreq
    ensures var cu := CompsUpTo(Bufs(t.z, t.zerr, None), table, comps, FreqSetup(table, comps).value.nz,
                                Keyed(num.key, t.freqDict), ZLayout(num), |comps|);
            FillZ(t, table, comps, num) == Filled(t.(z := cu.vals, zerr := cu.errs), cu.failure)
  {
  }

  /** A component goes through the keyed write: it is known, in the table,
      its column fits, and every one of its first nz frequencies has a key
      in the index naming a row of the buffer. */
  predicate KeyedFits(table: Table, ikey: string, nz: nat, key: real -> string, index: map<string, nat>,
                      lay: Layout, size: nat)
  {
    ikey in lay.index && ikey in table && Col(lay, ikey) < lay.width &&
    forall l :: 0 <= l < |Take(table[ikey], nz)| ==>
      key(table[ikey][l].freq) in index && Cell(lay.width, index[key(table[ikey][l].freq)], Col(lay, ikey)) < size
  }

  lemma KeyedStep(b: Bufs, table: Table, ikey: string, nz: nat, key: real -> string, index: map<string, nat>,
                  lay: Layout)
    ensures CompUpdate(b, table, ikey, nz, Keyed(key, index), lay).failure.None? <==>
              KeyedFits(table, ikey, nz, key, index, lay, |b.vals|)
  {
    if ikey in lay.index && ikey in table && Col(lay, ikey) < lay.width {
      var rows := Take(table[ikey], nz);
      ScatterFacts(b.vals, lay.width, Col(lay, ikey), Keys(key, rows), index, Values(lay, ikey, rows), lay.setV, |rows|);
    }
  }

  /** The keyed loop goes through exactly when every listed component does. */
  lemma {:induction false} KeyedOk(b: Bufs, table: Table, comps: seq<string>, nz: nat, key: real -> string,
                                   index: map<string, nat>, lay: Layout, n: nat)
    requires n <= |comps| && b.failure.None?
    ensures CompsUpTo(b, table, comps, nz, Keyed(key, index), lay, n).failure.None? <==>
              forall k :: 0 <= k < n ==> KeyedFits(table, comps[k], nz, key, index, lay, |b.vals|)
  {
    if n > 0 {
      KeyedOk(b, table, comps, nz, key, index, lay, n - 1);
      KeyedStep(CompsUpTo(b, table, comps, nz, Keyed(key, index), lay, n - 1), table, comps[n - 1], nz, key, index, lay);
    }
  }

  /** A component of Z goes through the keyed write exactly when the keys
      of its first nz frequencies are all in the index and name rows below
      nfreq. */
  lemma ZKeyedFits(table: Table, ikey: string, nz: nat, num: Numerics, index: map<string, nat>, nfreq: nat)
    requires ikey in ZKeys && ikey in table && |table[ikey]| >= nz
    ensures KeyedFits(table, ikey, nz, num.key, index, ZLayout(num), 4 * nfreq) <==>
              forall l :: 0 <= l < nz ==> num.key(table[ikey][l].freq) in index && index[num.key(table[ikey][l].freq)] < nfreq
  {
    ZColumns(num);
    var c :| 0 <= c < 4 && ZKeys[c] == ikey;
    assert |Take(table[ikey], nz)| == nz;
    forall l | 0 <= l < nz && num.key(table[ikey][l].freq) in index {
      CellRow(4, index[num.key(table[ikey][l].freq)], c, nfreq);
    }
  }

  /** A column of Z whose component is not listed is named by none of
      them. */
  lemma ZUnlisted(comps: seq<string>, num: Numerics, c: nat)
    requires c < 4 && ZKeys[c] !in comps && forall k :: 0 <= k < |comps| ==> comps[k] in ZKeys
    ensures Unlisted(ZLayout(num), comps, |comps|, c)
  {
    ZColumns(num);
    forall k | 0 <= k < |comps| ensures Col(ZLayout(num), comps[k]) != c {
      var ck :| 0 <= ck < 4 && ZKeys[ck] == comps[k];
    }
  }

  /** The keyed pass of fill_Z over a Z of nfreq rows: it goes through
      exactly when every key is in the index and names one of those rows,
      keeps the buffers' sizes, and leaves an unlisted column alone. */
  lemma ZKeyedCells(z: seq<Cplx>, zerr: seq<real>, index: map<string, nat>, nfreq: nat, table: Table,
                    comps: seq<string>, num: Numerics)
    requires Uniform(table, comps, ZKeys) && FreqSetup(table, comps).Ok? && FreqSetup(table, comps).value.nz < nfreq
    requires |z| == 4 * nfreq && |zerr| == 4 * nfreq
    ensures var nz := FreqSetup(table, comps).value.nz;
            var cu := CompsUpTo(Bufs(z, zerr, None), table, comps, nz, Keyed(num.key, index), ZLayout(num), |comps|);
            (cu.failure.None? <==>
               forall k, l :: 0 <= k < |comps| && 0 <= l < nz ==>
                 num.key(table[comps[k]][l].freq) in index && index[num.key(table[comps[k]][l].freq)] < nfreq) &&
            |cu.vals| == |z| && |cu.errs| == |zerr| &&
            forall c, l: nat :: 0 <= c < 4 && ZKeys[c] !in comps && l < nfreq ==>
              Cell(4, l, c) < |z| && cu.vals[Cell(4, l, c)] == z[Cell(4, l, c)] && cu.errs[Cell(4, l, c)] == zerr[Cell(4, l, c)]
  {
    NzFits(table, comps, ZKeys);
    ZColumns(num);
    var nz := FreqSetup(table, comps).value.nz;
    var lay := ZLayout(num);
    var b := Bufs(z, zerr, None);
    KeyedOk(b, table, comps, nz, num.key, index, lay, |comps|);
    CompsOtherColumns(b, table, comps, nz, Keyed(num.key, index), lay, |comps|);
    forall k | 0 <= k < |comps| {
      ZKeyedFits(table, comps[k], nz, num, index, nfreq);
    }
    forall c, l: nat | 0 <= c < 4 && ZKeys[c] !in comps && l < nfreq
      ensures Cell(4, l, c) < |z| && Unlisted(lay, comps, |comps|, c)
    {
      CellRow(4, l, c, nfreq);
      ZUnlisted(comps, num, c);
    }
  }

  /** fill_Z when the file has fewer frequencies than Z: each value goes to
      the row the shared frequency index gives for its frequency's key. The
      fill goes through exactly when every such key is in the index and
      names one of Z's rows; Z keeps its size, frequencies and index, every
      unlisted column keeps its values, and the tipper is untouched. */
  lemma FillZKeyed(t: Tensors, table: Table, comps: seq<string>, num: Numerics)
    requires Shaped(t) && Uniform(table, comps, ZKeys)
    requires FreqSetup(table, comps).Ok? && FreqSetup(table, comps).value.nz < t.nfreq
    ensures FillZ(t, table, comps, num).t.(z := t.z, zerr := t.zerr) == t
    ensures var nz := FreqSetup(table, comps).value.nz;
            FillZ(t, table, comps, num).failure.None? <==>
              forall k, l :: 0 <= k < |comps| && 0 <= l < nz ==>
                num.key(table[comps[k]][l].freq) in t.freqDict && t.freqDict[num.key(table[comps[k]][l].freq)] < t.nfreq
    ensures var r := FillZ(t, table, comps, num).t;
            |r.z| == |t.z| && |r.zerr| == |t.zerr| &&
            forall c, l: nat :: 0 <= c < 4 && ZKeys[c] !in comps && l < t.nfreq ==>
              Cell(4, l, c) < |t.z| && r.z[Cell(4, l, c)] == t.z[Cell(4, l, c)] && r.zerr[Cell(4, l, c)] == t.zerr[Cell(4, l, c)]
  {
    ZKeyedForm(t, table, comps, num);
    ZKeyedCells(t.z, t.zerr, t.freqDict, t.nfreq, table, comps, num);
  }

  /** A column of the tipper whose component is not listed is named by
      none of them. */
  lemma TipUnlisted(comps: seq<string>, num: Numerics, accumulate: bool, c: nat)
    requires c < 2 && TipKeys[c] !in comps && forall k :: 0 <= k < |comps| ==> comps[k] in TipKeys
    ensures Unlisted(TipLayout(num, accumulate), comps, |comps|, c)
  {
    TipColumns(num, accumulate);
    forall k | 0 <= k < |comps| ensures Col(TipLayout(num, accumulate), comps[k]) != c {
      var ck :| 0 <= ck < 2 && TipKeys[ck] == comps[k];
    }
  }

  /** A tipper component goes through the keyed write exactly when the keys
      of its first nz frequencies are all in the index and name rows below
      nfreq. */
  lemma TipKeyedFits(table: Table, ikey: string, nz: nat, num: Numerics, index: map<string, nat>, nfreq: nat)
    requires ikey in TipKeys && ikey in table && |table[ikey]| >= nz
    ensures KeyedFits(table, ikey, nz, num.key, index, TipLayout(num, true), 2 * nfreq) <==>
              forall l :: 0 <= l < nz ==> num.key(table[ikey][l].freq) in index && index[num.key(table[ikey][l].freq)] < nfreq
  {
    TipColumns(num, true);
    var c :| 0 <= c < 2 && TipKeys[c] == ikey;
    assert |Take(table[ikey], nz)| == nz;
    forall l | 0 <= l < nz && num.key(table[ikey][l].freq) in index {
      CellRow(2, index[num.key(table[ikey][l].freq)], c, nfreq);
    }
  }

  /** The first fill_Tipper (no tipper yet): the tipper is the loop run over
      zeros, assigned only when the loop goes through. */
  lemma TipFirstForm(t: Tensors, table: Table, comps: seq<string>, num: Numerics)
    requires Shaped(t) && Uniform(table, comps, TipKeys) && !(t.nfreqTip > 0 && t.hasTip)
    ensures FreqSetup(table, comps).Ok?
    ensures var fs := FreqSetup(table, comps).value;
            var cu := CompsUpTo(Bufs(seq(2 * fs.nz, _ => Zero), seq(2 * fs.nz, _ => 0.0), None), table, comps, fs.nz,
                                Column, TipLayout(num, false), |comps|);
            FillTipper(t, table, comps, num) ==
              Filled(t.(nfreqTip := fs.nz, freqDict := FreqIndex(fs.freq, num.key, |fs.freq|),
                        tip := cu.vals, tipErr := cu.errs, tipFreq := fs.freq, hasTip := true), None)
  {
    NzFits(table, comps, TipKeys);
    TipColumns(num, false);
    var nz := FreqSetup(table, comps).value.nz;
    ColumnsByKey(Bufs(seq(2 * nz, _ => Zero), seq(2 * nz, _ => 0.0), None), table, comps, nz, TipLayout(num, false), TipKeys);
  }

  /** A later fill_Tipper in column mode: the contributions are added to the
      old tipper grown to the file's frequency count, and the sum is
      halved. */
  lemma TipLaterForm(t: Tensors, table: Table, comps: seq<string>, num: Numerics)
    requires Shaped(t) && Uniform(table, comps, TipKeys) && t.nfreqTip > 0 && t.hasTip
    requires FreqSetup(table, comps).Ok? && t.nfreqTip <= FreqSetup(table, comps).value.nz
    ensures var fs := FreqSetup(table, comps).value;
            var cu := CompsUpTo(Bufs(Grow(t.tip, 2 * fs.nz, Zero), Grow(t.tipErr, 2 * fs.nz, 0.0), None), table, comps,
                                fs.nz, Column, TipLayout(num, true), |comps|);
            var grown := fs.nz > t.nfreqTip;
            FillTipper(t, table, comps, num) ==
              Filled(t.(freqDict := if grown then FreqIndex(fs.freq, num.key, |fs.freq|) else t.freqDict,
                        nfreqTip := fs.nz, tipFreq := if grown then fs.freq else t.tipFreq,
                        tip := MapCells(cu.vals, Half), tipErr := cu.errs), None)
  {
    NzFits(table, comps, TipKeys);
    TipColumns(num, true);
    var nz := FreqSetup(table, comps).value.nz;
    var gt, ge := Grow(t.tip, 2 * nz, Zero), Grow(t.tipErr, 2 * nz, 0.0);
    ColumnsByKey(Bufs(gt, ge, None), table, comps, nz, TipLayout(num, true), TipKeys);
    if nz == t.nfreqTip {
      assert gt == gt[..|t.tip|] == t.tip;
      assert ge == ge[..|t.tipErr|] == t.tipErr;
    }
  }

  /** A later fill_Tipper with fewer frequencies than the tipper: the keyed
      loop adds into the tipper, which is halved only if the loop went
      through. */
  lemma TipKeyedForm(t: Tensors, table: Table, comps: seq<string>, num: Numerics)
    requires Shaped(t) && t.hasTip && FreqSetup(table, comps).Ok? && FreqSetup(table, comps).value.nz < t.nfreqTip
    ensures var cu := CompsUpTo(Bufs(t.tip, t.tipErr, None), table, comps, FreqSetup(table, comps).value.nz,
                                Keyed(num.key, t.freqDict), TipLayout(num, true), |comps|);
            FillTipper(t, table, comps, num) ==
              if cu.failure.Some? then Filled(t.(tip := cu.vals, tipErr := cu.errs), cu.failure)
              else Filled(t.(tip := MapCells(cu.vals, Half), tipErr := cu.errs), None)
  {
  }

  /** The first fill_Tipper's pass over a zero tipper of nz rows, cell by
      cell: a listed column receives the values and %err * 0.05 * |t| as the
      error, and an unlisted one stays zero. */
  lemma TipFirstCells(table: Table, comps: seq<string>, num: Numerics)
    requires Uniform(table, comps, TipKeys)
    ensures FreqSetup(table, comps).Ok?
    ensures var nz := FreqSetup(table, comps).value.nz;
            var cu := CompsUpTo(Bufs(seq(2 * nz, _ => Zero), seq(2 * nz, _ => 0.0), None), table, comps, nz, Column,
                                TipLayout(num, false), |comps|);
            forall c, l: nat :: 0 <= c < 2 && l < nz ==>
              Cell(2, l, c) < |cu.vals| &&
              (TipKeys[c] in comps ==>
                 cu.vals[Cell(2, l, c)] == num.polar(table[TipKeys[c]][l].zMag, table[TipKeys[c]][l].zPhz) &&
                 cu.errs[Cell(2, l, c)] == TipError(num, table[TipKeys[c]][l])) &&
              (TipKeys[c] !in comps ==> cu.vals[Cell(2, l, c)] == Zero && cu.errs[Cell(2, l, c)] == 0.0)
  {
    TipColumns(num, false);
    NzFits(table, comps, TipKeys);
    var nz := FreqSetup(table, comps).value.nz;
    var lay := TipLayout(num, false);
    var b := Bufs(seq(2 * nz, _ => Zero), seq(2 * nz, _ => 0.0), None);
    var cu := CompsUpTo(b, table, comps, nz, Column, lay, |comps|);
    ColumnsByKey(b, table, comps, nz, lay, TipKeys);
    forall c, l: nat | 0 <= c < 2 && l < nz
      ensures Cell(2, l, c) < |cu.vals|
      ensures TipKeys[c] in comps ==>
                cu.vals[Cell(2, l, c)] == num.polar(table[TipKeys[c]][l].zMag, table[TipKeys[c]][l].zPhz) &&
                cu.errs[Cell(2, l, c)] == TipError(num, table[TipKeys[c]][l])
      ensures TipKeys[c] !in comps ==> cu.vals[Cell(2, l, c)] == Zero && cu.errs[Cell(2, l, c)] == 0.0
    {
      if TipKeys[c] in comps {
        assert cu.vals[Cell(2, l, c)] == lay.setV(b.vals[Cell(2, l, c)], lay.value(TipKeys[c], table[TipKeys[c]][l]));
        assert cu.errs[Cell(2, l, c)] == lay.setE(b.errs[Cell(2, l, c)], lay.error(TipKeys[c], table[TipKeys[c]][l]));
      }
    }
  }

  /** The first fill_Tipper goes through, records the file's frequencies
      and rebuilds the shared index, leaves Z alone, and fills each listed
      component's column with its values and %err * 0.05 * |t| as the
      error; the other column is zero. */
  lemma FillTipperFirst(t: Tensors, table: Table, comps: seq<string>, num: Numerics)
    requires Shaped(t) && Uniform(table, comps, TipKeys) && !(t.nfreqTip > 0 && t.hasTip)
    ensures FreqSetup(table, comps).Ok?
    ensures var fs := FreqSetup(table, comps).value;
            var r := FillTipper(t, table, comps, num);
            r.failure.None? && r.t.hasTip && r.t.nfreqTip == fs.nz && r.t.tipFreq == fs.freq &&
            r.t.freqDict == FreqIndex(fs.freq, num.key, |fs.freq|) &&
            r.t.(tip := t.tip, tipErr := t.tipErr, tipFreq := t.tipFreq, nfreqTip := t.nfreqTip, hasTip := t.hasTip,
                 freqDict := t.freqDict) == t
    ensures var nz := FreqSetup(table, comps).value.nz;
            var r := FillTipper(t, table, comps, num).t;
            forall c, l: nat :: 0 <= c < 2 && TipKeys[c] in comps && l < nz ==>
              var row := table[TipKeys[c]][l];
              var v := num.polar(row.zMag, row.zPhz);
              Cell(2, l, c) < |r.tip| && r.tip[Cell(2, l, c)] == v && r.tipErr[Cell(2, l, c)] == TipError(num, row)
    ensures var nz := FreqSetup(table, comps).value.nz;
            var r := FillTipper(t, table, comps, num).t;
            forall c, l: nat :: 0 <= c < 2 && TipKeys[c] !in comps && l < nz ==>
              Cell(2, l, c) < |r.tip| && r.tip[Cell(2, l, c)] == Zero && r.tipErr[Cell(2, l, c)] == 0.0
  {
    TipFirstForm(t, table, comps, num);
    TipFirstCells(table, comps, num);
  }

  /** A later fill_Tipper in column mode goes through, leaves Z alone and
      keeps nfreq_tipper at the file's count; the frequencies and the shared
      index are rebuilt only when the file has more frequencies than the
      tipper holds. */
  lemma FillTipperLater(t: Tensors, table: Table, comps: seq<string>, num: Numerics)
    requires Shaped(t) && Uniform(table, comps, TipKeys) && t.nfreqTip > 0 && t.hasTip
    requires FreqSetup(table, comps).Ok? && t.nfreqTip <= FreqSetup(table, comps).value.nz
    ensures var fs := FreqSetup(table, comps).value;
            var r := FillTipper(t, table, comps, num);
            var grown := fs.nz > t.nfreqTip;
            r.failure.None? && r.t.nfreqTip == fs.nz &&
            r.t.tipFreq == (if grown then fs.freq else t.tipFreq) &&
            r.t.freqDict == (if grown then FreqIndex(fs.freq, num.key, |fs.freq|) else t.freqDict) &&
            r.t.(tip := t.tip, tipErr := t.tipErr, tipFreq := t.tipFreq, nfreqTip := t.nfreqTip, freqDict := t.freqDict) == t
  {
    TipLaterForm(t, table, comps, num);
  }

  /** The later column-mode pass over a tipper grown to the file's nz
      rows, cell by cell: a listed column receives each contribution added
      to the old cell and the error added to the old error, an unlisted one
      keeps both, and cells past the old tipper start at zero. */
  lemma TipAddCells(tip: seq<Cplx>, tipErr: seq<real>, table: Table, comps: seq<string>, num: Numerics)
    requires Uniform(table, comps, TipKeys)
    requires FreqSetup(table, comps).Ok?
    requires |tip| <= 2 * FreqSetup(table, comps).value.nz && |tipErr| <= 2 * FreqSetup(table, comps).value.nz
    ensures var nz := FreqSetup(table, comps).value.nz;
            var cu := CompsUpTo(Bufs(Grow(tip, 2 * nz, Zero), Grow(tipErr, 2 * nz, 0.0), None), table, comps, nz,
                                Column, TipLayout(num, true), |comps|);
            forall c, l: nat :: 0 <= c < 2 && l < nz ==>
              var prior := if Cell(2, l, c) < |tip| then tip[Cell(2, l, c)] else Zero;
              var priorErr := if Cell(2, l, c) < |tipErr| then tipErr[Cell(2, l, c)] else 0.0;
              Cell(2, l, c) < |cu.vals| &&
              (TipKeys[c] in comps ==>
                 cu.vals[Cell(2, l, c)] == Add(prior, num.polar(table[TipKeys[c]][l].zMag, table[TipKeys[c]][l].zPhz)) &&
                 cu.errs[Cell(2, l, c)] == priorErr + TipError(num, table[TipKeys[c]][l])) &&
              (TipKeys[c] !in comps ==> cu.vals[Cell(2, l, c)] == prior && cu.errs[Cell(2, l, c)] == priorErr)
  {
    TipColumns(num, true);
    var nz := FreqSetup(table, comps).value.nz;
    NzFits(table, comps, TipKeys);
    var lay := TipLayout(num, true);
    var b := Bufs(Grow(tip, 2 * nz, Zero), Grow(tipErr, 2 * nz, 0.0), None);
    assert Based(b.vals, tip, Zero, 2 * nz) && Based(b.errs, tipErr, 0.0, 2 * nz);
    ColumnsByKey(b, table, comps, nz, lay, TipKeys);
    var cu := CompsUpTo(b, table, comps, nz, Column, lay, |comps|);
    forall c, l: nat | 0 <= c < 2 && l < nz
      ensures Cell(2, l, c) < |cu.vals|
      ensures TipKeys[c] in comps ==>
                cu.vals[Cell(2, l, c)] == Add(b.vals[Cell(2, l, c)], num.polar(table[TipKeys[c]][l].zMag, table[TipKeys[c]][l].zPhz)) &&
                cu.errs[Cell(2, l, c)] == b.errs[Cell(2, l, c)] + TipError(num, table[TipKeys[c]][l])
      ensures TipKeys[c] !in comps ==> cu.vals[Cell(2, l, c)] == b.vals[Cell(2, l, c)] && cu.errs[Cell(2, l, c)] == b.errs[Cell(2, l, c)]
    {
      if TipKeys[c] in comps {
        assert cu.vals[Cell(2, l, c)] == lay.setV(b.vals[Cell(2, l, c)], lay.value(TipKeys[c], table[TipKeys[c]][l]));
        assert cu.errs[Cell(2, l, c)] == lay.setE(b.errs[Cell(2, l, c)], lay.error(TipKeys[c], table[TipKeys[c]][l]));
      }
    }
  }

  /** The same pass followed by the halving of every value: a listed cell
      is half the old cell plus the contribution, so a contribution equal to
      the old value leaves it, and an unlisted cell is half the old one. */
  lemma TipHalvedCells(tip: seq<Cplx>, tipErr: seq<real>, table: Table, comps: seq<string>, num: Numerics)
    requires Uniform(table, comps, TipKeys)
    requires FreqSetup(table, comps).Ok?
    requires |tip| <= 2 * FreqSetup(table, comps).value.nz && |tipErr| <= 2 * FreqSetup(table, comps).value.nz
    ensures var nz := FreqSetup(table, comps).value.nz;
            var cu := CompsUpTo(Bufs(Grow(tip, 2 * nz, Zero), Grow(tipErr, 2 * nz, 0.0), None), table, comps, nz,
                                Column, TipLayout(num, true), |comps|);
            var h := MapCells(cu.vals, Half);
            forall c, l: nat :: 0 <= c < 2 && l < nz ==>
              var prior := if Cell(2, l, c) < |tip| then tip[Cell(2, l, c)] else Zero;
              var priorErr := if Cell(2, l, c) < |tipErr| then tipErr[Cell(2, l, c)] else 0.0;
              Cell(2, l, c) < |h| &&
              (TipKeys[c] in comps ==>
                 var v := num.polar(table[TipKeys[c]][l].zMag, table[TipKeys[c]][l].zPhz);
                 h[Cell(2, l, c)] == Half(Add(prior, v)) && (prior == v ==> h[Cell(2, l, c)] == v) &&
                 cu.errs[Cell(2, l, c)] == priorErr + TipError(num, table[TipKeys[c]][l])) &&
              (TipKeys[c] !in comps ==> h[Cell(2, l, c)] == Half(prior) && cu.errs[Cell(2, l, c)] == priorErr)
  {
    TipAddCells(tip, tipErr, table, comps, num);
    forall v: Cplx
      ensures Half(Add(v, v)) == v
    {
      HalfTwice(v);
    }
  }

  /** In a later fill_Tipper in column mode, each cell of a listed
      component's column becomes half the old cell plus the contribution, so
      a contribution equal to the old value leaves that value, while the
      error is the old error plus %err * 0.05 * |t|, not halved. Old cells
      past the old tipper count as zero. */
  lemma FillTipperLaterListed(t: Tensors, table: Table, comps: seq<string>, num: Numerics)
    requires Shaped(t) && Uniform(table, comps, TipKeys) && t.nfreqTip > 0 && t.hasTip
    requires FreqSetup(table, comps).Ok? && t.nfreqTip <= FreqSetup(table, comps).value.nz
    ensures var nz := FreqSetup(table, comps).value.nz;
            var r := FillTipper(t, table, comps, num).t;
            forall c, l: nat :: 0 <= c < 2 && TipKeys[c] in comps && l < nz ==>
              var row := table[TipKeys[c]][l];
              var v := num.polar(row.zMag, row.zPhz);
              var prior := if Cell(2, l, c) < |t.tip| then t.tip[Cell(2, l, c)] else Zero;
              var priorErr := if Cell(2, l, c) < |t.tipErr| then t.tipErr[Cell(2, l, c)] else 0.0;
              Cell(2, l, c) < |r.tip| && r.tip[Cell(2, l, c)] == Half(Add(prior, v)) &&
              (prior == v ==> r.tip[Cell(2, l, c)] == v) &&
              r.tipErr[Cell(2, l, c)] == priorErr + TipError(num, row)
  {
    TipLaterForm(t, table, comps, num);
    TipHalvedCells(t.tip, t.tipErr, table, comps, num);
  }

  /** In a later fill_Tipper in column mode, an unlisted column is halved
      and keeps its error. */
  lemma FillTipperLaterOthers(t: Tensors, table: Table, comps: seq<string>, num: Numerics)
    requires Shaped(t) && Uniform(table, comps, TipKeys) && t.nfreqTip > 0 && t.hasTip
    requires FreqSetup(table, comps).Ok? && t.nfreqTip <= FreqSetup(table, comps).value.nz
    ensures var nz := FreqSetup(table, comps).value.nz;
            var r := FillTipper(t, table, comps, num).t;
            forall c, l: nat :: 0 <= c < 2 && TipKeys[c] !in comps && l < nz ==>
              var prior := if Cell(2, l, c) < |t.tip| then t.tip[Cell(2, l, c)] else Zero;
              var priorErr := if Cell(2, l, c) < |t.tipErr| then t.tipErr[Cell(2, l, c)] else 0.0;
              Cell(2, l, c) < |r.tip| && r.tip[Cell(2, l, c)] == Half(prior) && r.tipErr[Cell(2, l, c)] == priorErr
  {
    TipLaterForm(t, table, comps, num);
    TipHalvedCells(t.tip, t.tipErr, table, comps, num);
  }

  /** The keyed pass of fill_Tipper over a tipper of nfreq rows: it goes
      through exactly when every key is in the index and names one of those
      rows, keeps the buffers' sizes, and leaves an unlisted column alone. */
  lemma TipKeyedCells(tip: seq<Cplx>, tipErr: seq<real>, index: map<string, nat>, nfreq: nat, table: Table,
                      comps: seq<string>, num: Numerics)
    requires Uniform(table, comps, TipKeys) && FreqSetup(table, comps).Ok? && FreqSetup(table, comps).value.nz < nfreq
    requires |tip| == 2 * nfreq && |tipErr| == 2 * nfreq
    ensures var nz := FreqSetup(table, comps).value.nz;
            var cu := CompsUpTo(Bufs(tip, tipErr, None), table, comps, nz, Keyed(num.key, index), TipLayout(num, true),
                                |comps|);
            (cu.failure.None? <==>
               forall k, l :: 0 <= k < |comps| && 0 <= l < nz ==>
                 num.key(table[comps[k]][l].freq) in index && index[num.key(table[comps[k]][l].freq)] < nfreq) &&
            |cu.vals| == |tip| && |cu.errs| == |tipErr| &&
            forall c, l: nat :: 0 <= c < 2 && TipKeys[c] !in comps && l < nfreq ==>
              Cell(2, l, c) < |tip| && cu.vals[Cell(2, l, c)] == tip[Cell(2, l, c)] &&
              cu.errs[Cell(2, l, c)] == tipErr[Cell(2, l, c)]
  {
    NzFits(table, comps, TipKeys);
    TipColumns(num, true);
    var nz := FreqSetup(table, comps).value.nz;
    var lay := TipLayout(num, true);
    var b := Bufs(tip, tipErr, None);
    KeyedOk(b, table, comps, nz, num.key, index, lay, |comps|);
    CompsOtherColumns(b, table, comps, nz, Keyed(num.key, index), lay, |comps|);
    forall k | 0 <= k < |comps| {
      TipKeyedFits(table, comps[k], nz, num, index, nfreq);
    }
    forall c, l: nat | 0 <= c < 2 && TipKeys[c] !in comps && l < nfreq
      ensures Cell(2, l, c) < |tip| && Unlisted(lay, comps, |comps|, c)
    {
      CellRow(2, l, c, nfreq);
      TipUnlisted(comps, num, true, c);
    }
  }

  /** A later fill_Tipper with fewer frequencies than the tipper: each value
      is added at the row the shared index gives for its frequency's key.
      The fill goes through exactly when every such key is in the index and
      names one of the tipper's rows; only the tipper's cells change, an
      unlisted column keeps its errors, and its values are halved when the
      fill goes through and kept when it fails. */
  lemma FillTipperKeyed(t: Tensors, table: Table, comps: seq<string>, num: Numerics)
    requires Shaped(t) && Uniform(table, comps, TipKeys) && t.hasTip
    requires FreqSetup(table, comps).Ok? && FreqSetup(table, comps).value.nz < t.nfreqTip
    ensures FillTipper(t, table, comps, num).t.(tip := t.tip, tipErr := t.tipErr) == t
    ensures var nz := FreqSetup(table, comps).value.nz;
            FillTipper(t, table, comps, num).failure.None? <==>
              forall k, l :: 0 <= k < |comps| && 0 <= l < nz ==>
                num.key(table[comps[k]][l].freq) in t.freqDict && t.freqDict[num.key(table[comps[k]][l].freq)] < t.nfreqTip
    ensures var r := FillTipper(t, table, comps, num);
            |r.t.tip| == |t.tip| && |r.t.tipErr| == |t.tipErr| &&
            forall c, l: nat :: 0 <= c < 2 && TipKeys[c] !in comps && l < t.nfreqTip ==>
              Cell(2, l, c) < |t.tip| &&
              r.t.tip[Cell(2, l, c)] == (if r.failure.None? then Half(t.tip[Cell(2, l, c)]) else t.tip[Cell(2, l, c)]) &&
              r.t.tipErr[Cell(2, l, c)] == t.tipErr[Cell(2, l, c)]
  {
    TipKeyedForm(t, table, comps, num);
    TipKeyedCells(t.tip, t.tipErr, t.freqDict, t.nfreqTip, table, comps, num);
  }

  /** fill_Z touches Z, its count, its frequencies and the shared index,
      and nothing of the tipper. */
  lemma FillZKeepsTipper(t: Tensors, table: Table, comps: seq<string>, num: Numerics)
    requires Shaped(t)
    ensures var r := FillZ(t, table, comps, num).t;
            r.(z := t.z, zerr := t.zerr, zFreq := t.zFreq, nfreq := t.nfreq, freqDict := t.freqDict) == t
  {
  }

  /** fill_Tipper touches the tipper, its count, its frequencies and the
      shared index, and nothing of Z. */
  lemma FillTipperKeepsZ(t: Tensors, table: Table, comps: seq<string>, num: Numerics)
    requires Shaped(t)
    ensures var r := FillTipper(t, table, comps, num).t;
            r.(tip := t.tip, tipErr := t.tipErr, tipFreq := t.tipFreq, nfreqTip := t.nfreqTip, hasTip := t.hasTip,
               freqDict := t.freqDict) == t
  {
  }
}

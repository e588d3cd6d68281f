// ZongeMTAvg as an object: the impedance tensor and the tipper live in
// flat row-major arrays that fill_Z and fill_Tipper write in place, grow by
// reallocating and copying, and halve with `/=`. Each method is proved to
// leave the object in the state the value-level model in module Fill
// computes.

module MtAvg {
  import opened Failures
  import opened Tensor
  import opened AvgFile
  import opened Text
  import opened Fill

  /** One pass of the component loop on the two buffers, in place. */
  method WriteComp(a: array<Cplx>, e: array<real>, table: Table, ikey: string, nz: nat, mode: Mode, lay: Layout)
    returns (failure: Option<Failure>)
    requires a != e as object && a.Length == e.Length
    modifies a, e
    ensures Bufs(a[..], e[..], failure) == CompUpdate(Bufs(old(a[..]), old(e[..]), None), table, ikey, nz, mode, lay)
  {
    if ikey !in lay.index || ikey !in table {
      return Some(KeyError(ikey));
    }
    var col := Col(lay, ikey);
    if col >= lay.width {
      return Some(IndexError(ikey));
    }
    var rows := Take(table[ikey], nz);
    var vals := Values(lay, ikey, rows);
    var errs := Errors(lay, ikey, rows);
    match mode
    case Column =>
      if |rows| * lay.width != a.Length {
        return Some(ValueError(ikey));
      }
      UpdateColumn(a, lay.width, col, vals, lay.setV);
      UpdateColumn(e, lay.width, col, errs, lay.setE);
      failure := None;
    case Keyed(key, index) =>
      var keys := Keys(key, rows);
      failure := ScatterColumns(a, e, lay.width, col, keys, index, vals, errs, lay.setV, lay.setE, |rows|);
  }

  /** `for ikey in comp_lst: ...` on the two buffers, stopping at the first
      exception with the writes made so far kept. */
  method WriteComps(a: array<Cplx>, e: array<real>, table: Table, comps: seq<string>, nz: nat, mode: Mode,
                    lay: Layout) returns (failure: Option<Failure>)
    requires a != e as object && a.Length == e.Length
    modifies a, e
    ensures Bufs(a[..], e[..], failure) == CompsUpTo(Bufs(old(a[..]), old(e[..]), None), table, comps, nz, mode, lay, |comps|)
  {
    ghost var b := Bufs(a[..], e[..], None);
    failure := None;
    var k := 0;
    while k < |comps| && failure.None?
      invariant 0 <= k <= |comps| && a.Length == e.Length
      invariant Bufs(a[..], e[..], failure) == CompsUpTo(b, table, comps, nz, mode, lay, k)
    {
      failure := WriteComp(a, e, table, comps[k], nz, mode, lay);
      k := k + 1;
    }
    if failure.Some? {
      CompsStopped(b, table, comps, nz, mode, lay, k, |comps|);
    }
  }

  /** fill_Z on an existing Z: the grown (or unchanged) tensors with the
      component loop run over their buffers. */
  lemma ZLaterBranch(t: Tensors, table: Table, comps: seq<string>, num: Numerics)
    requires Shaped(t) && FreqSetup(table, comps).Ok? && t.nfreq > 0
    ensures var fs := FreqSetup(table, comps).value;
            var t1 := if fs.nz > t.nfreq then
                        t.(freqDict := FreqIndex(fs.freq, num.key, |fs.freq|), nfreq := fs.nz,
                           z := Grow(t.z, 4 * fs.nz, Zero), zerr := Grow(t.zerr, 4 * fs.nz, 0.0), zFreq := fs.freq)
                      else t;
            var mode := if fs.nz != t1.nfreq then Keyed(num.key, t1.freqDict) else Column;
            var cu := CompsUpTo(Bufs(t1.z, t1.zerr, None), table, comps, fs.nz, mode, ZLayout(num), |comps|);
            Fill.FillZ(t, table, comps, num) == Filled(t1.(z := cu.vals, zerr := cu.errs), cu.failure)
  {
  }

  /** fill_Z with no Z yet: nfreq and freq_dict are set first, and Z is
      replaced only if the loop over a zero tensor goes through. */
  lemma ZFirstBranch(t: Tensors, table: Table, comps: seq<string>, num: Numerics)
    requires Shaped(t) && FreqSetup(table, comps).Ok? && t.nfreq == 0
    ensures var fs := FreqSetup(table, comps).value;
            var t1 := t.(nfreq := fs.nz, freqDict := FreqIndex(fs.freq, num.key, |fs.freq|));
            var cu := CompsUpTo(Bufs(seq(4 * fs.nz, _ => Zero), seq(4 * fs.nz, _ => 0.0), None), table, comps, fs.nz,
                                Column, ZLayout(num), |comps|);
            Fill.FillZ(t, table, comps, num) ==
              if cu.failure.Some? then Filled(t1, cu.failure) else Filled(t1.(z := cu.vals, zerr := cu.errs, zFreq := fs.freq), None)
  {
  }

  /** fill_Z on Z's buffers and attributes, given as t: the buffers are
      written in place or replaced by grown or fresh ones, and the new Z
      and index are returned. */
  method FillZOn(z: array<Cplx>, zerr: array<real>, ghost t: Tensors, zFreq: seq<real>, nfreq: nat,
                 freqDict: map<string, nat>, table: Table, comps: seq<string>, num: Numerics)
    returns (z': array<Cplx>, zerr': array<real>, zFreq': seq<real>, nfreq': nat, freqDict': map<string, nat>,
             failure: Option<Failure>)
    requires Shaped(t) && z[..] == t.z && zerr[..] == t.zerr
    requires zFreq == t.zFreq && nfreq == t.nfreq && freqDict == t.freqDict
    modifies z, zerr
    ensures z' == z || fresh(z')
    ensures zerr' == zerr || fresh(zerr')
    ensures Fill.FillZ(t, table, comps, num) ==
              Filled(t.(z := z'[..], zerr := zerr'[..], zFreq := zFreq', nfreq := nfreq', freqDict := freqDict'), failure)
  {
    var setup := FreqSetup(table, comps);
    if setup.Err? {
      return z, zerr, zFreq, nfreq, freqDict, Some(setup.failure);
    }
    if nfreq > 0 {
      z', zerr', zFreq', nfreq', freqDict', failure := ZLaterOn(z, zerr, t, zFreq, nfreq, freqDict, table, comps, num);
    } else {
      z', zerr', zFreq', nfreq', freqDict', failure := ZFirstOn(z, zerr, t, zFreq, table, comps, num);
    }
  }

  /** fill_Z on an existing Z: grown if the file has more frequencies,
      then written in place. */
  method ZLaterOn(z: array<Cplx>, zerr: array<real>, ghost t: Tensors, zFreq: seq<real>, nfreq: nat,
                  freqDict: map<string, nat>, table: Table, comps: seq<string>, num: Numerics)
    returns (z': array<Cplx>, zerr': array<real>, zFreq': seq<real>, nfreq': nat, freqDict': map<string, nat>,
             failure: Option<Failure>)
    requires Shaped(t) && z[..] == t.z && zerr[..] == t.zerr
    requires zFreq == t.zFreq && nfreq == t.nfreq && freqDict == t.freqDict
    requires FreqSetup(table, comps).Ok? && nfreq > 0
    modifies z, zerr
    ensures z' == z || fresh(z')
    ensures zerr' == zerr || fresh(zerr')
    ensures Fill.FillZ(t, table, comps, num) ==
              Filled(t.(z := z'[..], zerr := zerr'[..], zFreq := zFreq', nfreq := nfreq', freqDict := freqDict'), failure)
  {
    var nz, freq := FreqSetup(table, comps).value.nz, FreqSetup(table, comps).value.freq;
    z', zerr', zFreq', nfreq', freqDict' := z, zerr, zFreq, nfreq, freqDict;
    if nz > nfreq {
      z' := GrowArray(z, 4 * nz, Zero);
      zerr' := GrowArray(zerr, 4 * nz, 0.0);
      zFreq', nfreq', freqDict' := freq, nz, FreqIndex(freq, num.key, |freq|);
    }
    var mode := if nz != nfreq' then Keyed(num.key, freqDict') else Column;
    failure := WriteComps(z', zerr', table, comps, nz, mode, ZLayout(num));
    ZLaterBranch(t, table, comps, num);
  }

  /** fill_Z with no Z yet: a zero tensor is filled and replaces Z only if
      every component went through; nfreq and freq_dict are set first. */
  method ZFirstOn(z: array<Cplx>, zerr: array<real>, ghost t: Tensors, zFreq: seq<real>, table: Table,
                  comps: seq<string>, num: Numerics)
    returns (z': array<Cplx>, zerr': array<real>, zFreq': seq<real>, nfreq': nat, freqDict': map<string, nat>,
             failure: Option<Failure>)
    requires Shaped(t) && z[..] == t.z && zerr[..] == t.zerr
    requires zFreq == t.zFreq && FreqSetup(table, comps).Ok? && t.nfreq == 0
    ensures z' == z || fresh(z')
    ensures zerr' == zerr || fresh(zerr')
    ensures Fill.FillZ(t, table, comps, num) ==
              Filled(t.(z := z'[..], zerr := zerr'[..], zFreq := zFreq', nfreq := nfreq', freqDict := freqDict'), failure)
  {
    var nz, freq := FreqSetup(table, comps).value.nz, FreqSetup(table, comps).value.freq;
    var a := new Cplx[4 * nz](_ => Zero);
    var e := new real[4 * nz](_ => 0.0);
    assert a[..] == seq(4 * nz, _ => Zero) && e[..] == seq(4 * nz, _ => 0.0);
    failure := WriteComps(a, e, table, comps, nz, Column, ZLayout(num));
    ZFirstBranch(t, table, comps, num);
    nfreq', freqDict' := nz, FreqIndex(freq, num.key, |freq|);
    if failure.None? {
      z', zerr', zFreq' := a, e, freq;
    } else {
      z', zerr', zFreq' := z, zerr, zFreq;
    }
  }

  /** fill_Tipper on an existing tipper: grown if the file has more
      frequencies, the loop run over its buffers, and the values halved if
      it went through. */
  lemma TipLaterBranch(t: Tensors, table: Table, comps: seq<string>, num: Numerics)
    requires Shaped(t) && FreqSetup(table, comps).Ok? && t.nfreqTip > 0 && t.hasTip
    ensures var fs := FreqSetup(table, comps).value;
            var t1 := if fs.nz > t.nfreqTip then
                        t.(freqDict := FreqIndex(fs.freq, num.key, |fs.freq|), nfreqTip := fs.nz,
                           tip := Grow(t.tip, 2 * fs.nz, Zero), tipErr := Grow(t.tipErr, 2 * fs.nz, 0.0), tipFreq := fs.freq)
                      else t;
            var mode := if fs.nz != t1.nfreqTip then Keyed(num.key, t1.freqDict) else Column;
            var cu := CompsUpTo(Bufs(t1.tip, t1.tipErr, None), table, comps, fs.nz, mode, TipLayout(num, true), |comps|);
            Fill.FillTipper(t, table, comps, num) ==
              if cu.failure.Some? then Filled(t1.(tip := cu.vals, tipErr := cu.errs), cu.failure)
              else Filled(t1.(tip := MapCells(cu.vals, Half), tipErr := cu.errs), None)
  {
  }

  /** fill_Tipper with no tipper yet: nfreq_tipper and freq_dict are set
      first, and the tipper is replaced only if the loop over a zero tipper
      goes through. */
  lemma TipFirstBranch(t: Tensors, table: Table, comps: seq<string>, num: Numerics)
    requires Shaped(t) && FreqSetup(table, comps).Ok? && !(t.nfreqTip > 0 && t.hasTip)
    ensures var fs := FreqSetup(table, comps).value;
            var t1 := t.(nfreqTip := fs.nz, freqDict := FreqIndex(fs.freq, num.key, |fs.freq|));
            var cu := CompsUpTo(Bufs(seq(2 * fs.nz, _ => Zero), seq(2 * fs.nz, _ => 0.0), None), table, comps, fs.nz,
                                Column, TipLayout(num, false), |comps|);
            Fill.FillTipper(t, table, comps, num) ==
              if cu.failure.Some? then Filled(t1, cu.failure)
              else Filled(t1.(tip := cu.vals, tipErr := cu.errs, tipFreq := fs.freq, hasTip := true), None)
  {
  }

  /** fill_Tipper on the tipper's buffers and attributes, given as t. */
  method FillTipperOn(tip: array<Cplx>, tipErr: array<real>, ghost t: Tensors, tipFreq: seq<real>, nfreqTip: nat,
                      hasTip: bool, freqDict: map<string, nat>, table: Table, comps: seq<string>, num: Numerics)
    returns (tip': array<Cplx>, tipErr': array<real>, tipFreq': seq<real>, nfreqTip': nat, hasTip': bool,
             freqDict': map<string, nat>, failure: Option<Failure>)
    requires Shaped(t) && tip[..] == t.tip && tipErr[..] == t.tipErr
    requires tipFreq == t.tipFreq && nfreqTip == t.nfreqTip && hasTip == t.hasTip && freqDict == t.freqDict
    modifies tip, tipErr
    ensures tip' == tip || fresh(tip')
    ensures tipErr' == tipErr || fresh(tipErr')
    ensures Fill.FillTipper(t, table, comps, num) ==
              Filled(t.(tip := tip'[..], tipErr := tipErr'[..], tipFreq := tipFreq', nfreqTip := nfreqTip', hasTip := hasTip',
                        freqDict := freqDict'), failure)
  {
    var setup := FreqSetup(table, comps);
    if setup.Err? {
      return tip, tipErr, tipFreq, nfreqTip, hasTip, freqDict, Some(setup.failure);
    }
    if nfreqTip > 0 && hasTip {
      hasTip' := true;
      tip', tipErr', tipFreq', nfreqTip', freqDict', failure :=
        TipLaterOn(tip, tipErr, t, tipFreq, nfreqTip, freqDict, table, comps, num);
    } else {
      tip', tipErr', tipFreq', nfreqTip', hasTip', freqDict', failure :=
        TipFirstOn(tip, tipErr, t, tipFreq, hasTip, table, comps, num);
    }
  }

  /** fill_Tipper on an existing tipper: grown if the file has more
      frequencies, added into in place, and halved, errors excepted, if
      every component went through. */
  method TipLaterOn(tip: array<Cplx>, tipErr: array<real>, ghost t: Tensors, tipFreq: seq<real>, nfreqTip: nat,
                    freqDict: map<string, nat>, table: Table, comps: seq<string>, num: Numerics)
    returns (tip': array<Cplx>, tipErr': array<real>, tipFreq': seq<real>, nfreqTip': nat, freqDict': map<string, nat>,
             failure: Option<Failure>)
    requires Shaped(t) && tip[..] == t.tip && tipErr[..] == t.tipErr
    requires tipFreq == t.tipFreq && nfreqTip == t.nfreqTip && freqDict == t.freqDict
    requires FreqSetup(table, comps).Ok? && nfreqTip > 0 && t.hasTip
    modifies tip, tipErr
    ensures tip' == tip || fresh(tip')
    ensures tipErr' == tipErr || fresh(tipErr')
    ensures Fill.FillTipper(t, table, comps, num) ==
              Filled(t.(tip := tip'[..], tipErr := tipErr'[..], tipFreq := tipFreq', nfreqTip := nfreqTip',
                        freqDict := freqDict'), failure)
  {
    var nz, freq := FreqSetup(table, comps).value.nz, FreqSetup(table, comps).value.freq;
    tip', tipErr', tipFreq', nfreqTip', freqDict' := tip, tipErr, tipFreq, nfreqTip, freqDict;
    if nz > nfreqTip {
      tip' := GrowArray(tip, 2 * nz, Zero);
      tipErr' := GrowArray(tipErr, 2 * nz, 0.0);
      tipFreq', nfreqTip', freqDict' := freq, nz, FreqIndex(freq, num.key, |freq|);
    }
    var mode := if nz != nfreqTip' then Keyed(num.key, freqDict') else Column;
    failure := WriteComps(tip', tipErr', table, comps, nz, mode, TipLayout(num, true));
    if failure.None? {
      MapArray(tip', Half);
    }
    TipLaterBranch(t, table, comps, num);
  }

  /** fill_Tipper with no tipper yet: a zero tipper is filled and replaces
      the old one only if every component went through; nfreq_tipper and
      freq_dict are set first. */
  method TipFirstOn(tip: array<Cplx>, tipErr: array<real>, ghost t: Tensors, tipFreq: seq<real>, hasTip: bool,
                    table: Table, comps: seq<string>, num: Numerics)
    returns (tip': array<Cplx>, tipErr': array<real>, tipFreq': seq<real>, nfreqTip': nat, hasTip': bool,
             freqDict': map<string, nat>, failure: Option<Failure>)
    requires Shaped(t) && tip[..] == t.tip && tipErr[..] == t.tipErr && tipFreq == t.tipFreq && hasTip == t.hasTip
    requires FreqSetup(table, comps).Ok? && !(t.nfreqTip > 0 && t.hasTip)
    ensures tip' == tip || fresh(tip')
    ensures tipErr' == tipErr || fresh(tipErr')
    ensures Fill.FillTipper(t, table, comps, num) ==
              Filled(t.(tip := tip'[..], tipErr := tipErr'[..], tipFreq := tipFreq', nfreqTip := nfreqTip', hasTip := hasTip',
                        freqDict := freqDict'), failure)
  {
    var nz, freq := FreqSetup(table, comps).value.nz, FreqSetup(table, comps).value.freq;
    var a := new Cplx[2 * nz](_ => Zero);
    var e := new real[2 * nz](_ => 0.0);
    assert a[..] == seq(2 * nz, _ => Zero) && e[..] == seq(2 * nz, _ => 0.0);
    failure := WriteComps(a, e, table, comps, nz, Column, TipLayout(num, false));
    TipFirstBranch(t, table, comps, num);
    nfreqTip', freqDict' := nz, FreqIndex(freq, num.key, |freq|);
    if failure.None? {
      tip', tipErr', tipFreq', hasTip' := a, e, freq, true;
    } else {
      tip', tipErr', tipFreq', hasTip' := tip, tipErr, tipFreq, hasTip;
    }
  }

  /** The attributes of a ZongeMTAvg that read_avg_file, fill_Z and
      fill_Tipper use: Z (z, zerr and freq, nfreq rows of 2 x 2 cells),
      the Tipper (tipper, absent until the first fill, tipper_err and freq,
      nfreq_tipper rows of 1 x 2 cells), the shared freq_dict, and the
      parser's comp, comp_flag, comp_lst_z, comp_lst_tip, comp_dict and
      header_dict. */
  class ZongeMtAvg {
    var z: array<Cplx>
    var zerr: array<real>
    var zFreq: seq<real>
    var nfreq: nat
    var tip: array<Cplx>
    var tipErr: array<real>
    var tipFreq: seq<real>
    var nfreqTip: nat
    var hasTip: bool
    var freqDict: map<string, nat>
    var comp: Option<char>
    var compFlag: map<string, bool>
    var lstZ: seq<string>
    var lstTip: seq<string>
    var compDict: Table
    var header: map<string, string>

    /** The tensor attributes as a value. */
    function State(): Tensors
      reads this, z, zerr, tip, tipErr
    {
      Tensors(z[..], zerr[..], zFreq, nfreq, tip[..], tipErr[..], tipFreq, nfreqTip, hasTip, freqDict)
    }

    /** Z and the tipper are separate objects. */
    predicate Separate()
      reads this
    {
      z != tip && zerr != tipErr
    }

    /** The tensors are separate and each has as many rows as its count
        says. */
    predicate Valid()
      reads this, z, zerr, tip, tipErr
    {
      Separate() && Shaped(State())
    }

    /** A new ZongeMTAvg: no Z, no tipper, no counts, no index, and all
        component lists empty. */
    constructor ()
      ensures Valid()
      ensures State() == Tensors([], [], [], 0, [], [], [], 0, false, map[])
      ensures comp.None? && lstZ == [] && lstTip == [] && compDict == map[] && header == map[]
      ensures compFlag == map k | k in CompKeys :: false
    {
      z := new Cplx[0];
      zerr := new real[0];
      zFreq := [];
      nfreq := 0;
      tip := new Cplx[0];
      tipErr := new real[0];
      tipFreq := [];
      nfreqTip := 0;
      hasTip := false;
      freqDict := map[];
      comp := None;
      compFlag := map k | k in CompKeys :: false;
      lstZ := [];
      lstTip := [];
      compDict := map[];
      header := map[];
    }

    /** read_avg_file: an IOError if the file is not there, an IndexError
        if its base name is empty; otherwise comp is the base name's first
        letter, the parser's attributes are what the loop over the file's
        lines leaves (also when a line raises, which ends the read), and a
        read that goes through ends with fill_Z and then fill_Tipper. The
        file system is given as whether the path exists and the lines it
        holds. */
    method ReadAvgFile(path: string, isFile: bool, lines: seq<string>, conv: Conv, num: Numerics)
      returns (failure: Option<Failure>)
      requires Valid()
      modifies this, z, zerr, tip, tipErr
      ensures !isFile ==> failure == Some(IOError(path)) && unchanged(this)
      ensures isFile && Basename(path) == [] ==> failure == Some(IndexError(path)) && unchanged(this)
      ensures isFile && Basename(path) != [] ==> comp == Some(Basename(path)[0])
      ensures isFile && Basename(path) != [] ==> ParserIs(ReadLines(lines, old(header), conv))
      ensures isFile && Basename(path) != [] && ReadLines(lines, old(header), conv).failure.Some? ==>
                failure == ReadLines(lines, old(header), conv).failure && State() == old(State())
      ensures isFile && Basename(path) != [] && ReadLines(lines, old(header), conv).failure.None? ==>
                Filled(State(), failure) == Fill.FillBoth(old(State()), compDict, lstZ, lstTip, num)
      ensures Separate()
      ensures failure.None? ==> Valid()
    {
      if !isFile {
        return Some(IOError(path));
      }
      var base := Basename(path);
      if base == [] {
        return Some(IndexError(path));
      }
      failure := ReadLinesInto(base[0], lines, conv);
      if failure.Some? {
        return;
      }
      failure := FillBoth(num);
    }

    /** fill_Z, then fill_Tipper unless fill_Z raised. */
    method FillBoth(num: Numerics) returns (failure: Option<Failure>)
      requires Valid()
      modifies this`z, this`zerr, this`zFreq, this`nfreq, this`tip, this`tipErr, this`tipFreq, this`nfreqTip,
               this`hasTip, this`freqDict, z, zerr, tip, tipErr
      ensures Separate()
      ensures Filled(State(), failure) == Fill.FillBoth(old(State()), compDict, lstZ, lstTip, num)
      ensures failure.None? ==> Valid()
    {
      failure := FillZ(num);
      if failure.Some? {
        return;
      }
      failure := FillTipper(num);
    }

    /** The parser's attributes are those of the state s its loop ended in. */
    predicate ParserIs(s: AvgState)
      reads this
    {
      compFlag == s.flag && lstZ == s.lstZ && lstTip == s.lstTip && header == s.header && compDict == s.table
    }

    /** The read of the file's lines: comp set to c, then the loop, whose
        attributes are kept whether or not a line raises. */
    method ReadLinesInto(c: char, lines: seq<string>, conv: Conv) returns (failure: Option<Failure>)
      modifies this`comp, this`compFlag, this`lstZ, this`lstTip, this`header, this`compDict
      ensures comp == Some(c) && ParserIs(ReadLines(lines, old(header), conv))
      ensures failure == ReadLines(lines, old(header), conv).failure
    {
      var r := ParseAvg(lines, Start(header, |lines| / 4), conv);
      comp, compFlag, lstZ, lstTip, header, compDict := Some(c), r.flag, r.lstZ, r.lstTip, r.header, r.table;
      failure := r.failure;
    }

    /** fill_Z over comp_dict and comp_lst_z. On success the object is
        valid again; after an exception it holds what the source leaves
        behind (nfreq and freq_dict may already be updated). */
    method FillZ(num: Numerics) returns (failure: Option<Failure>)
      requires Valid()
      modifies this`z, this`zerr, this`zFreq, this`nfreq, this`freqDict, z, zerr
      ensures Separate()
      ensures Filled(State(), failure) == Fill.FillZ(old(State()), compDict, lstZ, num)
      ensures failure.None? ==> Valid()
    {
      ghost var t := State();
      var a, e, zf, nf, fd;
      a, e, zf, nf, fd, failure := FillZOn(z, zerr, t, zFreq, nfreq, freqDict, compDict, lstZ, num);
      SetZ(a, e, zf, nf, fd);
      assert State() == t.(z := a[..], zerr := e[..], zFreq := zf, nfreq := nf, freqDict := fd);
    }

    /** Z's attributes replaced. */
    method SetZ(z': array<Cplx>, zerr': array<real>, zFreq': seq<real>, nfreq': nat, freqDict': map<string, nat>)
      modifies this`z, this`zerr, this`zFreq, this`nfreq, this`freqDict
      ensures z == z' && zerr == zerr' && zFreq == zFreq' && nfreq == nfreq' && freqDict == freqDict'
    {
      z, zerr, zFreq, nfreq, freqDict := z', zerr', zFreq', nfreq', freqDict';
    }

    /** fill_Tipper over comp_dict and comp_lst_tip. On success the object
        is valid again and holds a tipper; after an exception it holds what
        the source leaves behind. */
    method FillTipper(num: Numerics) returns (failure: Option<Failure>)
      requires Valid()
      modifies this`tip, this`tipErr, this`tipFreq, this`nfreqTip, this`hasTip, this`freqDict, tip, tipErr
      ensures Separate()
      ensures Filled(State(), failure) == Fill.FillTipper(old(State()), compDict, lstTip, num)
      ensures failure.None? ==> Valid()
    {
      ghost var t := State();
      var a, e, tf, nf, ht, fd;
      a, e, tf, nf, ht, fd, failure := FillTipperOn(tip, tipErr, t, tipFreq, nfreqTip, hasTip, freqDict, compDict, lstTip, num);
      SetTipper(a, e, tf, nf, ht, fd);
      assert State() == t.(tip := a[..], tipErr := e[..], tipFreq := tf, nfreqTip := nf, hasTip := ht, freqDict := fd);
    }

    /** The tipper's attributes replaced. */
    method SetTipper(tip': array<Cplx>, tipErr': array<real>, tipFreq': seq<real>, nfreqTip': nat, hasTip': bool,
                     freqDict': map<string, nat>)
      modifies this`tip, this`tipErr, this`tipFreq, this`nfreqTip, this`hasTip, this`freqDict
      ensures tip == tip' && tipErr == tipErr' && tipFreq == tipFreq' && nfreqTip == nfreqTip' && hasTip == hasTip'
      ensures freqDict == freqDict'
    {
      tip, tipErr, tipFreq, nfreqTip, hasTip, freqDict := tip', tipErr', tipFreq', nfreqTip', hasTip', freqDict';
    }
  }
}

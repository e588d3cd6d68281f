/** The time-series catalog of ZongeMTFT: one record per cache file, the
    file-name filters that pick cache files out of a directory listing, the
    rewrite of a MM/DD/YY date, and the stable sort by sampling rate. */
module Catalog {
  import opened Failures
  import opened Text

  /** One row of the MTFT24 time-series table (one dictionary of
      ts_info_lst, keyed by ts_info_keys). The fields whose Python value
      starts out as '' and is filled in by remote-reference matching are
      options. ChnGain<k> is the entry k of gains. */
  datatype TsRecord = TsRecord(
    fileNo: int,
    setup: int,
    skipWgt: int,
    localFile: string,
    remoteFile: string,
    localBlock: int,
    remoteBlock: Option<int>,
    localByte: int,
    remoteByte: Option<int>,
    date: string,
    time0: string,
    t0Offset: string,
    adFrequency: int,
    nLocal: nat,
    nRemote: Option<int>,
    gains: map<int, string>)

  /** The part of a cache file's metadata block that the catalog reads
      (CH.CMP, DATA.DATE0 or DATE0, TS.ADFREQ, TS.NPNT). */
  datatype CacheMeta = CacheMeta(
    components: seq<string>,
    dataDate0: Option<string>,
    date0: Option<string>,
    adFreq: int,
    npnt: nat)

  /** A local cache file: the name ends in ".cac" and has no '$' in it. */
  function IsLocalCacheName(name: string): (r: bool)
    ensures r <==> |name| >= 4 && name[|name| - 4..] == ".cac" && '$' !in name
  {
    FindCharMeansMember(name, '$');
    (if |name| >= 4 then name[|name| - 4..] else name) == ".cac" && Find(name, "$") == -1
  }

  /** A remote-reference candidate: ".cac" occurs and its first occurrence
      is not at the very start of the name. */
  function IsCandidateName(name: string): (r: bool)
    ensures r <==> !OccursAt(name, ".cac", 0) && exists i: nat :: OccursAt(name, ".cac", i)
  {
    Find(name, ".cac") > 0
  }

  /** The names of a listing that pass a filter, in listing order. */
  function Filter(names: seq<string>, keep: string -> bool): (r: seq<string>)
    ensures |r| <= |names|
    ensures forall n :: n in r <==> n in names && keep(n)
  {
    if names == [] then []
    else (if keep(names[0]) then [names[0]] else []) + Filter(names[1..], keep)
  }

  /** Filtering one more name appends it exactly when it is kept. */
  lemma {:induction false} FilterSnoc(names: seq<string>, x: string, keep: string -> bool)
    ensures Filter(names + [x], keep) == Filter(names, keep) + (if keep(x) then [x] else [])
    decreases |names|
  {
    if names != [] {
      assert (names + [x])[1..] == names[1..] + [x];
      FilterSnoc(names[1..], x, keep);
    }
  }

  /** Filtering keeps the listing order: the filter of a concatenation is
      the concatenation of the filters. */
  lemma {:induction false} FilterAppend(a: seq<string>, b: seq<string>, keep: string -> bool)
    ensures Filter(a + b, keep) == Filter(a, keep) + Filter(b, keep)
    decreases |b|
  {
    if b == [] {
      assert a + b == a;
    } else {
      var front := b[..|b| - 1];
      var x := b[|b| - 1];
      assert b == front + [x];
      assert a + b == (a + front) + [x];
      FilterAppend(a, front, keep);
      FilterSnoc(a + front, x, keep);
      FilterSnoc(front, x, keep);
    }
  }

  /** The remote-reference candidate pool: the listing's candidate names. */
  function CandidatePool(listing: seq<string>): (pool: seq<string>)
    ensures forall n :: n in pool <==> n in listing && IsCandidateName(n)
  {
    Filter(listing, IsCandidateName)
  }

  /** The pool keeps the order of the listing, which the last-to-first scan
      of get_rr_ts relies on: one more listed name is appended at the end
      exactly when it is a candidate, and a listing split in two gives the
      two pools one after the other. */
  lemma CandidatePoolOrder(a: seq<string>, b: seq<string>, name: string)
    ensures CandidatePool(a + [name]) == CandidatePool(a) + (if IsCandidateName(name) then [name] else [])
    ensures CandidatePool(a + b) == CandidatePool(a) + CandidatePool(b)
  {
    FilterSnoc(a, name, IsCandidateName);
    FilterAppend(a, b, IsCandidateName);
  }

  /** A date holding '/' is read as MM/DD/YY and written 20YY-MM-DD; fewer
      than three '/'-fields raise IndexError; any other date is kept. */
  function RewriteDate(date: string): (r: Result<string>)
    ensures '/' !in date ==> r == Ok(date)
    ensures r.Err? <==> '/' in date && |Split(date, '/')| < 3
  {
    FindCharMeansMember(date, '/');
    if Find(date, "/") >= 0 then
      var parts := Split(date, '/');
      if |parts| < 3 then Err(IndexError(date))
      else Ok("20" + parts[2] + "-" + parts[0] + "-" + parts[1])
    else Ok(date)
  }

  /** MM/DD/YY becomes 20YY-MM-DD, for fields without '/'. */
  lemma RewriteDateMonthDayYear(mm: string, dd: string, yy: string)
    requires '/' !in mm && '/' !in dd && '/' !in yy
    ensures RewriteDate(mm + "/" + dd + "/" + yy) == Ok("20" + yy + "-" + mm + "-" + dd)
  {
    var parts := [mm, dd, yy];
    assert Join(parts, '/') == mm + "/" + dd + "/" + yy by {
      assert Join(parts[1..], '/') == dd + "/" + yy by {
        assert parts[1..][1..] == [yy];
      }
    }
    SplitJoin(parts, '/');
    FindCharMeansMember(mm + "/" + dd + "/" + yy, '/');
    assert (mm + "/" + dd + "/" + yy)[|mm|] == '/';
  }

  /** The components of a cache file that the setup knows, capitalized, in
      file order. */
  function KnownComponents(components: seq<string>, known: seq<string>): (r: seq<string>)
    ensures forall c :: c in r ==> c in known
    ensures |r| <= |components|
  {
    if components == [] then []
    else
      var c := Capitalize(components[0]);
      (if c in known then [c] else []) + KnownComponents(components[1..], known)
  }

  /** [ch.capitalize() for ch in components]. */
  function CapitalizeAll(components: seq<string>): (r: seq<string>)
    ensures |r| == |components| && forall i :: 0 <= i < |components| ==> r[i] == Capitalize(components[i])
  {
    seq(|components|, i requires 0 <= i < |components| => Capitalize(components[i]))
  }

  /** Membership in the setup's component list, as a filter. */
  function InSetup(known: seq<string>): string -> bool
  {
    c => c in known
  }

  /** The kept components are the capitalized components filtered by the
      setup's list: every capitalized component the setup knows is kept, in
      file order, and no other. */
  lemma {:induction false} KnownComponentsFilter(components: seq<string>, known: seq<string>)
    ensures KnownComponents(components, known) == Filter(CapitalizeAll(components), InSetup(known))
    ensures forall c :: c in KnownComponents(components, known) <==> c in known && c in CapitalizeAll(components)
    decreases |components|
  {
    if components != [] {
      KnownComponentsFilter(components[1..], known);
      assert CapitalizeAll(components)[1..] == CapitalizeAll(components[1..]);
    }
  }

  /** The gain map that sets ChnGain<lo> .. ChnGain<hi> to '1' over g. */
  function UnitGains(g: map<int, string>, lo: int, hi: int): (r: map<int, string>)
    ensures forall k :: lo <= k <= hi ==> k in r && r[k] == "1"
    ensures forall k :: (k < lo || k > hi) ==> (k in r <==> k in g) && (k in g ==> r[k] == g[k])
    decreases hi - lo
  {
    if lo > hi then g else UnitGains(g[lo := "1"], lo + 1, hi)
  }

  /** The record built for the cc-th cache file (0-based): File# cc+1,
      Setup 1, SkipWgt 1, LocalBlock cc, LocalByte 65, Time0 and T0Offset
      '0', the remote fields empty, the date from DATA.DATE0 or else DATE0
      (KeyError when neither is there) after the MM/DD/YY rewrite (whose
      IndexError it passes on), and ChnGain1 .. ChnGain<numComp> set to '1'. */
  function NewRecord(cc: nat, name: string, meta: CacheMeta, numComp: int): (r: Result<TsRecord>)
    ensures meta.dataDate0.None? && meta.date0.None? <==> r == Err(KeyError("DATE0"))
    ensures meta.dataDate0.Some? || meta.date0.Some? ==>
              var raw := if meta.dataDate0.Some? then meta.dataDate0.value else meta.date0.value;
              && (r.Ok? <==> RewriteDate(raw).Ok?)
              && (r.Err? ==> r == Err(IndexError(raw)))
              && (r.Ok? ==> r.value.date == RewriteDate(raw).value)
    ensures r.Ok? ==> && r.value.fileNo == cc + 1 && r.value.setup == 1 && r.value.skipWgt == 1
                      && r.value.localFile == name && r.value.remoteFile == ""
                      && r.value.localBlock == cc && r.value.remoteBlock.None?
                      && r.value.localByte == 65 && r.value.remoteByte.None?
                      && r.value.time0 == "0" && r.value.t0Offset == "0"
                      && r.value.nLocal == meta.npnt && r.value.adFrequency == meta.adFreq
                      && r.value.nRemote.None?
                      && forall k :: k in r.value.gains <==> 1 <= k <= numComp
    ensures r.Ok? ==> forall k :: 1 <= k <= numComp ==> r.value.gains[k] == "1"
  {
    var raw :=
      if meta.dataDate0.Some? then Ok(meta.dataDate0.value)
      else if meta.date0.Some? then Ok(meta.date0.value)
      else Err(KeyError("DATE0"));
    if raw.Err? then Err(raw.failure)
    else
      var date := RewriteDate(raw.value);
      if date.Err? then Err(date.failure)
      else Ok(TsRecord(cc + 1, 1, 1, name, "", cc, None, 65, None, date.value, "0", "0",
                       meta.adFreq, meta.npnt, None, UnitGains(map[], 1, numComp)))
  }

  predicate SortedByFreq(s: seq<TsRecord>)
  {
    forall i, j :: 0 <= i < j < |s| ==> s[i].adFrequency <= s[j].adFrequency
  }

  /** The records of s with sampling rate f, in the order of s. */
  function WithFreq(s: seq<TsRecord>, f: int): seq<TsRecord>
  {
    if s == [] then []
    else (if s[0].adFrequency == f then [s[0]] else []) + WithFreq(s[1..], f)
  }

  /** x placed before the first record of s whose rate is not below its own. */
  function Insert(x: TsRecord, s: seq<TsRecord>): (r: seq<TsRecord>)
    ensures |r| == |s| + 1
  {
    if s == [] || x.adFrequency <= s[0].adFrequency then [x] + s
    else [s[0]] + Insert(x, s[1..])
  }

  /** Inserting adds x and keeps everything else. */
  lemma {:induction false} InsertPermutes(x: TsRecord, s: seq<TsRecord>)
    ensures multiset(Insert(x, s)) == multiset(s) + multiset{x}
  {
    if s != [] && x.adFrequency > s[0].adFrequency {
      InsertPermutes(x, s[1..]);
      assert s == [s[0]] + s[1..];
    }
  }

  lemma {:induction false} InsertSorted(x: TsRecord, s: seq<TsRecord>)
    requires SortedByFreq(s)
    ensures SortedByFreq(Insert(x, s))
  {
    if s != [] && x.adFrequency > s[0].adFrequency {
      InsertSorted(x, s[1..]);
      InsertPermutes(x, s[1..]);
      var r := Insert(x, s);
      assert r == [s[0]] + Insert(x, s[1..]);
      forall j | 0 < j < |r| ensures s[0].adFrequency <= r[j].adFrequency {
        assert r[j] in multiset(Insert(x, s[1..]));
        assert r[j] in multiset(s[1..]) + multiset{x};
        if r[j] != x {
          assert r[j] in s[1..];
        }
      }
    }
  }

  lemma {:induction false} WithFreqAppend(a: seq<TsRecord>, b: seq<TsRecord>, f: int)
    ensures WithFreq(a + b, f) == WithFreq(a, f) + WithFreq(b, f)
  {
    if a != [] {
      assert (a + b)[1..] == a[1..] + b;
      WithFreqAppend(a[1..], b, f);
    } else {
      assert a + b == b;
    }
  }

  lemma WithFreqSingle(x: TsRecord, f: int)
    ensures WithFreq([x], f) == if x.adFrequency == f then [x] else []
  {
    assert [x][1..] == [];
  }

  lemma {:induction false} InsertWithFreq(x: TsRecord, s: seq<TsRecord>, f: int)
    ensures WithFreq(Insert(x, s), f) == (if x.adFrequency == f then [x] else []) + WithFreq(s, f)
  {
    if s == [] || x.adFrequency <= s[0].adFrequency {
      assert Insert(x, s) == [x] + s;
      WithFreqAppend([x], s, f);
      WithFreqSingle(x, f);
    } else {
      var rest := Insert(x, s[1..]);
      assert Insert(x, s) == [s[0]] + rest;
      InsertWithFreq(x, s[1..], f);
      WithFreqAppend([s[0]], rest, f);
      assert s == [s[0]] + s[1..];
      WithFreqAppend([s[0]], s[1..], f);
      WithFreqSingle(s[0], f);
      var kept: seq<TsRecord> := if x.adFrequency == f then [x] else [];
      var head := WithFreq([s[0]], f);
      var tail := WithFreq(s[1..], f);
      assert WithFreq(Insert(x, s), f) == head + (kept + tail);
      assert WithFreq(s, f) == head + tail;
      // x and s[0] have different rates, so at most one of them is kept
      if x.adFrequency == f {
        assert head == [];
        assert head + (kept + tail) == kept + tail;
        assert head + tail == tail;
      } else {
        assert kept == [];
        assert head + (kept + tail) == head + tail;
      }
    }
  }

  /** sorted(ts_info_lst, key=ADFrequency): Python's sort is stable, so
      records of equal rate keep their relative order. */
  function SortByFreq(s: seq<TsRecord>): (r: seq<TsRecord>)
    ensures |r| == |s|
  {
    if s == [] then []
    else Insert(s[0], SortByFreq(s[1..]))
  }

  /** The sort is a permutation of its input. */
  lemma {:induction false} SortByFreqPermutes(s: seq<TsRecord>)
    ensures multiset(SortByFreq(s)) == multiset(s)
  {
    if s != [] {
      SortByFreqPermutes(s[1..]);
      InsertPermutes(s[0], SortByFreq(s[1..]));
      assert s == [s[0]] + s[1..];
    }
  }

  /** The sort's result is ordered by sampling rate. */
  lemma {:induction false} SortByFreqSorted(s: seq<TsRecord>)
    ensures SortedByFreq(SortByFreq(s))
  {
    if s != [] {
      SortByFreqSorted(s[1..]);
      InsertSorted(s[0], SortByFreq(s[1..]));
    }
  }

  /** The sort is stable: the records of any one rate come out in input order. */
  lemma {:induction false} SortByFreqStable(s: seq<TsRecord>, f: int)
    ensures WithFreq(SortByFreq(s), f) == WithFreq(s, f)
  {
    if s != [] {
      SortByFreqStable(s[1..], f);
      InsertWithFreq(s[0], SortByFreq(s[1..]), f);
    }
  }

  /** The records numbered File# 1 .. n in their order, nothing else changed. */
  function Renumbered(s: seq<TsRecord>): (r: seq<TsRecord>)
    ensures |r| == |s|
    ensures forall i :: 0 <= i < |s| ==> r[i] == s[i].(fileNo := i + 1)
  {
    seq(|s|, i requires 0 <= i < |s| => s[i].(fileNo := i + 1))
  }
}

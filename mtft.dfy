/** The ZongeMTFT object: the time-series catalog it builds from a cache
    directory, the setups derived from it, and the remote-reference pass,
    as methods that update the object's fields. Directory listings, cache
    metadata and sample stores are parameters. */
module Mtft {
  import opened Failures
  import opened Text
  import opened Catalog
  import opened RemoteReference
  import opened Setups

  /** The catalog after the first n names of a listing: the records
      appended to ts_info_lst, the component lists appended to Chn_Cmp_lst,
      and the exception that stopped the loop, if any. */
  datatype CatalogRun = CatalogRun(recs: seq<TsRecord>, cmps: seq<seq<string>>, failure: Option<Failure>)

  /** get_ts_info_lst's loop over the first n names. A local cache file
      whose metadata cannot be read raises IOError; otherwise its component
      list is appended first, and then its record, whose construction can
      still raise. */
  function CatalogUpTo(listing: seq<string>, n: nat, meta: map<string, CacheMeta>,
                       known: seq<string>, numComp: int): CatalogRun
    requires n <= |listing|
  {
    if n == 0 then CatalogRun([], [], None)
    else CatalogStep(CatalogUpTo(listing, n - 1, meta, known, numComp), listing[n - 1], meta, known, numComp)
  }

  /** One name of the listing: skipped after an exception or when it is not
      a local cache file. */
  function CatalogStep(prev: CatalogRun, name: string, meta: map<string, CacheMeta>,
                       known: seq<string>, numComp: int): CatalogRun
  {
    if prev.failure.Some? || !IsLocalCacheName(name) then prev
    else if name !in meta then prev.(failure := Some(IOError(name)))
    else
      var cmps := prev.cmps + [KnownComponents(meta[name].components, known)];
      match NewRecord(|prev.recs|, name, meta[name], numComp)
      case Err(e) => CatalogRun(prev.recs, cmps, Some(e))
      case Ok(r) => CatalogRun(prev.recs + [r], cmps, None)
  }

  /** The local file names of a list of records. */
  function LocalFiles(recs: seq<TsRecord>): (r: seq<string>)
    ensures |r| == |recs| && forall i :: 0 <= i < |recs| ==> r[i] == recs[i].localFile
  {
    seq(|recs|, i requires 0 <= i < |recs| => recs[i].localFile)
  }

  lemma LocalFilesSnoc(recs: seq<TsRecord>, r: TsRecord)
    ensures LocalFiles(recs + [r]) == LocalFiles(recs) + [r.localFile]
  {
  }

  /** The record at position i of the catalog is File# i+1 in block i, read
      from a local cache file, with no remote file yet. */
  predicate RecordAt(r: TsRecord, i: int)
  {
    r.fileNo == i + 1 && r.localBlock == i && IsLocalCacheName(r.localFile) && r.remoteFile == ""
  }

  /** The shape of the catalog after the names seen so far: one component
      list per record unless an exception came between the two appends;
      every record is in its place; the records are the local cache files
      seen, in order. */
  predicate RunShaped(run: CatalogRun, seen: seq<string>)
  {
    && (run.failure.None? ==> |run.cmps| == |run.recs|
                              && LocalFiles(run.recs) == Filter(seen, IsLocalCacheName))
    && (|run.cmps| == |run.recs| || |run.cmps| == |run.recs| + 1)
    && forall i :: 0 <= i < |run.recs| ==> RecordAt(run.recs[i], i)
  }

  /** A record appended in its place, with its component list, keeps the
      shape. */
  lemma AppendShape(prev: CatalogRun, seen: seq<string>, name: string, c: seq<string>, r: TsRecord)
    requires RunShaped(prev, seen) && prev.failure.None?
    requires RecordAt(r, |prev.recs|) && r.localFile == name
    ensures RunShaped(CatalogRun(prev.recs + [r], prev.cmps + [c], None), seen + [name])
  {
    FilterSnoc(seen, name, IsLocalCacheName);
    LocalFilesSnoc(prev.recs, r);
  }

  /** A name that is not a local cache file changes nothing. */
  lemma SkipShape(prev: CatalogRun, seen: seq<string>, name: string)
    requires RunShaped(prev, seen) && !IsLocalCacheName(name)
    ensures RunShaped(prev, seen + [name])
  {
    FilterSnoc(seen, name, IsLocalCacheName);
  }

  /** One name more keeps the shape. */
  lemma CatalogStepShape(prev: CatalogRun, seen: seq<string>, name: string, meta: map<string, CacheMeta>,
                         known: seq<string>, numComp: int)
    requires RunShaped(prev, seen)
    ensures RunShaped(CatalogStep(prev, name, meta, known, numComp), seen + [name])
  {
    if !IsLocalCacheName(name) {
      SkipShape(prev, seen, name);
    } else if prev.failure.None? && name in meta {
      var r := NewRecord(|prev.recs|, name, meta[name], numComp);
      if r.Ok? {
        AppendShape(prev, seen, name, KnownComponents(meta[name].components, known), r.value);
      }
    }
  }

  /** While the loop runs, the catalog keeps its shape over the names read. */
  lemma {:induction false} CatalogShape(listing: seq<string>, n: nat, meta: map<string, CacheMeta>,
                                       known: seq<string>, numComp: int)
    requires n <= |listing|
    ensures RunShaped(CatalogUpTo(listing, n, meta, known, numComp), listing[..n])
  {
    if n > 0 {
      CatalogShape(listing, n - 1, meta, known, numComp);
      assert listing[..n] == listing[..n - 1] + [listing[n - 1]];
      CatalogStepShape(CatalogUpTo(listing, n - 1, meta, known, numComp), listing[..n - 1], listing[n - 1],
                       meta, known, numComp);
    }
  }

  lemma {:induction false} CatalogStopped(listing: seq<string>, i: nat, n: nat, meta: map<string, CacheMeta>,
                                         known: seq<string>, numComp: int)
    requires i <= n <= |listing|
    requires CatalogUpTo(listing, i, meta, known, numComp).failure.Some?
    ensures CatalogUpTo(listing, n, meta, known, numComp) == CatalogUpTo(listing, i, meta, known, numComp)
    decreases n - i
  {
    if i < n { CatalogStopped(listing, i, n - 1, meta, known, numComp); }
  }

  /** The setups after set_remote_reference_info. */
  function RemoteSetups(setups: seq<Setup>, t: Template): (r: seq<Setup>)
    ensures |r| == |setups| && forall i :: 0 <= i < |setups| ==> r[i] == WithRemote(setups[i], t)
  {
    seq(|setups|, i requires 0 <= i < |setups| => WithRemote(setups[i], t))
  }

  /** Chn_Cmp_lst after the first n setups have had the remote channels
      appended to their component lists. */
  function Extend(lst: seq<seq<string>>, ss: seq<Setup>, n: nat): (r: seq<seq<string>>)
    requires n <= |ss| && forall k :: 0 <= k < |ss| ==> ss[k].cmpSource < |lst|
    ensures |r| == |lst|
  {
    if n == 0 then lst
    else Extend(lst, ss, n - 1)[ss[n - 1].cmpSource := lst[ss[n - 1].cmpSource] + ["Hxr", "Hyr"]]
  }

  /** With distinct sources, each extended list is its old value plus the
      remote channels, and every other list is unchanged. */
  lemma {:induction false} ExtendFacts(lst: seq<seq<string>>, ss: seq<Setup>, n: nat)
    requires n <= |ss| && forall k :: 0 <= k < |ss| ==> ss[k].cmpSource < |lst|
    requires forall k, j :: 0 <= k < j < |ss| ==> ss[k].cmpSource != ss[j].cmpSource
    ensures forall k :: 0 <= k < n ==>
              Extend(lst, ss, n)[ss[k].cmpSource] == lst[ss[k].cmpSource] + ["Hxr", "Hyr"]
    ensures forall m :: 0 <= m < |lst| && (forall k :: 0 <= k < n ==> ss[k].cmpSource != m) ==>
              Extend(lst, ss, n)[m] == lst[m]
  {
    if n > 0 {
      ExtendFacts(lst, ss, n - 1);
    }
  }

  /** Each setup's component list is the entry cmpSource of lst, and no
      two setups come from the same entry. */
  predicate SourcesValid(ss: seq<Setup>, lst: seq<seq<string>>)
  {
    && (forall i :: 0 <= i < |ss| ==> ss[i].cmpSource < |lst| && ss[i].cmp == lst[ss[i].cmpSource])
    && (forall i, j :: 0 <= i < j < |ss| ==> ss[i].cmpSource != ss[j].cmpSource)
  }

  /** Extending the setups and their source lists together keeps every
      setup's Chn.Cmp equal to its Chn_Cmp_lst entry. */
  lemma RemoteKeepsSources(lst: seq<seq<string>>, ss: seq<Setup>, t: Template)
    requires SourcesValid(ss, lst)
    ensures SourcesValid(RemoteSetups(ss, t), Extend(lst, ss, |ss|))
  {
    ExtendFacts(lst, ss, |ss|);
  }

  /** get_ts_info_lst's loop body for the name at position i. */
  method ReadEntry(prev: CatalogRun, listing: seq<string>, i: nat, meta: map<string, CacheMeta>,
                   known: seq<string>, numComp: int)
    returns (run: CatalogRun)
    requires i < |listing| && prev == CatalogUpTo(listing, i, meta, known, numComp) && prev.failure.None?
    ensures run == CatalogUpTo(listing, i + 1, meta, known, numComp)
  {
    var name := listing[i];
    run := prev;
    if IsLocalCacheName(name) {
      if name !in meta {
        run := run.(failure := Some(IOError(name)));
        return;
      }
      run := run.(cmps := run.cmps + [KnownComponents(meta[name].components, known)]);
      var r := NewRecord(|run.recs|, name, meta[name], numComp);
      if r.Err? {
        run := run.(failure := Some(r.failure));
        return;
      }
      run := run.(recs := run.recs + [r.value]);
    }
  }

  /** get_ts_info_lst's loop over a directory listing. */
  method ReadCatalog(listing: seq<string>, meta: map<string, CacheMeta>, known: seq<string>, numComp: int)
    returns (run: CatalogRun)
    ensures run == CatalogUpTo(listing, |listing|, meta, known, numComp)
  {
    run := CatalogRun([], [], None);
    var i := 0;
    while i < |listing|
      invariant 0 <= i <= |listing|
      invariant run == CatalogUpTo(listing, i, meta, known, numComp) && run.failure.None?
    {
      run := ReadEntry(run, listing, i, meta, known, numComp);
      if run.failure.Some? {
        CatalogStopped(listing, i + 1, |listing|, meta, known, numComp);
        return;
      }
      i := i + 1;
    }
  }

  /** compute_number_of_setups' loop: the lengths seen so far are kept in
      len_lst, and a list of a new length gets the next setup, numbered ii. */
  method GroupSetups(lst: seq<seq<string>>, t: Template) returns (setups: seq<Setup>)
    ensures setups == SetupsFor(lst, t)
  {
    setups := [];
    var lenLst: seq<int> := [];
    var ii := 1;
    var i := 0;
    while i < |lst|
      invariant 0 <= i <= |lst|
      invariant setups == SetupsFor(lst[..i], t)
      invariant lenLst == CountsOf(setups) && ii == |setups| + 1
    {
      var cc := lst[i];
      SetupsForPrefix(lst, i, t);
      if |cc| !in lenLst {
        var s := NewSetup(ii, cc, i, t);
        assert CountsOf(setups + [s]) == lenLst + [|cc|];
        lenLst := lenLst + [|cc|];
        setups := setups + [s];
        ii := ii + 1;
      }
      i := i + 1;
    }
    assert lst[..i] == lst;
  }

  /** set_remote_reference_info's loop, for any step f that appends the
      remote channels to a setup's Chn.Cmp and keeps its source: each setup
      in turn is stepped, and so is the Chn_Cmp_lst entry its Chn.Cmp is. */
  method StepSetups(ss: seq<Setup>, lst: seq<seq<string>>, f: Setup -> Setup)
    returns (ss': seq<Setup>, lst': seq<seq<string>>)
    requires forall k :: 0 <= k < |ss| ==> ss[k].cmpSource < |lst| && ss[k].cmp == lst[ss[k].cmpSource]
    requires forall s: Setup :: f(s).cmpSource == s.cmpSource && f(s).cmp == s.cmp + ["Hxr", "Hyr"]
    ensures |ss'| == |ss| && forall k :: 0 <= k < |ss| ==> ss'[k] == f(ss[k])
    ensures lst' == Extend(lst, ss, |ss|)
  {
    ss', lst' := ss, lst;
    var i := 0;
    while i < |ss|
      invariant 0 <= i <= |ss| == |ss'|
      invariant forall k :: 0 <= k < i ==> ss'[k] == f(ss[k])
      invariant forall k :: i <= k < |ss| ==> ss'[k] == ss[k]
      invariant lst' == Extend(lst, ss, i)
    {
      var s := f(ss'[i]);
      lst' := lst'[s.cmpSource := s.cmp];
      ss' := ss'[i := s];
      i := i + 1;
    }
  }

  /** set_remote_reference_info's loop with the survey's template. */
  method ExtendSetups(ss: seq<Setup>, lst: seq<seq<string>>, t: Template)
    returns (ss': seq<Setup>, lst': seq<seq<string>>)
    requires forall k :: 0 <= k < |ss| ==> ss[k].cmpSource < |lst| && ss[k].cmp == lst[ss[k].cmpSource]
    ensures ss' == RemoteSetups(ss, t)
    ensures lst' == Extend(lst, ss, |ss|)
  {
    ss', lst' := StepSetups(ss, lst, s => WithRemote(s, t));
  }

  /** File# renumbering keeps the order by sampling rate. */
  lemma RenumberedSorted(s: seq<TsRecord>)
    requires SortedByFreq(s)
    ensures SortedByFreq(Renumbered(s))
  {
  }

  /** sort_ts_lst's result: ordered by rate, numbered 1..n, and position by
      position the stable sort of the input apart from File#. */
  lemma SortTsResult(s: seq<TsRecord>)
    ensures SortedByFreq(Renumbered(SortByFreq(s)))
    ensures forall i :: 0 <= i < |s| ==> Renumbered(SortByFreq(s))[i].fileNo == i + 1
    ensures multiset(SortByFreq(s)) == multiset(s)
  {
    SortByFreqSorted(s);
    RenumberedSorted(SortByFreq(s));
    SortByFreqPermutes(s);
  }

  class ZongeMtft {
    var tsInfo: seq<TsRecord>
    var chnCmpLst: seq<seq<string>>
    var setups: seq<Setup>
    var setupNumber: int
    var chnCmp: seq<string>
    var numComp: int
    var tsInfoKeys: seq<string>
    var antFrqMin: real
    var antFrqMax: real
    var rxHpr: seq<int>
    var remoteComponent: string
    var remoteRotation: int
    var remotePath: string
    var cachePath: Option<string>

    /** Every setup's Chn.Cmp is the very list in Chn_Cmp_lst it was built
        from, and no two setups share one. */
    predicate Valid()
      reads this
    {
      SourcesValid(setups, chnCmpLst)
    }

    /** The attributes a setup copies from the object. */
    function Tmpl(): (t: Template)
      reads this
      ensures t.remotePath == remotePath && t.tsInfoKeys == tsInfoKeys
    {
      Template(antFrqMin, antFrqMax, rxHpr, remoteComponent, remoteRotation, remotePath, tsInfoKeys)
    }

    /** The defaults of a new ZongeMTFT. */
    constructor ()
      ensures Valid()
      ensures tsInfo == [] && chnCmpLst == [] && setups == [] && setupNumber == 1
      ensures chnCmp == ["Hx", "Hy", "Hz", "Ex", "Ey"] && numComp == 5
      ensures |tsInfoKeys| == 20 && tsInfoKeys[12] == "ADFrequency" && tsInfoKeys[19] == "ChnGain5"
      ensures antFrqMin == 0.000731 && antFrqMax == 10240.0 && rxHpr == [90, 0, 0]
      ensures remoteComponent == "Hx,Hy" && remoteRotation == 0 && remotePath == "" && cachePath.None?
    {
      tsInfo := [];
      chnCmpLst := [];
      setups := [];
      setupNumber := 1;
      chnCmp := ["Hx", "Hy", "Hz", "Ex", "Ey"];
      numComp := 5;
      tsInfoKeys := ["File#", "Setup", "SkipWgt", "LocalFile", "RemoteFile", "LocalBlock",
                     "RemoteBlock", "LocalByte", "RemoteByte", "Date", "Time0", "T0Offset",
                     "ADFrequency", "NLocalPnt", "NRemotePnt", "ChnGain1", "ChnGain2",
                     "ChnGain3", "ChnGain4", "ChnGain5"];
      antFrqMin := 0.000731;
      antFrqMax := 10240.0;
      rxHpr := [90, 0, 0];
      remoteComponent := "Hx,Hy";
      remoteRotation := 0;
      remotePath := "";
      cachePath := None;
    }

    /** get_ts_info_lst: only a catalog that is still empty is filled, from
        the local cache files of the listing, with meta standing for the
        metadata blocks that can be read. */
    method GetTsInfoList(path: string, listing: seq<string>, meta: map<string, CacheMeta>)
      returns (failure: Option<Failure>)
      requires Valid()
      modifies this`cachePath, this`tsInfo, this`chnCmpLst
      ensures Valid()
      ensures cachePath == Some(path)
      ensures old(tsInfo) == [] ==> tsInfo == CatalogUpTo(listing, |listing|, meta, chnCmp, numComp).recs
      ensures old(tsInfo) == [] ==>
                chnCmpLst == old(chnCmpLst) + CatalogUpTo(listing, |listing|, meta, chnCmp, numComp).cmps
      ensures old(tsInfo) == [] ==> failure == CatalogUpTo(listing, |listing|, meta, chnCmp, numComp).failure
      ensures old(tsInfo) != [] ==> tsInfo == old(tsInfo) && chnCmpLst == old(chnCmpLst) && failure.None?
    {
      cachePath := Some(path);
      failure := None;
      if |tsInfo| == 0 {
        var run := ReadCatalog(listing, meta, chnCmp, numComp);
        tsInfo := run.recs;
        chnCmpLst := chnCmpLst + run.cmps;
        failure := run.failure;
      }
    }

    /** sort_ts_lst: a non-empty catalog is sorted stably by ADFrequency and
        renumbered File# 1..n; an empty one is left as it is. */
    method SortTsList()
      modifies this`tsInfo
      ensures tsInfo == Renumbered(SortByFreq(old(tsInfo)))
      ensures old(tsInfo) == [] ==> tsInfo == []
    {
      if tsInfo == [] {
        return;
      }
      var sorted := SortByFreq(tsInfo);
      var out := sorted;
      var i := 0;
      while i < |out|
        invariant 0 <= i <= |out| == |sorted|
        invariant forall k :: 0 <= k < i ==> out[k] == sorted[k].(fileNo := k + 1)
        invariant forall k :: i <= k < |out| ==> out[k] == sorted[k]
      {
        out := out[i := out[i].(fileNo := i + 1)];
        i := i + 1;
      }
      tsInfo := out;
    }

    /** compute_number_of_setups: one setup per distinct component count of
        Chn_Cmp_lst, in first-seen order; Setup_Number is their number. */
    method ComputeNumberOfSetups()
      modifies this`setups, this`setupNumber
      ensures setups == SetupsFor(chnCmpLst, Tmpl())
      ensures setupNumber == |setups|
      ensures Valid()
    {
      setups := GroupSetups(chnCmpLst, Tmpl());
      setupNumber := |setups|;
      SetupsForGrouped(chnCmpLst, Tmpl());
    }

    /** set_remote_reference_info: None changes nothing; a path is stored
        and every setup gains the two remote channels. Chn.Cmp is extended
        in place, so the Chn_Cmp_lst entry it came from grows as well and
        the other entries stay as they were. */
    method SetRemoteReferenceInfo(path: Option<string>)
      requires Valid()
      modifies this`setups, this`chnCmpLst, this`remotePath
      ensures Valid()
      ensures path.None? ==> remotePath == old(remotePath) && setups == old(setups) && chnCmpLst == old(chnCmpLst)
      ensures path.Some? ==> remotePath == path.value
      ensures path.Some? ==> setups == RemoteSetups(old(setups), Template(antFrqMin, antFrqMax, rxHpr,
                                 remoteComponent, remoteRotation, path.value, tsInfoKeys))
      ensures path.Some? ==> chnCmpLst == Extend(old(chnCmpLst), old(setups), |old(setups)|)
    {
      if path.None? {
        return;
      }
      remotePath := path.value;
      var t := Template(antFrqMin, antFrqMax, rxHpr, remoteComponent, remoteRotation, remotePath, tsInfoKeys);
      ghost var ss0, lst0 := setups, chnCmpLst;
      setups, chnCmpLst := ExtendSetups(setups, chnCmpLst, t);
      assert Valid() by {
        RemoteKeepsSources(lst0, ss0, t);
      }
    }

    /** get_rr_ts over the object's own catalog (the way write_mtft_cfg
        calls it): with an empty remote path nothing happens; otherwise each
        record is reconciled against the candidates of the remote listing.
        The records are updated in place, so an exception leaves the
        records handled so far updated and the rest as they were. */
    method GetRrTs(path: Option<string>, listing: seq<string>, local: Store, remote: Store,
                   rw: string -> string)
      returns (localOut: Store, remoteOut: Store, failure: Option<Failure>)
      modifies this`remotePath, this`tsInfo
      ensures remotePath == if path.Some? then path.value else old(remotePath)
      ensures remotePath == "" ==> tsInfo == old(tsInfo) && localOut == local && remoteOut == remote && failure.None?
      ensures |RunUpTo(old(tsInfo), |old(tsInfo)|, Reconciler(CandidatePool(listing), rw, numComp), local, remote).done|
                <= |old(tsInfo)|
      ensures remotePath != "" ==>
                tsInfo == Records(old(tsInfo), RunUpTo(old(tsInfo), |old(tsInfo)|,
                                                       Reconciler(CandidatePool(listing), rw, numComp), local, remote))
      ensures remotePath != "" ==>
                localOut == RunUpTo(old(tsInfo), |old(tsInfo)|, Reconciler(CandidatePool(listing), rw, numComp), local, remote).local
      ensures remotePath != "" ==>
                remoteOut == RunUpTo(old(tsInfo), |old(tsInfo)|, Reconciler(CandidatePool(listing), rw, numComp), local, remote).remote
      ensures remotePath != "" ==>
                failure == RunUpTo(old(tsInfo), |old(tsInfo)|, Reconciler(CandidatePool(listing), rw, numComp), local, remote).failure
    {
      RunUpToShape(tsInfo, |tsInfo|, Reconciler(CandidatePool(listing), rw, numComp), local, remote);
      if path.Some? {
        remotePath := path.value;
      }
      if remotePath == "" {
        return local, remote, None;
      }
      var pool := CandidatePool(listing);
      var out;
      out, localOut, remoteOut, failure := ReconcileRecords(tsInfo, pool, local, remote, rw, numComp);
      tsInfo := out;
    }
  }
}

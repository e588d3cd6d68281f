/** Remote-reference reconciliation (ZongeMTFT.get_rr_ts): every local
    record looks for a reference recording of the same station and sampling
    rate in a fixed candidate pool, scanned last to first; the first
    acceptable candidate is paired with it, after the longer of the two
    series has been cut so that both describe the same samples.

    File names are base names; a cache directory is a Store from file name to
    its sample rows (the rows of the file's time-series block; the metadata
    count TS.NPNT is the number of rows). A rewritten file is stored under the
    name the cache layer gives it, the parameter rw. */
module RemoteReference {
  import opened Failures
  import opened Text
  import opened Catalog

  /** One sample: the values of all channels at one instant. */
  type Sample = seq<int>
  type Store = map<string, seq<Sample>>

  /** rr_tdiff_dict: the tolerated start difference per rate token, as the
      HHMMSS text the source keeps (compared as a plain integer). */
  const TdiffTable: map<string, string> := map["256" := "060000", "1024" := "002000", "4096" := "000500"]

  /** os.path.splitext(name)[0].split('_'): token 1 is the station, 2 the
      start HHMMSS, 3 the rate. */
  function Tokens(name: string): (t: seq<string>)
    ensures |t| >= 1
  {
    Split(StripExt(name), '_')
  }

  function Abs(x: int): nat { if x < 0 then -x else x }

  /** Whether candidate `name` is accepted for a local file with tokens lt:
      Ok(false) lets the scan go on, an Err is the exception the comparison
      raises (IndexError on a short candidate name, ValueError from int()). */
  function Verdict(lt: seq<string>, tdiff: string, name: string): (r: Result<bool>)
    requires |lt| >= 4
    ensures r == Ok(true) ==>
      var ct := Tokens(name);
      |ct| >= 4 && ct[1] == lt[1] && ct[3] == lt[3]
    ensures (var ct := Tokens(name); |ct| >= 4 && ct[1] == lt[1] && ct[3] == lt[3] && ct[2] == lt[2])
      ==> r == Ok(true)
    ensures (var ct := Tokens(name); |ct| >= 2 && ct[1] != lt[1]) ==> r == Ok(false)
  {
    var ct := Tokens(name);
    if |ct| < 2 then Err(IndexError(name))
    else if lt[1] != ct[1] then Ok(false)
    else if |ct| < 4 then Err(IndexError(name))
    else if lt[3] != ct[3] then Ok(false)
    else if lt[2] == ct[2] then Ok(true)
    else
      var a :- ParseInt(lt[2]);
      var b :- ParseInt(ct[2]);
      var t :- ParseInt(tdiff);
      Ok(Abs(a - b) < t)
  }

  /** The record paired with remote file `remote`: RemoteBlock, RemoteByte
      and NRemotePnt copy the local values, and the gains of the two
      reference channels, ChnGain<numComp+1> and ChnGain<numComp+2>, are '1'. */
  function Paired(rec: TsRecord, remote: string, numComp: int): (r: TsRecord)
    ensures r.nRemote == Some(rec.nLocal) && r.remoteBlock == Some(rec.localBlock)
    ensures r.remoteByte == Some(rec.localByte) && r.remoteFile == remote
    ensures numComp + 1 in r.gains && numComp + 2 in r.gains
    ensures r.gains[numComp + 1] == "1" && r.gains[numComp + 2] == "1"
    ensures forall k :: k != numComp + 1 && k != numComp + 2 ==>
              (k in r.gains <==> k in rec.gains) && (k in rec.gains ==> r.gains[k] == rec.gains[k])
    ensures r.(remoteFile := rec.remoteFile, remoteBlock := rec.remoteBlock,
               remoteByte := rec.remoteByte, nRemote := rec.nRemote, gains := rec.gains) == rec
  {
    rec.(remoteFile := remote, remoteBlock := Some(rec.localBlock),
         remoteByte := Some(rec.localByte), nRemote := Some(rec.nLocal),
         gains := rec.gains[numComp + 1 := "1"][numComp + 2 := "1"])
  }

  /** np.resize along the sample axis: a prefix when shrinking, the rows
      repeated cyclically when growing. */
  function Resize(s: seq<Sample>, n: nat): (r: seq<Sample>)
    ensures n <= |s| ==> r == s[..n]
    ensures |s| > 0 ==> |r| == n
    ensures |s| > 0 && n > |s| ==> forall i :: 0 <= i < n ==> r[i] == s[i % |s|]
  {
    if n <= |s| then s[..n]
    else if |s| == 0 then s
    else seq(n, i requires 0 <= i < n => s[i % |s|])
  }

  /** The samples laid end to end, as numpy's row-major flattening. */
  function Flatten(s: seq<Sample>): (flat: seq<int>)
    decreases |s|
  {
    if s == [] then [] else Flatten(s[..|s| - 1]) + s[|s| - 1]
  }

  /** In a series of two-value samples, sample i sits at 2·i and 2·i + 1
      of the flattening. */
  lemma {:induction false} FlattenPairs(s: seq<Sample>)
    requires forall i :: 0 <= i < |s| ==> |s[i]| == 2
    ensures |Flatten(s)| == 2 * |s|
    ensures forall i :: 0 <= i < |s| ==> Flatten(s)[2 * i] == s[i][0] && Flatten(s)[2 * i + 1] == s[i][1]
    decreases |s|
  {
    if s != [] {
      var front := s[..|s| - 1];
      FlattenPairs(front);
      assert Flatten(s) == Flatten(front) + s[|s| - 1];
      forall i | 0 <= i < |s|
        ensures Flatten(s)[2 * i] == s[i][0] && Flatten(s)[2 * i + 1] == s[i][1]
      {
        if i < |front| {
          assert s[i] == front[i];
        }
      }
    }
  }

  /** A remainder by a larger divisor is the number itself. */
  lemma ModBelow(a: nat, m: nat)
    requires a < m
    ensures a % m == a
  {
  }

  /** np.resize(ts, (n, 2)): the flattened values, repeated cyclically to
      fill n·2 places, read back as n samples of two values; a series
      without values gives zeros. */
  function ResizePairs(s: seq<Sample>, n: nat): (r: seq<Sample>)
    ensures |r| == n && forall i :: 0 <= i < n ==> |r[i]| == 2
  {
    var flat := Flatten(s);
    if |flat| == 0 then seq(n, _ => [0, 0])
    else seq(n, i requires 0 <= i < n => [flat[(2 * i) % |flat|], flat[(2 * i + 1) % |flat|]])
  }

  /** Value c of resized sample i is the value at 2·i + c of the flattened
      series repeated end to end, and zero when the series holds no value. */
  lemma ResizePairsCells(s: seq<Sample>, n: nat)
    ensures forall i, c :: 0 <= i < n && 0 <= c < 2 ==>
              ResizePairs(s, n)[i][c] == if |Flatten(s)| == 0 then 0 else Flatten(s)[(2 * i + c) % |Flatten(s)|]
  {
  }

  /** For a reference series of two-channel samples, which is what a remote
      reference cache file holds, resizing to fewer samples keeps a prefix. */
  lemma ResizePairsPrefix(s: seq<Sample>, n: nat)
    requires n <= |s| && forall i :: 0 <= i < |s| ==> |s[i]| == 2
    ensures ResizePairs(s, n) == s[..n]
  {
    FlattenPairs(s);
    ResizePairsCells(s, n);
    var r := ResizePairs(s, n);
    forall i | 0 <= i < n ensures r[i] == s[i] {
      ModBelow(2 * i, 2 * |s|);
      ModBelow(2 * i + 1, 2 * |s|);
      assert r[i][0] == s[i][0] && r[i][1] == s[i][1];
    }
  }

  /** s[k:] in Python: a negative k counts from the end; k past the end gives []. */
  function DropFront(s: seq<Sample>, k: int): (r: seq<Sample>)
    ensures 0 <= k <= |s| ==> r == s[k..]
    ensures k > |s| ==> r == []
  {
    if k >= |s| then []
    else if k >= 0 then s[k..]
    else if -k >= |s| then s
    else s[|s| + k..]
  }

  /** |3600·(rh-lh) + 60·(rm-lm) + (rs-ls)| from the HHMMSS texts of the local
      (l) and remote (r) start, each field read with int() from the slices
      [0:2], [2:4] and [4:], local fields first. */
  function StartDifference(l: string, r: string): (d: Result<nat>)
  {
    var lh :- ParseInt(Slice(l, 0, 2));
    var lm :- ParseInt(Slice(l, 2, 4));
    var ls :- ParseInt(Slice(l, 4, |l|));
    var rh :- ParseInt(Slice(r, 0, 2));
    var rm :- ParseInt(Slice(r, 2, 4));
    var rs :- ParseInt(Slice(r, 4, |r|));
    Ok(Abs((rh - lh) * 3600 + (rm - lm) * 60 + (rs - ls)))
  }

  /** How an accepted candidate was reconciled with the local record. */
  datatype Branch =
    | Direct             // same start, same length
    | ShrinkLocal        // same start, the local series is longer
    | ShrinkRemote       // same start, the remote series is longer
    | SkipRemote(skip: int)  // different start within tolerance, different length
    | DirectNear         // different start within tolerance, same length

  datatype Hit = Hit(index: nat, name: string, branch: Branch)

  /** The record after one scan, the two directories, and the candidate
      taken, if any. */
  datatype Step = Step(rec: TsRecord, local: Store, remote: Store, hit: Option<Hit>)

  /** The work done for the accepted candidate pool[index] (IOError when a
      file it reads is not in its directory). */
  function Apply(rec: TsRecord, lt: seq<string>, pool: seq<string>, index: nat, local: Store,
                 remote: Store, rw: string -> string, numComp: int): (r: Result<Step>)
    requires |lt| >= 4 && index < |pool| && |Tokens(pool[index])| >= 4
    ensures r.Ok? ==> r.value.hit.Some? && r.value.hit.value.index == index
                       && r.value.hit.value.name == pool[index]
  {
    var name := pool[index];
    var ct := Tokens(name);
    var lf := rec.localFile;
    if lt[2] == ct[2] then
      if name !in remote then Err(IOError(name))
      else if |remote[name]| == rec.nLocal then
        Ok(Step(Paired(rec, name, numComp), local, remote, Some(Hit(index, name, Direct))))
      else if |remote[name]| < rec.nLocal then
        if lf !in local then Err(IOError(lf))
        else
          var cut := Resize(local[lf], |remote[name]|);
          var rec' := rec.(localFile := rw(lf), nLocal := |cut|);
          Ok(Step(Paired(rec', name, numComp), local[rw(lf) := cut], remote,
                  Some(Hit(index, name, ShrinkLocal))))
      else
        if lf !in local then Err(IOError(lf))
        else
          var cut := ResizePairs(remote[name], rec.nLocal);
          Ok(Step(Paired(rec, rw(name), numComp), local, remote[rw(name) := cut],
                  Some(Hit(index, name, ShrinkRemote))))
    else
      if lf !in local then Err(IOError(lf))
      else if name !in remote then Err(IOError(name))
      else if |local[lf]| != |remote[name]| then
        var diff :- StartDifference(lt[2], ct[2]);
        var rate :- ParseInt(lt[3]);
        var skip := rate * diff;
        Ok(Step(Paired(rec, rw(name), numComp), local, remote[rw(name) := DropFront(remote[name], skip)],
                Some(Hit(index, name, SkipRemote(skip)))))
      else
        Ok(Step(Paired(rec, name, numComp), local, remote, Some(Hit(index, name, DirectNear))))
  }

  /** The candidate test for a local file with tokens lt. */
  function Acceptor(lt: seq<string>, tdiff: string): string -> Result<bool>
    requires |lt| >= 4
  {
    (name: string) => Verdict(lt, tdiff, name)
  }

  /** The scan of pool[..j], from its last name down: the index of the
      first accepted candidate, None when every candidate is refused, or the
      exception a comparison raised. */
  function Pick(accept: string -> Result<bool>, pool: seq<string>, j: nat): (r: Result<Option<nat>>)
    requires j <= |pool|
    decreases j
  {
    if j == 0 then Ok(None)
    else
      var v :- accept(pool[j - 1]);
      if v then Ok(Some(j - 1)) else Pick(accept, pool, j - 1)
  }

  /** A picked index is below j and its candidate was accepted. */
  lemma {:induction false} PickAccepted(accept: string -> Result<bool>, pool: seq<string>, j: nat)
    requires j <= |pool|
    ensures var r := Pick(accept, pool, j);
            r.Ok? && r.value.Some? ==> r.value.value < j && accept(pool[r.value.value]) == Ok(true)
    decreases j
  {
    if j > 0 && accept(pool[j - 1]) == Ok(false) {
      PickAccepted(accept, pool, j - 1);
    }
  }

  /** The record and directories after scanning the pool for rec: the
      accepted candidate applied, or everything as it was. */
  function Scan(rec: TsRecord, lt: seq<string>, tdiff: string, pool: seq<string>,
                local: Store, remote: Store, rw: string -> string, numComp: int): (r: Result<Step>)
    requires |lt| >= 4
  {
    PickAccepted(Acceptor(lt, tdiff), pool, |pool|);
    var k :- Pick(Acceptor(lt, tdiff), pool, |pool|);
    if k.None? then Ok(Step(rec, local, remote, None))
    else Apply(rec, lt, pool, k.value, local, remote, rw, numComp)
  }

  /** One record of ts_info_lst: its file name must have a rate token
      (IndexError otherwise) that the tolerance table knows (KeyError
      otherwise); then the whole pool is scanned. */
  function Reconcile1(rec: TsRecord, pool: seq<string>, local: Store, remote: Store,
                      rw: string -> string, numComp: int): Result<Step>
  {
    var lt := Tokens(rec.localFile);
    if |lt| < 4 then Err(IndexError(rec.localFile))
    else if lt[3] !in TdiffTable then Err(KeyError(lt[3]))
    else Scan(rec, lt, TdiffTable[lt[3]], pool, local, remote, rw, numComp)
  }

  /** The state of a run: the records handled so far (new_ts_info_lst), the
      two directories, and the exception that stopped the run, if any. */
  datatype Run = Run(done: seq<TsRecord>, local: Store, remote: Store, failure: Option<Failure>)

  /** What handling one record does to it and to the two directories. */
  type RecordStep = (TsRecord, Store, Store) -> Result<Step>

  /** The step get_rr_ts takes for each record. */
  function Reconciler(pool: seq<string>, rw: string -> string, numComp: int): RecordStep
  {
    (rec: TsRecord, local: Store, remote: Store) => Reconcile1(rec, pool, local, remote, rw, numComp)
  }

  /** The run after the first n records, each handled by one. */
  function RunUpTo(recs: seq<TsRecord>, n: nat, one: RecordStep, local: Store, remote: Store): (run: Run)
    requires n <= |recs|
  {
    if n == 0 then Run([], local, remote, None)
    else
      var prev := RunUpTo(recs, n - 1, one, local, remote);
      if prev.failure.Some? then prev
      else match one(recs[n - 1], prev.local, prev.remote)
        case Err(e) => prev.(failure := Some(e))
        case Ok(step) => Run(prev.done + [step.rec], step.local, step.remote, None)
  }

  /** A run that has stopped stays stopped; one that has not has handled
      every record so far. */
  lemma {:induction false} RunUpToShape(recs: seq<TsRecord>, n: nat, one: RecordStep, local: Store,
                                        remote: Store)
    requires n <= |recs|
    ensures var run := RunUpTo(recs, n, one, local, remote);
            |run.done| <= n && (run.failure.None? ==> |run.done| == n)
  {
    if n > 0 { RunUpToShape(recs, n - 1, one, local, remote); }
  }

  lemma {:induction false} RunStopped(recs: seq<TsRecord>, i: nat, n: nat, one: RecordStep, local: Store,
                                      remote: Store)
    requires i <= n <= |recs|
    requires RunUpTo(recs, i, one, local, remote).failure.Some?
    ensures RunUpTo(recs, n, one, local, remote) == RunUpTo(recs, i, one, local, remote)
    decreases n - i
  {
    if i < n { RunStopped(recs, i, n - 1, one, local, remote); }
  }

  /** What ts_info_lst holds after the run: the dictionaries are updated in
      place, so on an exception the records already handled keep their
      updates and the rest are as they were. */
  function Records(recs: seq<TsRecord>, run: Run): seq<TsRecord>
    requires |run.done| <= |recs|
  {
    run.done + recs[|run.done|..]
  }

  /** The inner loop of get_rr_ts over rrfnlst[::-1], ending at the first
      candidate that the test accept takes (`break`). */
  method PickFromEnd(accept: string -> Result<bool>, pool: seq<string>) returns (r: Result<Option<nat>>)
    ensures r == Pick(accept, pool, |pool|)
  {
    var j := |pool|;
    while j > 0
      invariant 0 <= j <= |pool|
      invariant Pick(accept, pool, |pool|) == Pick(accept, pool, j)
      decreases j
    {
      var v := accept(pool[j - 1]);
      if v.Err? {
        return Err(v.failure);
      }
      if v.value {
        return Ok(Some(j - 1));
      }
      j := j - 1;
    }
    r := Ok(None);
  }

  /** One record of get_rr_ts's outer loop: the tolerance lookup, then the scan. */
  method ReconcileOne(rec: TsRecord, pool: seq<string>, local: Store, remote: Store,
                      rw: string -> string, numComp: int)
    returns (r: Result<Step>)
    ensures r == Reconcile1(rec, pool, local, remote, rw, numComp)
  {
    var lt := Tokens(rec.localFile);
    if |lt| < 4 {
      r := Err(IndexError(rec.localFile));
    } else if lt[3] !in TdiffTable {
      r := Err(KeyError(lt[3]));
    } else {
      var k := PickFromEnd(Acceptor(lt, TdiffTable[lt[3]]), pool);
      PickAccepted(Acceptor(lt, TdiffTable[lt[3]]), pool, |pool|);
      if k.Err? {
        r := Err(k.failure);
      } else if k.value.None? {
        r := Ok(Step(rec, local, remote, None));
      } else {
        r := Apply(rec, lt, pool, k.value.value, local, remote, rw, numComp);
      }
    }
  }

  /** The run after record i, from the run after i records and that
      record's outcome: handled, or stopped with the remaining records as
      they were. */
  lemma {:induction false} RunAfter(recs: seq<TsRecord>, i: nat, one: RecordStep, local0: Store, remote0: Store,
                 done: seq<TsRecord>, local: Store, remote: Store, step: Result<Step>)
    requires i < |recs|
    requires RunUpTo(recs, i, one, local0, remote0) == Run(done, local, remote, None)
    requires step == one(recs[i], local, remote)
    ensures step.Ok? ==> RunUpTo(recs, i + 1, one, local0, remote0)
                         == Run(done + [step.value.rec], step.value.local, step.value.remote, None)
    ensures step.Err? ==> RunUpTo(recs, |recs|, one, local0, remote0)
                          == Run(done, local, remote, Some(step.failure))
    ensures step.Err? ==> |done| == i
  {
    RunUpToShape(recs, i, one, local0, remote0);
    if step.Err? {
      RunStopped(recs, i + 1, |recs|, one, local0, remote0);
    }
  }

  /** get_rr_ts's loop over ts_info_lst. */
  method ReconcileRecords(recs: seq<TsRecord>, pool: seq<string>, local0: Store, remote0: Store,
                          rw: string -> string, numComp: int)
    returns (out: seq<TsRecord>, local: Store, remote: Store, failure: Option<Failure>)
    ensures |RunUpTo(recs, |recs|, Reconciler(pool, rw, numComp), local0, remote0).done| <= |recs|
    ensures out == Records(recs, RunUpTo(recs, |recs|, Reconciler(pool, rw, numComp), local0, remote0))
    ensures local == RunUpTo(recs, |recs|, Reconciler(pool, rw, numComp), local0, remote0).local
    ensures remote == RunUpTo(recs, |recs|, Reconciler(pool, rw, numComp), local0, remote0).remote
    ensures failure == RunUpTo(recs, |recs|, Reconciler(pool, rw, numComp), local0, remote0).failure
  {
    var done: seq<TsRecord> := [];
    local, remote, failure := local0, remote0, None;
    var i := 0;
    while i < |recs|
      invariant 0 <= i <= |recs|
      invariant RunUpTo(recs, i, Reconciler(pool, rw, numComp), local0, remote0) == Run(done, local, remote, None)
    {
      var step := ReconcileOne(recs[i], pool, local, remote, rw, numComp);
      RunAfter(recs, i, Reconciler(pool, rw, numComp), local0, remote0, done, local, remote, step);
      if step.Err? {
        failure := Some(step.failure);
        out := done + recs[i..];
        return;
      }
      done := done + [step.value.rec];
      local, remote := step.value.local, step.value.remote;
      i := i + 1;
    }
    RunUpToShape(recs, i, Reconciler(pool, rw, numComp), local0, remote0);
    out := done;
  }
}

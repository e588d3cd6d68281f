/** What the remote-reference reconciliation guarantees: the order in which
    candidates are tried, what each kind of match does to the record and to
    the two cache directories, and the shape of the whole run. */
module ReconcileFacts {
  import opened Failures
  import opened Text
  import opened Catalog
  import opened RemoteReference

  /** The fields reconciliation never touches. */
  predicate SameIdentity(a: TsRecord, b: TsRecord)
  {
    && a.fileNo == b.fileNo && a.setup == b.setup && a.skipWgt == b.skipWgt
    && a.localBlock == b.localBlock && a.localByte == b.localByte && a.date == b.date
    && a.time0 == b.time0 && a.t0Offset == b.t0Offset && a.adFrequency == b.adFrequency
  }

  /** What every match leaves in the record: the remote block, byte and
      count copy the local ones and both reference gains are '1'. */
  predicate PairedFields(a: TsRecord, numComp: int)
  {
    && a.nRemote == Some(a.nLocal) && a.remoteBlock == Some(a.localBlock)
    && a.remoteByte == Some(a.localByte)
    && numComp + 1 in a.gains && a.gains[numComp + 1] == "1"
    && numComp + 2 in a.gains && a.gains[numComp + 2] == "1"
  }

  /** Pairing a record with the identity of rec gives a paired record with
      that identity. */
  lemma PairedKeeps(base: TsRecord, rec: TsRecord, name: string, numComp: int)
    requires SameIdentity(base, rec)
    ensures PairedFields(Paired(base, name, numComp), numComp) && SameIdentity(Paired(base, name, numComp), rec)
  {
  }

  /** Every acceptance pairs the record and changes nothing else about it. */
  lemma ApplyPairs(rec: TsRecord, lt: seq<string>, pool: seq<string>, index: nat, local: Store,
                   remote: Store, rw: string -> string, numComp: int)
    requires |lt| >= 4 && index < |pool| && |Tokens(pool[index])| >= 4
    ensures var r := Apply(rec, lt, pool, index, local, remote, rw, numComp);
            r.Ok? ==> PairedFields(r.value.rec, numComp) && SameIdentity(r.value.rec, rec)
  {
    var name := pool[index];
    var r := Apply(rec, lt, pool, index, local, remote, rw, numComp);
    if r.Ok? {
      var same := lt[2] == Tokens(name)[2];
      if same && |remote[name]| < rec.nLocal {
        var rec' := rec.(localFile := rw(rec.localFile), nLocal := |Resize(local[rec.localFile], |remote[name]|)|);
        assert r.value.rec == Paired(rec', name, numComp);
        PairedKeeps(rec', rec, name, numComp);
      } else if (same && |remote[name]| > rec.nLocal) || (!same && |local[rec.localFile]| != |remote[name]|) {
        assert r.value.rec == Paired(rec, rw(name), numComp);
        PairedKeeps(rec, rec, rw(name), numComp);
      } else {
        assert r.value.rec == Paired(rec, name, numComp);
        PairedKeeps(rec, rec, name, numComp);
      }
    }
  }

  /** The scan tries the names from the last down and takes the first one
      accepted: a pick k means pool[k] was accepted and every later name of
      pool[..j] was refused. */
  lemma {:induction false} PickIsLastAccepted(accept: string -> Result<bool>, pool: seq<string>, j: nat)
    requires j <= |pool|
    requires Pick(accept, pool, j).Ok? && Pick(accept, pool, j).value.Some?
    ensures var k := Pick(accept, pool, j).value.value;
            && k < j && accept(pool[k]) == Ok(true)
            && forall m :: k < m < j ==> accept(pool[m]) == Ok(false)
    decreases j
  {
    if accept(pool[j - 1]) == Ok(false) {
      PickIsLastAccepted(accept, pool, j - 1);
    }
  }

  /** No pick means every name of pool[..j] was refused. */
  lemma {:induction false} PickNoneAllRefused(accept: string -> Result<bool>, pool: seq<string>, j: nat)
    requires j <= |pool|
    requires Pick(accept, pool, j) == Ok(None)
    ensures forall m :: 0 <= m < j ==> accept(pool[m]) == Ok(false)
    decreases j
  {
    if j > 0 {
      PickNoneAllRefused(accept, pool, j - 1);
    }
  }

  /** Conversely, when every name is refused there is no pick. */
  lemma {:induction false} AllRefusedPickNone(accept: string -> Result<bool>, pool: seq<string>, j: nat)
    requires j <= |pool|
    requires forall m :: 0 <= m < j ==> accept(pool[m]) == Ok(false)
    ensures Pick(accept, pool, j) == Ok(None)
    decreases j
  {
    if j > 0 {
      AllRefusedPickNone(accept, pool, j - 1);
    }
  }

  /** And an accepted name whose later names are all refused is the pick. */
  lemma {:induction false} LastAcceptedIsPick(accept: string -> Result<bool>, pool: seq<string>, j: nat, k: nat)
    requires k < j <= |pool|
    requires accept(pool[k]) == Ok(true)
    requires forall m :: k < m < j ==> accept(pool[m]) == Ok(false)
    ensures Pick(accept, pool, j) == Ok(Some(k))
    decreases j
  {
    if k < j - 1 {
      LastAcceptedIsPick(accept, pool, j - 1, k);
    }
  }

  /** A record for which no candidate is accepted comes out unchanged, with
      RemoteFile still '', and neither directory changes. */
  lemma UnmatchedUnchanged(rec: TsRecord, lt: seq<string>, tdiff: string, pool: seq<string>,
                           local: Store, remote: Store, rw: string -> string, numComp: int)
    requires |lt| >= 4
    requires forall m :: 0 <= m < |pool| ==> Verdict(lt, tdiff, pool[m]) == Ok(false)
    ensures Scan(rec, lt, tdiff, pool, local, remote, rw, numComp) == Ok(Step(rec, local, remote, None))
  {
    AllRefusedPickNone(Acceptor(lt, tdiff), pool, |pool|);
  }

  /** What one scan leaves: either no candidate was accepted and nothing
      changed, or the last accepted candidate of the pool (every later one
      refused) was applied and the record is paired. */
  lemma ScanOutcome(rec: TsRecord, lt: seq<string>, tdiff: string, pool: seq<string>,
                    local: Store, remote: Store, rw: string -> string, numComp: int)
    requires |lt| >= 4
    requires Scan(rec, lt, tdiff, pool, local, remote, rw, numComp).Ok?
    ensures var st := Scan(rec, lt, tdiff, pool, local, remote, rw, numComp).value;
            st.hit.None? ==>
              st == Step(rec, local, remote, None)
              && forall m :: 0 <= m < |pool| ==> Verdict(lt, tdiff, pool[m]) == Ok(false)
    ensures var st := Scan(rec, lt, tdiff, pool, local, remote, rw, numComp).value;
            st.hit.Some? ==>
              var k := st.hit.value.index;
              && k < |pool| && st.hit.value.name == pool[k]
              && Verdict(lt, tdiff, pool[k]) == Ok(true)
              && (forall m :: k < m < |pool| ==> Verdict(lt, tdiff, pool[m]) == Ok(false))
              && PairedFields(st.rec, numComp) && SameIdentity(st.rec, rec)
  {
    var accept := Acceptor(lt, tdiff);
    var k := Pick(accept, pool, |pool|);
    if k.value.None? {
      PickNoneAllRefused(accept, pool, |pool|);
    } else {
      PickIsLastAccepted(accept, pool, |pool|);
      ApplyPairs(rec, lt, pool, k.value.value, local, remote, rw, numComp);
    }
  }

  /** Same start and the same number of samples: paired directly, and no
      file is rewritten. */
  lemma ApplyDirect(rec: TsRecord, lt: seq<string>, pool: seq<string>, index: nat, local: Store,
                    remote: Store, rw: string -> string, numComp: int)
    requires |lt| >= 4 && index < |pool| && |Tokens(pool[index])| >= 4
    requires lt[2] == Tokens(pool[index])[2]
    requires pool[index] in remote && |remote[pool[index]]| == rec.nLocal
    ensures var r := Apply(rec, lt, pool, index, local, remote, rw, numComp);
            && r.Ok? && r.value.local == local && r.value.remote == remote
            && r.value.rec.remoteFile == pool[index] && r.value.rec.localFile == rec.localFile
            && r.value.rec.nLocal == rec.nLocal
  {
  }

  /** Same start, the remote series shorter: the local series is cut to the
      remote's length and stored under its new name, which the record now
      names, with both counts equal to the remote's length. */
  lemma ApplyShrinkLocal(rec: TsRecord, lt: seq<string>, pool: seq<string>, index: nat, local: Store,
                         remote: Store, rw: string -> string, numComp: int)
    requires |lt| >= 4 && index < |pool| && |Tokens(pool[index])| >= 4
    requires lt[2] == Tokens(pool[index])[2]
    requires pool[index] in remote && |remote[pool[index]]| < rec.nLocal
    requires rec.localFile in local && |remote[pool[index]]| <= |local[rec.localFile]|
    ensures var r := Apply(rec, lt, pool, index, local, remote, rw, numComp);
            var n := |remote[pool[index]]|;
            && r.Ok? && r.value.remote == remote
            && r.value.local == local[rw(rec.localFile) := local[rec.localFile][..n]]
            && r.value.rec.localFile == rw(rec.localFile) && r.value.rec.remoteFile == pool[index]
            && r.value.rec.nLocal == n && r.value.rec.nRemote == Some(n)
  {
  }

  /** Same start, the remote series longer: the remote series is resized to
      NLocalPnt samples of two values and stored under its new name, which
      the record names as its remote file; when the remote samples hold two
      values each, which is what a reference file holds, the resized series
      is its first NLocalPnt samples. */
  lemma ApplyShrinkRemote(rec: TsRecord, lt: seq<string>, pool: seq<string>, index: nat, local: Store,
                          remote: Store, rw: string -> string, numComp: int)
    requires |lt| >= 4 && index < |pool| && |Tokens(pool[index])| >= 4
    requires lt[2] == Tokens(pool[index])[2]
    requires pool[index] in remote && |remote[pool[index]]| > rec.nLocal
    requires rec.localFile in local
    ensures var r := Apply(rec, lt, pool, index, local, remote, rw, numComp);
            var name := pool[index];
            && r.Ok? && r.value.local == local
            && r.value.remote == remote[rw(name) := ResizePairs(remote[name], rec.nLocal)]
            && |r.value.remote[rw(name)]| == rec.nLocal
            && ((forall i :: 0 <= i < |remote[name]| ==> |remote[name][i]| == 2) ==>
                  r.value.remote[rw(name)] == remote[name][..rec.nLocal])
            && r.value.rec.remoteFile == rw(name) && r.value.rec.localFile == rec.localFile
            && r.value.rec.nLocal == rec.nLocal && r.value.rec.nRemote == Some(rec.nLocal)
  {
    var name := pool[index];
    if forall i :: 0 <= i < |remote[name]| ==> |remote[name][i]| == 2 {
      ResizePairsPrefix(remote[name], rec.nLocal);
    }
  }

  /** A different start within tolerance and different lengths: the remote
      series becomes ts[rate·Δ:], Δ being the start difference, so it loses
      exactly its first rate·Δ rows and is empty when rate·Δ runs past its
      end; NRemotePnt is still set to NLocalPnt, not to the length of the
      trimmed series. */
  lemma ApplySkip(rec: TsRecord, lt: seq<string>, pool: seq<string>, index: nat, local: Store,
                  remote: Store, rw: string -> string, numComp: int, diff: nat, rate: int)
    requires |lt| >= 4 && index < |pool| && |Tokens(pool[index])| >= 4
    requires lt[2] != Tokens(pool[index])[2]
    requires rec.localFile in local && pool[index] in remote
    requires |local[rec.localFile]| != |remote[pool[index]]|
    requires StartDifference(lt[2], Tokens(pool[index])[2]) == Ok(diff)
    requires ParseInt(lt[3]) == Ok(rate)
    ensures var r := Apply(rec, lt, pool, index, local, remote, rw, numComp);
            var name := pool[index];
            && r.Ok? && r.value.local == local
            && r.value.remote == remote[rw(name) := DropFront(remote[name], rate * diff)]
            && (0 <= rate * diff <= |remote[name]| ==> r.value.remote[rw(name)] == remote[name][rate * diff..])
            && (rate * diff > |remote[name]| ==> r.value.remote[rw(name)] == [])
            && r.value.hit == Some(Hit(index, name, SkipRemote(rate * diff)))
            && r.value.rec.remoteFile == rw(name) && r.value.rec.nRemote == Some(rec.nLocal)
  {
    var name := pool[index];
    var skip := rate * diff;
    var trimmed := DropFront(remote[name], skip);
    assert Apply(rec, lt, pool, index, local, remote, rw, numComp)
        == Ok(Step(Paired(rec, rw(name), numComp), local, remote[rw(name) := trimmed],
                   Some(Hit(index, name, SkipRemote(skip)))));
  }

  /** A different start within tolerance and equal lengths: paired directly. */
  lemma ApplyNearDirect(rec: TsRecord, lt: seq<string>, pool: seq<string>, index: nat, local: Store,
                        remote: Store, rw: string -> string, numComp: int)
    requires |lt| >= 4 && index < |pool| && |Tokens(pool[index])| >= 4
    requires lt[2] != Tokens(pool[index])[2]
    requires rec.localFile in local && pool[index] in remote
    requires |local[rec.localFile]| == |remote[pool[index]]|
    ensures var r := Apply(rec, lt, pool, index, local, remote, rw, numComp);
            && r.Ok? && r.value.local == local && r.value.remote == remote
            && r.value.rec.remoteFile == pool[index] && r.value.rec.nRemote == Some(rec.nLocal)
  {
  }

  /** A file the accepted branch reads that is not in its directory raises
      IOError. */
  lemma ApplyMissingRemote(rec: TsRecord, lt: seq<string>, pool: seq<string>, index: nat, local: Store,
                           remote: Store, rw: string -> string, numComp: int)
    requires |lt| >= 4 && index < |pool| && |Tokens(pool[index])| >= 4
    requires pool[index] !in remote
    requires lt[2] != Tokens(pool[index])[2] ==> rec.localFile in local
    ensures Apply(rec, lt, pool, index, local, remote, rw, numComp) == Err(IOError(pool[index]))
  {
  }

  /** A record comes out of reconciliation either as it went in or paired,
      with its identity kept. */
  predicate Reconciled(out: TsRecord, rec: TsRecord, numComp: int)
  {
    out == rec || (PairedFields(out, numComp) && SameIdentity(out, rec))
  }

  lemma Reconcile1Outcome(rec: TsRecord, pool: seq<string>, local: Store, remote: Store,
                          rw: string -> string, numComp: int)
    requires Reconcile1(rec, pool, local, remote, rw, numComp).Ok?
    ensures Reconciled(Reconcile1(rec, pool, local, remote, rw, numComp).value.rec, rec, numComp)
  {
    var lt := Tokens(rec.localFile);
    ScanOutcome(rec, lt, TdiffTable[lt[3]], pool, local, remote, rw, numComp);
  }

  /** The tolerance lookup of get_rr_ts: a file name without a rate token
      raises IndexError; rates 256, 1024 and 4096 are scanned with the
      tolerances 060000, 002000 and 000500; any other rate raises KeyError. */
  lemma ToleranceLookup(rec: TsRecord, pool: seq<string>, local: Store, remote: Store,
                        rw: string -> string, numComp: int)
    ensures |Tokens(rec.localFile)| < 4 ==>
              Reconcile1(rec, pool, local, remote, rw, numComp) == Err(IndexError(rec.localFile))
    ensures var lt := Tokens(rec.localFile);
            |lt| >= 4 && lt[3] !in {"256", "1024", "4096"} ==>
              Reconcile1(rec, pool, local, remote, rw, numComp) == Err(KeyError(lt[3]))
    ensures var lt := Tokens(rec.localFile);
            |lt| >= 4 && lt[3] == "256" ==>
              Reconcile1(rec, pool, local, remote, rw, numComp) == Scan(rec, lt, "060000", pool, local, remote, rw, numComp)
    ensures var lt := Tokens(rec.localFile);
            |lt| >= 4 && lt[3] == "1024" ==>
              Reconcile1(rec, pool, local, remote, rw, numComp) == Scan(rec, lt, "002000", pool, local, remote, rw, numComp)
    ensures var lt := Tokens(rec.localFile);
            |lt| >= 4 && lt[3] == "4096" ==>
              Reconcile1(rec, pool, local, remote, rw, numComp) == Scan(rec, lt, "000500", pool, local, remote, rw, numComp)
  {
  }

  /** A record step that only ever reconciles the record it is given. */
  ghost predicate StepReconciles(one: RecordStep, numComp: int)
  {
    forall rec: TsRecord, l: Store, m: Store ::
      one(rec, l, m).Ok? ==> Reconciled(one(rec, l, m).value.rec, rec, numComp)
  }

  lemma ReconcilerReconciles(pool: seq<string>, rw: string -> string, numComp: int)
    ensures StepReconciles(Reconciler(pool, rw, numComp), numComp)
  {
    forall rec: TsRecord, l: Store, m: Store | Reconcile1(rec, pool, l, m, rw, numComp).Ok?
      ensures Reconciled(Reconcile1(rec, pool, l, m, rw, numComp).value.rec, rec, numComp)
    {
      Reconcile1Outcome(rec, pool, l, m, rw, numComp);
    }
  }

  /** A run of such steps yields one entry per record handled, in input
      order, each the record itself or its paired form. */
  lemma {:induction false} RunEntries(recs: seq<TsRecord>, n: nat, one: RecordStep, local: Store,
                                      remote: Store, numComp: int)
    requires n <= |recs| && StepReconciles(one, numComp)
    ensures var run := RunUpTo(recs, n, one, local, remote);
            && |run.done| <= n
            && forall i :: 0 <= i < |run.done| ==> Reconciled(run.done[i], recs[i], numComp)
  {
    if n > 0 {
      RunEntries(recs, n - 1, one, local, remote, numComp);
      RunUpToShape(recs, n - 1, one, local, remote);
      var prev := RunUpTo(recs, n - 1, one, local, remote);
      if prev.failure.None? {
        var res := one(recs[n - 1], prev.local, prev.remote);
        if res.Ok? {
          assert Reconciled(res.value.rec, recs[n - 1], numComp);
          assert RunUpTo(recs, n, one, local, remote).done == prev.done + [res.value.rec];
        }
      }
    }
  }

  /** get_rr_ts leaves exactly as many entries as it was given, entry i
      coming from record i; after an exception the records not reached are
      kept as they were. */
  lemma RecordsOnePerInput(recs: seq<TsRecord>, pool: seq<string>, local: Store, remote: Store,
                           rw: string -> string, numComp: int)
    ensures var run := RunUpTo(recs, |recs|, Reconciler(pool, rw, numComp), local, remote);
            && |run.done| <= |recs|
            && |Records(recs, run)| == |recs|
            && forall i :: 0 <= i < |recs| ==> Reconciled(Records(recs, run)[i], recs[i], numComp)
  {
    ReconcilerReconciles(pool, rw, numComp);
    RunEntries(recs, |recs|, Reconciler(pool, rw, numComp), local, remote, numComp);
  }
  /** The tolerance rule: a candidate of the same station and rate with a
      different start token is accepted exactly when the integer values of
      the two HHMMSS tokens differ by less than the tolerance's integer value
      (HHMMSS digits compared as plain integers, not seconds). */
  lemma VerdictWithin(lt: seq<string>, tdiff: string, name: string, a: int, b: int, t: int)
    requires |lt| >= 4
    requires |Tokens(name)| >= 4 && Tokens(name)[1] == lt[1] && Tokens(name)[3] == lt[3]
    requires Tokens(name)[2] != lt[2]
    requires ParseInt(lt[2]) == Ok(a) && ParseInt(Tokens(name)[2]) == Ok(b) && ParseInt(tdiff) == Ok(t)
    ensures Verdict(lt, tdiff, name) == Ok(Abs(a - b) < t)
  {
  }

}

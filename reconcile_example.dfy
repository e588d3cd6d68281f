/** A worked instance of remote-reference matching: a local recording of
    station S1 at 1024 Hz starting 002000 and a reference candidate of the
    same station and rate starting 002005, with the same number of samples. */
module ReconcileExample {
  import opened Failures
  import opened Text
  import opened Catalog
  import opened RemoteReference
  import opened ReconcileFacts

  lemma ParseDigits(s: string)
    requires |s| > 0 && AllDigits(s)
    ensures ParseInt(s) == Ok(DigitsValue(s))
  {
    assert forall i :: 0 <= i < |s| ==> !IsSpace(s[i]) by {
      forall i | 0 <= i < |s| ensures !IsSpace(s[i]) { assert IsDigit(s[i]); }
    }
    assert IsDigit(s[0]);
  }

  lemma StripExtCac(root: string)
    requires '.' !in root && root != [] && root[0] != '.'
    ensures StripExt(root + ".cac") == root
  {
    var name := root + ".cac";
    assert name[|root|] == '.';
    assert name[|root| + 1..] == "cac";
    var d := LastDot(name);
    assert d == |root|;
    assert name[..d] == root;
    assert !OnlyDots(root);
  }

  lemma TokensOf(name: string, parts: seq<string>)
    requires |parts| >= 1 && forall k :: 0 <= k < |parts| ==> '_' !in parts[k] && '.' !in parts[k]
    requires parts[0] != [] && parts[0][0] != '.'
    requires name == Join(parts, '_') + ".cac"
    ensures Tokens(name) == parts
  {
    var root := Join(parts, '_');
    JoinAvoids(parts, '_', '.');
    JoinHead(parts, '_');
    StripExtCac(root);
    SplitJoin(parts, '_');
  }

  lemma JoinHead(parts: seq<string>, c: char)
    requires |parts| >= 1 && parts[0] != []
    ensures Join(parts, c) != [] && Join(parts, c)[0] == parts[0][0]
  {
  }

  lemma {:induction false} JoinAvoids(parts: seq<string>, c: char, x: char)
    requires x != c && forall k :: 0 <= k < |parts| ==> x !in parts[k]
    ensures x !in Join(parts, c)
  {
    if |parts| > 1 { JoinAvoids(parts[1..], c, x); }
  }

  /** The tokens of a cache name station_schedule_start_rate.cac are its four
      '_'-separated fields, as zonge.py splits both the local name and every
      candidate name. */
  lemma CacheTokens(name: string, station: string, schedule: string, start: string, rate: string)
    requires station != [] && station[0] != '.'
    requires '_' !in station && '_' !in schedule && '_' !in start && '_' !in rate
    requires '.' !in station && '.' !in schedule && '.' !in start && '.' !in rate
    requires name == station + "_" + schedule + "_" + start + "_" + rate + ".cac"
    ensures Tokens(name) == [station, schedule, start, rate]
  {
    var parts := [station, schedule, start, rate];
    calc {
      Join(parts, '_');
      { assert parts[1..] == [schedule, start, rate]; }
      station + "_" + Join([schedule, start, rate], '_');
      { assert [schedule, start, rate][1..] == [start, rate]; }
      station + "_" + (schedule + "_" + Join([start, rate], '_'));
      { assert [start, rate][1..] == [rate]; }
      station + "_" + (schedule + "_" + (start + "_" + rate));
      station + "_" + schedule + "_" + start + "_" + rate;
    }
    TokensOf(name, parts);
  }

  /** The local name (start 002000) and the candidate name (start 002005) of
      the example. */
  lemma ExampleTokens(name: string, start: string)
    requires (name == "mb01_S1_002000_1024.cac" && start == "002000")
          || (name == "mb01_S1_002005_1024.cac" && start == "002005")
    ensures Tokens(name) == ["mb01", "S1", start, "1024"]
  {
    if start == "002000" {
      CacheTokens(name, "mb01", "S1", "002000", "1024");
    } else {
      CacheTokens(name, "mb01", "S1", "002005", "1024");
    }
  }

  lemma DigitsSnoc(s: string, c: char)
    requires AllDigits(s) && IsDigit(c)
    ensures AllDigits(s + [c]) && DigitsValue(s + [c]) == DigitsValue(s) * 10 + (c as int - '0' as int)
  {
    assert (s + [c])[..|s|] == s;
  }

  lemma ExampleDigits()
    ensures ParseInt("002000") == Ok(2000) && ParseInt("002005") == Ok(2005)
  {
    DigitsSnoc("", '0');
    assert [] + ['0'] == "0";
    DigitsSnoc("0", '0');
    assert "0" + ['0'] == "00";
    DigitsSnoc("00", '2');
    assert "00" + ['2'] == "002";
    DigitsSnoc("002", '0');
    assert "002" + ['0'] == "0020";
    DigitsSnoc("0020", '0');
    assert "0020" + ['0'] == "00200";
    DigitsSnoc("00200", '0');
    assert "00200" + ['0'] == "002000";
    DigitsSnoc("00200", '5');
    assert "00200" + ['5'] == "002005";
    ParseDigits("002000");
    ParseDigits("002005");
  }

  lemma ParsesTo(s: string, n: int)
    requires (s == "002000" && n == 2000) || (s == "002005" && n == 2005)
    ensures ParseInt(s) == Ok(n)
  {
    ExampleDigits();
  }

  lemma NearStart(rec: TsRecord, cand: string, local: Store, remote: Store, rw: string -> string, numComp: int)
    requires Tokens(rec.localFile) == ["mb01", "S1", "002000", "1024"]
    requires Tokens(cand) == ["mb01", "S1", "002005", "1024"]
    requires rec.localFile in local && cand in remote
    requires |local[rec.localFile]| == |remote[cand]|
    ensures Reconcile1(rec, [cand], local, remote, rw, numComp)
            == Ok(Step(Paired(rec, cand, numComp), local, remote, Some(Hit(0, cand, DirectNear))))
  {
    var lt := Tokens(rec.localFile);
    var tdiff := TdiffTable[lt[3]];
    ParsesTo(lt[2], 2000);
    ParsesTo(Tokens(cand)[2], 2005);
    ParsesTo(tdiff, 2000);
    VerdictWithin(lt, tdiff, cand, 2000, 2005, 2000);
    LastAcceptedIsPick(Acceptor(lt, tdiff), [cand], 1, 0);
    var hit := Ok(Step(Paired(rec, cand, numComp), local, remote, Some(Hit(0, cand, DirectNear))));
    assert Apply(rec, lt, [cand], 0, local, remote, rw, numComp) == hit by {
      assert [cand][0] == cand && lt[2] != Tokens(cand)[2];
    }
    assert Scan(rec, lt, tdiff, [cand], local, remote, rw, numComp) == hit;
  }

  /** The start tokens differ by 5 in HHMMSS digits, within the 1024 Hz
      tolerance 002000 (2000 as an integer), and the lengths agree: the pair
      is made directly and no file is rewritten. */
  lemma NearStartExample(rec: TsRecord, local: Store, remote: Store, rw: string -> string, numComp: int)
    requires rec.localFile == "mb01_S1_002000_1024.cac"
    requires rec.localFile in local && "mb01_S1_002005_1024.cac" in remote
    requires |local[rec.localFile]| == |remote["mb01_S1_002005_1024.cac"]|
    ensures Reconcile1(rec, ["mb01_S1_002005_1024.cac"], local, remote, rw, numComp)
            == Ok(Step(Paired(rec, "mb01_S1_002005_1024.cac", numComp), local, remote,
                       Some(Hit(0, "mb01_S1_002005_1024.cac", DirectNear))))
  {
    ExampleTokens(rec.localFile, "002000");
    ExampleTokens("mb01_S1_002005_1024.cac", "002005");
    NearStart(rec, "mb01_S1_002005_1024.cac", local, remote, rw, numComp);
  }

  /** A reference series of three-value samples is regrouped by twos, as
      numpy resizes the flattened data: [[1,2,3],[4,5,6],[7,8,9]] cut to two
      samples is [[1,2],[3,4]], not its first two samples. */
  lemma ResizeRegroupsByTwos()
    ensures ResizePairs([[1, 2, 3], [4, 5, 6], [7, 8, 9]], 2) == [[1, 2], [3, 4]]
  {
    var s: seq<Sample> := [[1, 2, 3], [4, 5, 6], [7, 8, 9]];
    assert s[..2][..1][..0] == [];
    assert Flatten(s[..1]) == [1, 2, 3];
    assert Flatten(s[..2]) == [1, 2, 3, 4, 5, 6];
    assert Flatten(s) == [1, 2, 3, 4, 5, 6, 7, 8, 9];
  }
}

/** The processing setups of an MTFT24 configuration: one setup per
    distinct number of recorded components, in the order those numbers are
    first met, and the two remote-reference channels added to every setup. */
module Setups {
  import opened Text

  /** Chn.ID entries: the numbered ids 1..n of a fresh setup, or the text
      ids of the remote channels. */
  datatype ChannelId = IdNum(n: int) | IdText(text: string)

  /** One chn_dict value: [id, gain, length]. */
  datatype Channel = Channel(id: ChannelId, gain: int, length: int)

  /** One setup dictionary of setup_lst. cmpSource is the index in
      Chn_Cmp_lst of the component list the setup was built from: Python
      keeps that very list object as Chn.Cmp, so extending one extends the
      other. */
  datatype Setup = Setup(
    id: int,
    use: string,
    unitLength: string,
    cmp: seq<string>,
    ids: seq<ChannelId>,
    lengths: seq<int>,
    gains: seq<int>,
    antFrqMin: real,
    antFrqMax: real,
    rxHpr: seq<int>,
    remoteComponent: string,
    remoteRotation: int,
    remotePath: string,
    chnDict: map<string, Channel>,
    tsInfoKeys: seq<string>,
    cmpSource: nat)

  /** The attributes of ZongeMTFT that every new setup copies. */
  datatype Template = Template(
    antFrqMin: real,
    antFrqMax: real,
    rxHpr: seq<int>,
    remoteComponent: string,
    remoteRotation: int,
    remotePath: string,
    tsInfoKeys: seq<string>)

  function Min(a: int, b: int): int { if a < b then a else b }

  /** dict(zip(cmp, ids, gains, lengths)) over the first n entries. */
  function ChannelDict(cmp: seq<string>, ids: seq<ChannelId>, gains: seq<int>, lengths: seq<int>,
                       n: nat): map<string, Channel>
    requires n <= |cmp| && n <= |ids| && n <= |gains| && n <= |lengths|
  {
    if n == 0 then map[]
    else ChannelDict(cmp, ids, gains, lengths, n - 1)[cmp[n - 1] := Channel(ids[n - 1], gains[n - 1], lengths[n - 1])]
  }

  /** The keys are the first n components. */
  lemma {:induction false} ChannelDictKeys(cmp: seq<string>, ids: seq<ChannelId>, gains: seq<int>,
                                           lengths: seq<int>, n: nat)
    requires n <= |cmp| && n <= |ids| && n <= |gains| && n <= |lengths|
    ensures forall c :: c in ChannelDict(cmp, ids, gains, lengths, n) <==> c in cmp[..n]
  {
    if n > 0 {
      ChannelDictKeys(cmp, ids, gains, lengths, n - 1);
      assert cmp[..n] == cmp[..n - 1] + [cmp[n - 1]];
    }
  }

  /** A repeated component keeps the entry of its last occurrence: zip
      pairs entry k with the k-th id, gain and length. */
  lemma {:induction false} ChannelDictLastWins(cmp: seq<string>, ids: seq<ChannelId>, gains: seq<int>,
                                               lengths: seq<int>, n: nat, k: nat)
    requires n <= |cmp| && n <= |ids| && n <= |gains| && n <= |lengths|
    requires k < n && cmp[k] !in cmp[k + 1..n]
    ensures cmp[k] in ChannelDict(cmp, ids, gains, lengths, n)
    ensures ChannelDict(cmp, ids, gains, lengths, n)[cmp[k]] == Channel(ids[k], gains[k], lengths[k])
  {
    if k < n - 1 {
      assert cmp[k + 1..n] == cmp[k + 1..n - 1] + [cmp[n - 1]];
      ChannelDictLastWins(cmp, ids, gains, lengths, n - 1, k);
    }
  }

  /** The chn_dict of a setup, from its four channel lists. */
  function ChannelDictOf(cmp: seq<string>, ids: seq<ChannelId>, gains: seq<int>, lengths: seq<int>): map<string, Channel>
  {
    ChannelDict(cmp, ids, gains, lengths, Min(Min(|cmp|, |ids|), Min(|gains|, |lengths|)))
  }

  /** range(1, n + 1). */
  function Range1(n: nat): (r: seq<ChannelId>)
    ensures |r| == n && forall k :: 0 <= k < n ==> r[k] == IdNum(k + 1)
  {
    seq(n, k requires 0 <= k < n => IdNum(k + 1))
  }

  /** [v] * n. */
  function Repeat(v: int, n: nat): (r: seq<int>)
    ensures |r| == n && forall k :: 0 <= k < n ==> r[k] == v
  {
    seq(n, k requires 0 <= k < n => v)
  }

  /** s[:k] in Python: a negative k counts from the end, and k is clamped. */
  function PyPrefix(s: seq<string>, k: int): (r: seq<string>)
    ensures 0 <= k <= |s| ==> r == s[..k]
    ensures k > |s| ==> r == s
    ensures k < 0 ==> r == s[..if |s| + k < 0 then 0 else |s| + k]
  {
    if k > |s| then s
    else if k >= 0 then s[..k]
    else if |s| + k < 0 then []
    else s[..|s| + k]
  }

  /** The setup built for the component list cc (entry `source` of
      Chn_Cmp_lst), with id `id`. */
  function NewSetup(id: int, cc: seq<string>, source: nat, t: Template): (s: Setup)
    ensures s.id == id && s.cmp == cc && s.cmpSource == source
    ensures |s.ids| == |cc| && forall k :: 0 <= k < |cc| ==> s.ids[k] == IdNum(k + 1)
    ensures |s.lengths| == |cc| && forall k :: 0 <= k < |cc| ==> s.lengths[k] == 100
    ensures |s.gains| == |cc| && forall k :: 0 <= k < |cc| ==> s.gains[k] == 1
    ensures s.tsInfoKeys == PyPrefix(t.tsInfoKeys, |t.tsInfoKeys| - (5 - |cc|))
  {
    var ids := Range1(|cc|);
    var lengths := Repeat(100, |cc|);
    var gains := Repeat(1, |cc|);
    Setup(id, "Yes", "m", cc, ids, lengths, gains, t.antFrqMin, t.antFrqMax, t.rxHpr,
          t.remoteComponent, t.remoteRotation, t.remotePath,
          ChannelDictOf(cc, ids, gains, lengths),
          PyPrefix(t.tsInfoKeys, |t.tsInfoKeys| - (5 - |cc|)), source)
  }

  /** The component counts of the setups, in order. */
  function CountsOf(setups: seq<Setup>): (r: seq<int>)
    ensures |r| == |setups| && forall i :: 0 <= i < |setups| ==> r[i] == |setups[i].cmp|
  {
    seq(|setups|, i requires 0 <= i < |setups| => |setups[i].cmp|)
  }

  /** One turn of compute_number_of_setups' loop: a list whose length no
      setup has yet gets the next setup. */
  function AddSetup(prev: seq<Setup>, cc: seq<string>, source: nat, t: Template): (r: seq<Setup>)
    ensures |cc| in CountsOf(prev) ==> r == prev
    ensures |cc| !in CountsOf(prev) ==> r == prev + [NewSetup(|prev| + 1, cc, source, t)]
  {
    if |cc| in CountsOf(prev) then prev else prev + [NewSetup(|prev| + 1, cc, source, t)]
  }

  /** setup_lst after compute_number_of_setups has gone through lst. */
  function SetupsFor(lst: seq<seq<string>>, t: Template): seq<Setup>
  {
    if lst == [] then []
    else AddSetup(SetupsFor(lst[..|lst| - 1], t), lst[|lst| - 1], |lst| - 1, t)
  }

  /** Setup.ID runs 1, 2, ... in list order. */
  ghost predicate Numbered(setups: seq<Setup>)
  {
    forall i :: 0 <= i < |setups| ==> setups[i].id == i + 1
  }

  /** Each setup is built from the first list of its length in lst, and
      those lists come in list order. */
  ghost predicate FirstOfLength(lst: seq<seq<string>>, setups: seq<Setup>)
  {
    && (forall i :: 0 <= i < |setups| ==>
          setups[i].cmpSource < |lst| && setups[i].cmp == lst[setups[i].cmpSource]
          && forall m :: 0 <= m < setups[i].cmpSource ==> |lst[m]| != |setups[i].cmp|)
    && (forall i, j :: 0 <= i < j < |setups| ==> setups[i].cmpSource < setups[j].cmpSource)
  }

  /** No two setups have the same number of components. */
  ghost predicate DistinctCounts(setups: seq<Setup>)
  {
    forall i, j :: 0 <= i < j < |setups| ==> |setups[i].cmp| != |setups[j].cmp|
  }

  /** Every length met in lst has its setup. */
  ghost predicate Covers(lst: seq<seq<string>>, setups: seq<Setup>)
  {
    forall m :: 0 <= m < |lst| ==> |lst[m]| in CountsOf(setups)
  }

  /** All that the grouping guarantees. */
  ghost predicate Grouped(lst: seq<seq<string>>, setups: seq<Setup>)
  {
    Numbered(setups) && FirstOfLength(lst, setups) && DistinctCounts(setups) && Covers(lst, setups)
  }

  lemma AddNumbered(prev: seq<Setup>, cc: seq<string>, source: nat, t: Template)
    requires Numbered(prev)
    ensures Numbered(AddSetup(prev, cc, source, t))
  {
  }

  lemma AddFirstOfLength(init: seq<seq<string>>, prev: seq<Setup>, cc: seq<string>, t: Template)
    requires FirstOfLength(init, prev) && Covers(init, prev)
    ensures FirstOfLength(init + [cc], AddSetup(prev, cc, |init|, t))
  {
    var lst := init + [cc];
    forall i | 0 <= i < |prev| ensures lst[prev[i].cmpSource] == init[prev[i].cmpSource] {
    }
    forall m | 0 <= m < |init| ensures |init[m]| in CountsOf(prev) {
    }
    if |cc| !in CountsOf(prev) {
      forall m | 0 <= m < |init| ensures |lst[m]| != |cc| {
        assert lst[m] == init[m];
      }
    }
  }

  lemma AddDistinct(prev: seq<Setup>, cc: seq<string>, source: nat, t: Template)
    requires DistinctCounts(prev)
    ensures DistinctCounts(AddSetup(prev, cc, source, t))
  {
    var r := AddSetup(prev, cc, source, t);
    if |cc| !in CountsOf(prev) {
      forall i, j | 0 <= i < j < |r| ensures |r[i].cmp| != |r[j].cmp| {
        if j == |prev| {
          assert CountsOf(prev)[i] == |r[i].cmp|;
        }
      }
    }
  }

  lemma AddCovers(init: seq<seq<string>>, prev: seq<Setup>, cc: seq<string>, t: Template)
    requires Covers(init, prev)
    ensures Covers(init + [cc], AddSetup(prev, cc, |init|, t))
  {
    var lst := init + [cc];
    var r := AddSetup(prev, cc, |init|, t);
    forall m | 0 <= m < |lst| ensures |lst[m]| in CountsOf(r) {
      if m < |init| {
        assert lst[m] == init[m];
        var i :| 0 <= i < |prev| && CountsOf(prev)[i] == |lst[m]|;
        assert CountsOf(r)[i] == |lst[m]|;
      } else if |cc| !in CountsOf(prev) {
        assert CountsOf(r)[|prev|] == |cc|;
      }
    }
  }

  /** One turn of the loop keeps the grouping guarantees. */
  lemma AddGrouped(init: seq<seq<string>>, prev: seq<Setup>, cc: seq<string>, t: Template)
    requires Grouped(init, prev)
    ensures Grouped(init + [cc], AddSetup(prev, cc, |init|, t))
  {
    AddNumbered(prev, cc, |init|, t);
    AddFirstOfLength(init, prev, cc, t);
    AddDistinct(prev, cc, |init|, t);
    AddCovers(init, prev, cc, t);
  }

  lemma {:induction false} SetupsForGrouped(lst: seq<seq<string>>, t: Template)
    ensures Grouped(lst, SetupsFor(lst, t))
    decreases |lst|
  {
    if lst != [] {
      var init := lst[..|lst| - 1];
      SetupsForGrouped(init, t);
      assert lst == init + [lst[|lst| - 1]];
      AddGrouped(init, SetupsFor(init, t), lst[|lst| - 1], t);
    }
  }

  /** The set of component counts met in lst. */
  ghost function CountSet(lst: seq<seq<string>>): set<int>
  {
    set m | 0 <= m < |lst| :: |lst[m]|
  }

  /** The setups' counts as a set. */
  ghost function Members(cs: seq<int>): set<int>
  {
    set i | 0 <= i < |cs| :: cs[i]
  }

  /** There are exactly as many setups as distinct component counts. */
  lemma SetupCountDistinct(lst: seq<seq<string>>, t: Template)
    ensures |SetupsFor(lst, t)| == |CountSet(lst)|
  {
    SetupsForGrouped(lst, t);
    GroupedCount(lst, SetupsFor(lst, t));
  }

  lemma GroupedCount(lst: seq<seq<string>>, setups: seq<Setup>)
    requires Grouped(lst, setups)
    ensures |setups| == |CountSet(lst)|
  {
    var cs := CountsOf(setups);
    assert CountSet(lst) == Members(cs) by {
      forall c | c in CountSet(lst) ensures c in Members(cs) {
        var m :| 0 <= m < |lst| && |lst[m]| == c;
        assert c in cs;
        var i :| 0 <= i < |cs| && cs[i] == c;
      }
      forall c | c in Members(cs) ensures c in CountSet(lst) {
        var i :| 0 <= i < |cs| && cs[i] == c;
        assert |lst[setups[i].cmpSource]| == c;
      }
    }
    DistinctCard(cs);
  }

  lemma {:induction false} DistinctCard(cs: seq<int>)
    requires forall i, j :: 0 <= i < j < |cs| ==> cs[i] != cs[j]
    ensures |Members(cs)| == |cs|
  {
    if cs != [] {
      var init := cs[..|cs| - 1];
      DistinctCard(init);
      var a := Members(init);
      var b := Members(cs);
      assert b == a + {cs[|cs| - 1]} by {
        forall c | c in b ensures c in a + {cs[|cs| - 1]} {
          var i :| 0 <= i < |cs| && cs[i] == c;
          if i < |cs| - 1 { assert init[i] == c; }
        }
      }
      forall i | 0 <= i < |init| ensures init[i] != cs[|cs| - 1] {
        assert init[i] == cs[i];
      }
    }
  }

  /** The setup after set_remote_reference_info: Hxr and Hyr appended with
      ids '2284' and '2274', length 100 and gain 1; the remote attributes
      copied again, the remote path with the path separator; two more gain
      keys, ChnGain<n+1> and ChnGain<n+2> for a setup of n components. */
  function WithRemote(s: Setup, t: Template): (r: Setup)
    ensures r.cmp == s.cmp + ["Hxr", "Hyr"]
    ensures r.ids == s.ids + [IdText("2284"), IdText("2274")]
    ensures r.lengths == s.lengths + [100, 100] && r.gains == s.gains + [1, 1]
    ensures r.tsInfoKeys == s.tsInfoKeys + ["ChnGain" + NatToString(|s.cmp| + 1), "ChnGain" + NatToString(|s.cmp| + 2)]
    ensures r.remotePath == t.remotePath + "/"
    ensures r.id == s.id && r.cmpSource == s.cmpSource
  {
    var cmp := s.cmp + ["Hxr", "Hyr"];
    var ids := s.ids + [IdText("2284"), IdText("2274")];
    var lengths := s.lengths + [100, 100];
    var gains := s.gains + [1, 1];
    var n := |cmp|;
    s.(cmp := cmp, ids := ids, lengths := lengths, gains := gains,
       antFrqMin := t.antFrqMin, antFrqMax := t.antFrqMax, rxHpr := t.rxHpr,
       remoteComponent := t.remoteComponent, remoteRotation := t.remoteRotation,
       remotePath := t.remotePath + "/",
       chnDict := ChannelDictOf(cmp, ids, gains, lengths),
       tsInfoKeys := s.tsInfoKeys + ["ChnGain" + NatToString(n - 1), "ChnGain" + NatToString(n)])
  }

  lemma SetupsForSnoc(lst: seq<seq<string>>, cc: seq<string>, t: Template)
    ensures SetupsFor(lst + [cc], t) == AddSetup(SetupsFor(lst, t), cc, |lst|, t)
  {
    assert (lst + [cc])[..|lst|] == lst;
  }

  /** compute_number_of_setups' loop: the setups after k + 1 lists are the
      setups after k lists with list k added. */
  lemma SetupsForPrefix(lst: seq<seq<string>>, k: nat, t: Template)
    requires k < |lst|
    ensures SetupsFor(lst[..k + 1], t) == AddSetup(SetupsFor(lst[..k], t), lst[k], k, t)
  {
    assert lst[..k + 1][..k] == lst[..k];
  }

  /** The first list of length 5 or of length 3 among counts 5, 5, 3, 5, 3. */
  lemma FirstOfFiveThree(lst: seq<seq<string>>, src: nat)
    requires |lst| == 5 && |lst[0]| == 5 && |lst[1]| == 5 && |lst[2]| == 3 && |lst[3]| == 5 && |lst[4]| == 3
    requires src < |lst| && forall m :: 0 <= m < src ==> |lst[m]| != |lst[src]|
    ensures (src == 0 && |lst[src]| == 5) || (src == 2 && |lst[src]| == 3)
  {
  }

  /** Component counts 5, 5, 3, 5, 3, grouped: two setups, id 1 from the
      first list and id 2 from the third. */
  lemma GroupedFiveThree(lst: seq<seq<string>>, r: seq<Setup>)
    requires |lst| == 5 && |lst[0]| == 5 && |lst[1]| == 5 && |lst[2]| == 3 && |lst[3]| == 5 && |lst[4]| == 3
    requires Grouped(lst, r)
    ensures |r| == 2 && r[0].id == 1 && r[0].cmp == lst[0] && r[0].cmpSource == 0
            && r[1].id == 2 && r[1].cmp == lst[2] && r[1].cmpSource == 2
  {
    assert CountSet(lst) == {5, 3} by {
      assert |lst[0]| == 5 && |lst[2]| == 3;
    }
    GroupedCount(lst, r);
    FirstOfFiveThree(lst, r[0].cmpSource);
    FirstOfFiveThree(lst, r[1].cmpSource);
  }

  /** compute_number_of_setups on component counts 5, 5, 3, 5, 3. */
  lemma FiveFiveThreeFiveThree(lst: seq<seq<string>>, t: Template)
    requires |lst| == 5 && |lst[0]| == 5 && |lst[1]| == 5 && |lst[2]| == 3 && |lst[3]| == 5 && |lst[4]| == 3
    ensures var r := SetupsFor(lst, t);
            |r| == 2 && r[0].id == 1 && r[0].cmp == lst[0] && r[0].cmpSource == 0
            && r[1].id == 2 && r[1].cmp == lst[2] && r[1].cmpSource == 2
  {
    SetupsForGrouped(lst, t);
    GroupedFiveThree(lst, SetupsFor(lst, t));
  }
}

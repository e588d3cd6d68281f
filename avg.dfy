/** The line loop of ZongeMTAvg.read_avg_file: `$key=value` lines either
    name the component whose rows follow or go to the header dictionary,
    lines starting with 'S' are skipped, and every other line longer than
    two characters fills the next row of the current component. */
module AvgFile {
  import opened Failures
  import opened Text

  /** The component names read_avg_file knows (the keys of comp_flag). */
  const CompKeys: seq<string> := ["zxx", "zxy", "zyx", "zyy", "tzx", "tzy"]

  /** The twelve columns of a data line, in file order (info_keys). */
  const InfoKeys: seq<string> :=
    ["Skp", "Freq", "E.mag", "B.mag", "Z.mag", "Z.phz", "ARes.mag", "ARes.%err", "Z.perr", "Coher", "FC.NUse", "FC.NTry"]

  /** One row of comp_dict, a record of the info_dtype fields. */
  datatype AvgRow = AvgRow(skp: real, freq: real, eMag: real, bMag: real, zMag: real, zPhz: real,
                           aResMag: real, aResErr: real, zPerr: real, coher: real, fcNUse: real, fcNTry: real)

  const ZeroRow := AvgRow(0.0, 0.0, 0.0, 0.0, 0.0, 0.0, 0.0, 0.0, 0.0, 0.0, 0.0, 0.0)

  /** row[info_keys[cc].lower()] = v. */
  function SetCell(row: AvgRow, cc: nat, v: real): AvgRow
    requires cc < 12
  {
    if cc == 0 then row.(skp := v)
    else if cc == 1 then row.(freq := v)
    else if cc == 2 then row.(eMag := v)
    else if cc == 3 then row.(bMag := v)
    else if cc == 4 then row.(zMag := v)
    else if cc == 5 then row.(zPhz := v)
    else if cc == 6 then row.(aResMag := v)
    else if cc == 7 then row.(aResErr := v)
    else if cc == 8 then row.(zPerr := v)
    else if cc == 9 then row.(coher := v)
    else if cc == 10 then row.(fcNUse := v)
    else row.(fcNTry := v)
  }

  /** row[info_keys[cc].lower()]. */
  function GetCell(row: AvgRow, cc: nat): real
    requires cc < 12
  {
    if cc == 0 then row.skp
    else if cc == 1 then row.freq
    else if cc == 2 then row.eMag
    else if cc == 3 then row.bMag
    else if cc == 4 then row.zMag
    else if cc == 5 then row.zPhz
    else if cc == 6 then row.aResMag
    else if cc == 7 then row.aResErr
    else if cc == 8 then row.zPerr
    else if cc == 9 then row.coher
    else if cc == 10 then row.fcNUse
    else row.fcNTry
  }

  /** Setting a cell changes that cell and no other. */
  lemma SetCellGet(row: AvgRow, cc: nat, v: real, k: nat)
    requires cc < 12 && k < 12
    ensures GetCell(SetCell(row, cc, v), k) == if k == cc then v else GetCell(row, k)
  {
  }

  /** comp_dict: each component's rows. */
  type Table = map<string, seq<AvgRow>>

  /** numpy's conversion of a field's text to the column's type (an integer
      for Skp, FC.NUse and FC.NTry, a float otherwise), given the column;
      text it cannot read gives ValueError. */
  type Conv = (nat, string) -> Result<real>

  datatype RowWrite = RowWrite(row: AvgRow, failure: Option<Failure>)

  /** The cell loop over the first n columns: field cc goes to column cc; a
      missing field raises IndexError, an unreadable one ValueError, and the
      cells written before stay. */
  function RowUpTo(row: AvgRow, fields: seq<string>, conv: Conv, n: nat): RowWrite
    requires n <= 12
  {
    if n == 0 then RowWrite(row, None)
    else
      var prev := RowUpTo(row, fields, conv, n - 1);
      if prev.failure.Some? then prev
      else if n - 1 >= |fields| then RowWrite(prev.row, Some(IndexError("alst")))
      else
        var v := conv(n - 1, fields[n - 1]);
        if v.Err? then RowWrite(prev.row, Some(v.failure))
        else RowWrite(SetCell(prev.row, n - 1, v.value), None)
  }

  lemma {:induction false} RowStopped(row: AvgRow, fields: seq<string>, conv: Conv, i: nat, n: nat)
    requires i <= n <= 12
    requires RowUpTo(row, fields, conv, i).failure.Some?
    ensures RowUpTo(row, fields, conv, n) == RowUpTo(row, fields, conv, i)
    decreases n - i
  {
    if i < n { RowStopped(row, fields, conv, i, n - 1); }
  }

  /** A row write succeeds exactly when there are n fields and each reads;
      then column k holds the k-th field's value. */
  lemma {:induction false} RowUpToCells(row: AvgRow, fields: seq<string>, conv: Conv, n: nat)
    requires n <= 12
    ensures RowUpTo(row, fields, conv, n).failure.None? <==>
              n <= |fields| && forall k :: 0 <= k < n ==> conv(k, fields[k]).Ok?
    ensures RowUpTo(row, fields, conv, n).failure.None? ==>
              forall k :: 0 <= k < 12 ==>
                GetCell(RowUpTo(row, fields, conv, n).row, k) == if k < n then conv(k, fields[k]).value else GetCell(row, k)
  {
    if n > 0 {
      RowUpToCells(row, fields, conv, n - 1);
      var prev := RowUpTo(row, fields, conv, n - 1);
      if prev.failure.None? && n - 1 < |fields| && conv(n - 1, fields[n - 1]).Ok? {
        forall k | 0 <= k < 12 {
          SetCellGet(prev.row, n - 1, conv(n - 1, fields[n - 1]).value, k);
        }
      }
    }
  }

  /** The parser's state: comp_flag, comp_lst_z, comp_lst_tip, header_dict,
      comp_dict, the local variables akey (unbound until the first
      component line) and ii, and the exception that stopped it. */
  datatype AvgState = AvgState(flag: map<string, bool>, lstZ: seq<string>, lstTip: seq<string>,
                               header: map<string, string>, table: Table, akey: Option<string>, ii: nat,
                               failure: Option<Failure>)

  /** The state before the first line: all flags down, both lists empty,
      and every component with `rows` zero rows. */
  function Start(header: map<string, string>, rows: nat): (s: AvgState)
    ensures s.flag.Keys == s.table.Keys == set k | k in CompKeys
    ensures forall k :: k in s.table ==> |s.table[k]| == rows
  {
    AvgState(map k | k in CompKeys :: false, [], [], header, map k | k in CompKeys :: seq(rows, _ => ZeroRow),
             None, 0, None)
  }

  /** A `$...=...` line, as `find('=') > 0 and find('$') == 0` tests it. */
  predicate IsDirective(line: string)
  {
    |line| > 0 && line[0] == '$' && '=' in line
  }

  /** The two find calls describe exactly a line that starts with '$' and
      holds an '='. */
  lemma DirectiveTest(line: string)
    ensures (Find(line, "=") > 0 && Find(line, "$") == 0) <==> IsDirective(line)
  {
    FindCharMeansMember(line, '=');
    if |line| > 0 && line[0] == '$' {
      assert OccursAt(line, "$", 0);
    }
    if Find(line, "$") == 0 {
      assert line[0..1] == "$";
    }
  }

  /** [a.strip() for a in parts]. */
  function StripAll(parts: seq<string>): (r: seq<string>)
    ensures |r| == |parts| && forall k :: 0 <= k < |parts| ==> r[k] == Strip(parts[k])
  {
    seq(|parts|, k requires 0 <= k < |parts| => Strip(parts[k]))
  }

  /** The stripped '='-fields of a directive; there are at least two. */
  function DirectiveFields(line: string): (alst: seq<string>)
    requires '=' in line
    ensures |alst| >= 2
  {
    JoinSplit(Strip(line), '=');
    StripKeepsChar(line, '=');
    StripAll(Split(Strip(line), '='))
  }

  /** s[1:] in Python, which is empty for an empty s. */
  function DropFirst(s: string): string
  {
    if |s| == 0 then s else s[1..]
  }

  /** What a directive line does: a known component name (in any case)
      becomes the current component, raises its flag, joins comp_lst_z or
      comp_lst_tip by its first letter and restarts the row counter; any
      other name goes to the header without its '$'. */
  function Directive(s: AvgState, line: string): (r: AvgState)
    requires '=' in line
  {
    var alst := DirectiveFields(line);
    var akey := Lower(alst[1]);
    if akey in CompKeys then SelectComponent(s, akey)
    else s.(header := s.header[DropFirst(alst[0]) := alst[1]])
  }

  /** A component line for component akey. */
  function SelectComponent(s: AvgState, akey: string): AvgState
    requires akey in CompKeys
  {
    s.(flag := s.flag[akey := true],
       lstZ := if akey[0] == 'z' then s.lstZ + [akey] else s.lstZ,
       lstTip := if akey[0] == 'z' then s.lstTip else if akey[0] == 't' then s.lstTip + [akey] else s.lstTip,
       akey := Some(akey), ii := 0)
  }

  /** The stripped ','-fields of a data line. */
  function DataFields(line: string): seq<string>
  {
    StripAll(Split(Strip(line), ','))
  }

  /** What a data line does: with no component named yet it raises
      NameError (akey is unbound), past the last row IndexError; otherwise
      its stripped ','-fields fill row ii and ii moves on. */
  function DataLine(s: AvgState, line: string, conv: Conv): (r: AvgState)
  {
    if s.akey.None? then s.(failure := Some(NameError("akey")))
    else if s.akey.value !in s.table then s.(failure := Some(KeyError(s.akey.value)))
    else if s.ii >= |s.table[s.akey.value]| then s.(failure := Some(IndexError(line)))
    else
      var rows := s.table[s.akey.value];
      var w := RowUpTo(rows[s.ii], DataFields(line), conv, 12);
      s.(table := s.table[s.akey.value := rows[s.ii := w.row]],
         ii := if w.failure.None? then s.ii + 1 else s.ii,
         failure := w.failure)
  }

  /** One line of the loop; a stopped parse stays stopped. */
  function AvgLine(s: AvgState, line: string, conv: Conv): (r: AvgState)
  {
    if s.failure.Some? then s
    else if IsDirective(line) then Directive(s, line)
    else if |line| == 0 then s.(failure := Some(IndexError(line)))
    else if line[0] == 'S' then s
    else if |line| > 2 then DataLine(s, line, conv)
    else s
  }

  type AvgStep = (AvgState, string) -> AvgState

  /** The step read_avg_file takes for each line. */
  function AvgParser(conv: Conv): AvgStep
  {
    (s: AvgState, line: string) => AvgLine(s, line, conv)
  }

  /** The state after the first n lines. */
  function AvgUpTo(lines: seq<string>, n: nat, start: AvgState, one: AvgStep): AvgState
    requires n <= |lines|
  {
    if n == 0 then start
    else
      var s := AvgUpTo(lines, n - 1, start, one);
      if s.failure.Some? then s else one(s, lines[n - 1])
  }

  lemma {:induction false} AvgStopped(lines: seq<string>, i: nat, n: nat, start: AvgState, one: AvgStep)
    requires i <= n <= |lines|
    requires AvgUpTo(lines, i, start, one).failure.Some?
    ensures AvgUpTo(lines, n, start, one) == AvgUpTo(lines, i, start, one)
    decreases n - i
  {
    if i < n { AvgStopped(lines, i, n - 1, start, one); }
  }

  lemma AvgAfter(lines: seq<string>, i: nat, start: AvgState, one: AvgStep, s: AvgState)
    requires i < |lines| && AvgUpTo(lines, i, start, one) == s && s.failure.None?
    ensures AvgUpTo(lines, i + 1, start, one) == one(s, lines[i])
  {
  }

  lemma AvgExit(lines: seq<string>, i: nat, start: AvgState, one: AvgStep, s: AvgState)
    requires i <= |lines| && AvgUpTo(lines, i, start, one) == s
    requires i == |lines| || s.failure.Some?
    ensures AvgUpTo(lines, |lines|, start, one) == s
  {
    if i < |lines| { AvgStopped(lines, i, |lines|, start, one); }
  }

  /** The cell loop `for cc, ckey in enumerate(info_keys)` of a data line. */
  method FillRow(row: AvgRow, fields: seq<string>, conv: Conv) returns (w: RowWrite)
    ensures w == RowUpTo(row, fields, conv, 12)
  {
    w := RowWrite(row, None);
    var cc := 0;
    while cc < 12 && w.failure.None?
      invariant 0 <= cc <= 12
      invariant w == RowUpTo(row, fields, conv, cc)
    {
      if cc >= |fields| {
        w := RowWrite(w.row, Some(IndexError("alst")));
      } else {
        var v := conv(cc, fields[cc]);
        if v.Err? {
          w := RowWrite(w.row, Some(v.failure));
        } else {
          w := RowWrite(SetCell(w.row, cc, v.value), None);
        }
      }
      cc := cc + 1;
    }
    if w.failure.Some? {
      RowStopped(row, fields, conv, cc, 12);
    }
  }

  /** One pass of read_avg_file's loop body. */
  method ReadAvgLine(s: AvgState, line: string, conv: Conv) returns (r: AvgState)
    requires s.failure.None?
    ensures r == AvgParser(conv)(s, line)
  {
    if IsDirective(line) {
      r := Directive(s, line);
    } else if |line| == 0 {
      r := s.(failure := Some(IndexError(line)));
    } else if line[0] == 'S' {
      r := s;
    } else if |line| > 2 {
      if s.akey.None? {
        r := s.(failure := Some(NameError("akey")));
      } else if s.akey.value !in s.table {
        r := s.(failure := Some(KeyError(s.akey.value)));
      } else if s.ii >= |s.table[s.akey.value]| {
        r := s.(failure := Some(IndexError(line)));
      } else {
        var rows := s.table[s.akey.value];
        var w := FillRow(rows[s.ii], DataFields(line), conv);
        r := s.(table := s.table[s.akey.value := rows[s.ii := w.row]],
                ii := if w.failure.None? then s.ii + 1 else s.ii,
                failure := w.failure);
      }
    } else {
      r := s;
    }
  }

  /** read_avg_file's loop over the lines of the file. */
  method ParseAvg(lines: seq<string>, start: AvgState, conv: Conv) returns (r: AvgState)
    ensures r == AvgUpTo(lines, |lines|, start, AvgParser(conv))
  {
    r := start;
    var i := 0;
    while i < |lines| && r.failure.None?
      invariant 0 <= i <= |lines|
      invariant AvgUpTo(lines, i, start, AvgParser(conv)) == r
    {
      ghost var s := r;
      r := ReadAvgLine(r, lines[i], conv);
      AvgAfter(lines, i, start, AvgParser(conv), s);
      i := i + 1;
    }
    AvgExit(lines, i, start, AvgParser(conv), r);
  }

  /** The shape every state of the loop keeps, for a file of `rows` rows
      per component: the flags and the table cover exactly the known
      components, each with `rows` rows; comp_lst_z holds only z-components
      and comp_lst_tip only t-components; a flag is up exactly when its
      component is listed; the current component is a listed one and its
      row counter has not passed its last row. */
  ghost predicate WellFormed(s: AvgState, rows: nat)
  {
    && s.flag.Keys == (set k | k in CompKeys) && s.table.Keys == (set k | k in CompKeys)
    && (forall k :: k in s.table ==> |s.table[k]| == rows)
    && (forall k :: k in s.lstZ ==> k in CompKeys && k[0] == 'z')
    && (forall k :: k in s.lstTip ==> k in CompKeys && k[0] == 't')
    && (forall k :: k in s.flag ==> (s.flag[k] <==> k in s.lstZ || k in s.lstTip))
    && (s.akey.Some? ==> s.akey.value in CompKeys && s.ii <= rows)
  }

  lemma StartWellFormed(header: map<string, string>, rows: nat)
    ensures WellFormed(Start(header, rows), rows)
  {
  }

  /** Every known component starts with 'z' or 't'. */
  lemma CompKeysLetters(k: string)
    requires k in CompKeys
    ensures |k| == 3 && (k[0] == 'z' || k[0] == 't') && (k[0] == 'z' <==> k in CompKeys[..4])
  {
  }

  lemma SelectKeeps(s: AvgState, akey: string, rows: nat)
    requires akey in CompKeys && WellFormed(s, rows)
    ensures WellFormed(SelectComponent(s, akey), rows)
  {
    CompKeysLetters(akey);
  }

  lemma DirectiveKeeps(s: AvgState, line: string, rows: nat)
    requires '=' in line && WellFormed(s, rows)
    ensures WellFormed(Directive(s, line), rows)
    ensures Directive(s, line).failure == s.failure
  {
    var alst := DirectiveFields(line);
    var akey := Lower(alst[1]);
    if akey in CompKeys {
      SelectKeeps(s, akey, rows);
    }
  }

  lemma DataLineKeeps(s: AvgState, line: string, conv: Conv, rows: nat)
    requires WellFormed(s, rows)
    ensures DataLine(s, line, conv).failure.None? ==> WellFormed(DataLine(s, line, conv), rows)
  {
  }

  /** Each line keeps the shape. */
  lemma AvgLineKeeps(s: AvgState, line: string, conv: Conv, rows: nat)
    requires WellFormed(s, rows)
    ensures AvgLine(s, line, conv).failure.None? ==> WellFormed(AvgLine(s, line, conv), rows)
  {
    if s.failure.None? {
      if IsDirective(line) {
        DirectiveKeeps(s, line, rows);
      } else if |line| > 0 && line[0] != 'S' && |line| > 2 {
        DataLineKeeps(s, line, conv, rows);
      }
    }
  }

  /** A step that keeps the shape. */
  ghost predicate KeepsShape(one: AvgStep, rows: nat)
  {
    forall s: AvgState, line: string {:trigger one(s, line)} ::
      WellFormed(s, rows) && s.failure.None? && one(s, line).failure.None? ==> WellFormed(one(s, line), rows)
  }

  lemma ParserKeepsShape(conv: Conv, rows: nat)
    ensures KeepsShape(AvgParser(conv), rows)
  {
    forall s: AvgState, line: string | WellFormed(s, rows) && s.failure.None?
      ensures AvgParser(conv)(s, line).failure.None? ==> WellFormed(AvgParser(conv)(s, line), rows)
    {
      AvgLineKeeps(s, line, conv, rows);
    }
  }

  lemma {:induction false} AvgUpToKeeps(lines: seq<string>, n: nat, start: AvgState, one: AvgStep, rows: nat)
    requires n <= |lines| && WellFormed(start, rows) && KeepsShape(one, rows)
    ensures AvgUpTo(lines, n, start, one).failure.None? ==> WellFormed(AvgUpTo(lines, n, start, one), rows)
  {
    if n > 0 {
      AvgUpToKeeps(lines, n - 1, start, one, rows);
    }
  }

  /** read_avg_file's loop over all of a file's lines, started with every
      flag down, both lists empty, len(alines)/4 zero rows per component and
      the header read so far. */
  function ReadLines(lines: seq<string>, header: map<string, string>, conv: Conv): AvgState
  {
    AvgUpTo(lines, |lines|, Start(header, |lines| / 4), AvgParser(conv))
  }

  /** A successful read of a whole file leaves the parser in shape: the
      lists name known components by their letter, the flags are up exactly
      for the listed ones, and no component gained or lost a row. */
  lemma ParseKeepsShape(lines: seq<string>, header: map<string, string>, conv: Conv)
    ensures ReadLines(lines, header, conv).failure.None? ==> WellFormed(ReadLines(lines, header, conv), |lines| / 4)
  {
    StartWellFormed(header, |lines| / 4);
    ParserKeepsShape(conv, |lines| / 4);
    AvgUpToKeeps(lines, |lines|, Start(header, |lines| / 4), AvgParser(conv), |lines| / 4);
  }

  /** A data line that goes through fills row ii of the current component
      with its first twelve fields, moves ii on by one and changes no other
      row. */
  lemma DataLineFills(s: AvgState, line: string, conv: Conv)
    requires DataLine(s, line, conv).failure.None?
    ensures s.akey.Some? && s.akey.value in s.table && s.ii < |s.table[s.akey.value]|
    ensures DataLine(s, line, conv).ii == s.ii + 1 && DataLine(s, line, conv).akey == s.akey
    ensures 12 <= |DataFields(line)|
    ensures DataLine(s, line, conv).table.Keys == s.table.Keys
    ensures |DataLine(s, line, conv).table[s.akey.value]| == |s.table[s.akey.value]|
    ensures forall k :: 0 <= k < 12 ==>
              conv(k, DataFields(line)[k]).Ok? &&
              GetCell(DataLine(s, line, conv).table[s.akey.value][s.ii], k) == conv(k, DataFields(line)[k]).value
    ensures forall j :: 0 <= j < |s.table[s.akey.value]| && j != s.ii ==>
              DataLine(s, line, conv).table[s.akey.value][j] == s.table[s.akey.value][j]
    ensures forall c :: c in s.table && c != s.akey.value ==> DataLine(s, line, conv).table[c] == s.table[c]
  {
    RowUpToCells(s.table[s.akey.value][s.ii], DataFields(line), conv, 12);
  }

  /** Any line longer than two characters that is neither a directive nor
      starts with 'S' is a data line. */
  lemma DataLineChosen(s: AvgState, line: string, conv: Conv)
    requires s.failure.None? && !IsDirective(line) && |line| > 2 && line[0] != 'S'
    ensures AvgLine(s, line, conv) == DataLine(s, line, conv)
  {
  }

  /** Lines starting with 'S', and other lines of at most two characters
      that are not directives, change nothing; an empty line raises
      IndexError. */
  lemma SkippedLines(s: AvgState, line: string, conv: Conv)
    requires s.failure.None? && !IsDirective(line)
    ensures |line| == 0 ==> AvgLine(s, line, conv).failure == Some(IndexError(line))
    ensures |line| > 0 && (line[0] == 'S' || |line| <= 2) ==> AvgLine(s, line, conv) == s
  {
  }

  /** A directive whose value is not a component stores the value under the
      name without its '$' and leaves the current component and its row
      counter alone. */
  lemma HeaderLine(s: AvgState, line: string, conv: Conv)
    requires s.failure.None? && IsDirective(line)
    requires Lower(DirectiveFields(line)[1]) !in CompKeys
    ensures var r := AvgLine(s, line, conv);
            r == s.(header := s.header[DropFirst(DirectiveFields(line)[0]) := DirectiveFields(line)[1]])
  {
  }

  /** A directive whose value names a component (in any case) raises that
      component's flag, appends it to comp_lst_z when it starts with 'z' and
      to comp_lst_tip when it starts with 't', makes it the current
      component and restarts the row counter; the header and the table are
      untouched. */
  lemma ComponentLine(s: AvgState, line: string, conv: Conv)
    requires s.failure.None? && IsDirective(line)
    requires Lower(DirectiveFields(line)[1]) in CompKeys
    ensures var akey := Lower(DirectiveFields(line)[1]);
            var r := AvgLine(s, line, conv);
            && r.flag == s.flag[akey := true]
            && r.lstZ == (if akey[0] == 'z' then s.lstZ + [akey] else s.lstZ)
            && r.lstTip == (if akey[0] == 't' then s.lstTip + [akey] else s.lstTip)
            && r.akey == Some(akey) && r.ii == 0
            && r.header == s.header && r.table == s.table && r.failure.None?
  {
  }
}

/** The line parser of ZongeMTFT.read_cfg: `$key=value` lines fill the
    metadata dictionary, lines naming a cache file become one row each, with
    their comma fields paired with the time-series keys. */
module MtftConfig {
  import opened Failures
  import opened Text

  /** A row of the time-series table as read back: key to text. */
  type Row = map<string, string>

  /** dict(zip(keys, vals)) over the first n pairs; a repeated key keeps
      its last value. */
  function ZipDict(keys: seq<string>, vals: seq<string>, n: nat): Row
    requires n <= |keys| && n <= |vals|
  {
    if n == 0 then map[] else ZipDict(keys, vals, n - 1)[keys[n - 1] := vals[n - 1]]
  }

  /** zip stops at the shorter of the two lists. */
  function Zip(keys: seq<string>, vals: seq<string>): Row
  {
    ZipDict(keys, vals, if |keys| < |vals| then |keys| else |vals|)
  }

  /** The keys of the row are the first n keys. */
  lemma {:induction false} ZipDictKeys(keys: seq<string>, vals: seq<string>, n: nat)
    requires n <= |keys| && n <= |vals|
    ensures forall k :: k in ZipDict(keys, vals, n) <==> k in keys[..n]
  {
    if n > 0 {
      ZipDictKeys(keys, vals, n - 1);
      assert keys[..n] == keys[..n - 1] + [keys[n - 1]];
    }
  }

  /** With distinct keys, key i is paired with field i. */
  lemma {:induction false} ZipDictValue(keys: seq<string>, vals: seq<string>, n: nat, i: nat)
    requires n <= |keys| && n <= |vals| && i < n
    requires forall a, b :: 0 <= a < b < |keys| ==> keys[a] != keys[b]
    ensures keys[i] in ZipDict(keys, vals, n) && ZipDict(keys, vals, n)[keys[i]] == vals[i]
  {
    if i < n - 1 {
      ZipDictValue(keys, vals, n - 1, i);
    }
  }

  /** The parser's state: meta_dict, info_lst, and the exception that
      stopped it. */
  datatype Parse = Parse(meta: map<string, string>, rows: seq<Row>, failure: Option<Failure>)

  /** What one line does: an empty line fails on cline[0]; a '$' line
      without '=' fails on clst[1]; a '$' line stores its second '='-field
      under its first; a line where ".cac" occurs after the start adds a
      row; anything else is skipped. A stopped parse stays stopped. */
  function CfgLine(p: Parse, line: string, keys: seq<string>): (r: Parse)
    ensures r.failure.None? ==> r.meta.Keys >= p.meta.Keys
    ensures |p.rows| <= |r.rows| <= |p.rows| + 1
  {
    if p.failure.Some? then p
    else if |line| == 0 then p.(failure := Some(IndexError(line)))
    else if line[0] == '$' then
      var clst := Split(Strip(line[1..]), '=');
      if |clst| < 2 then p.(failure := Some(IndexError(line)))
      else p.(meta := p.meta[clst[0] := clst[1]])
    else if Find(line, ".cac") > 0 then
      p.(rows := p.rows + [Zip(keys, Split(Strip(line), ','))])
    else p
  }

  type LineStep = (Parse, string) -> Parse

  /** The step read_cfg takes for each line. */
  function LineParser(keys: seq<string>): LineStep
  {
    (p: Parse, line: string) => CfgLine(p, line, keys)
  }

  /** The parser after the first n lines; it stops at the first exception. */
  function CfgUpTo(lines: seq<string>, n: nat, one: LineStep): Parse
    requires n <= |lines|
  {
    if n == 0 then Parse(map[], [], None)
    else
      var p := CfgUpTo(lines, n - 1, one);
      if p.failure.Some? then p else one(p, lines[n - 1])
  }

  lemma {:induction false} CfgStopped(lines: seq<string>, i: nat, n: nat, one: LineStep)
    requires i <= n <= |lines|
    requires CfgUpTo(lines, i, one).failure.Some?
    ensures CfgUpTo(lines, n, one) == CfgUpTo(lines, i, one)
    decreases n - i
  {
    if i < n { CfgStopped(lines, i, n - 1, one); }
  }

  lemma CfgAfter(lines: seq<string>, i: nat, one: LineStep, p: Parse)
    requires i < |lines| && CfgUpTo(lines, i, one) == p && p.failure.None?
    ensures CfgUpTo(lines, i + 1, one) == one(p, lines[i])
  {
  }

  /** One pass of read_cfg's loop body. */
  method ReadLine(p: Parse, cline: string, keys: seq<string>) returns (r: Parse)
    requires p.failure.None?
    ensures r == LineParser(keys)(p, cline)
  {
    r := p;
    if |cline| == 0 {
      r := r.(failure := Some(IndexError(cline)));
    } else if cline[0] == '$' {
      var clst := Split(Strip(cline[1..]), '=');
      if |clst| < 2 {
        r := r.(failure := Some(IndexError(cline)));
      } else {
        r := r.(meta := r.meta[clst[0] := clst[1]]);
      }
    } else if Find(cline, ".cac") > 0 {
      r := r.(rows := r.rows + [Zip(keys, Split(Strip(cline), ','))]);
    }
  }

  lemma CfgExit(lines: seq<string>, i: nat, one: LineStep, r: Parse)
    requires i <= |lines| && CfgUpTo(lines, i, one) == r
    requires i == |lines| || r.failure.Some?
    ensures CfgUpTo(lines, |lines|, one) == r
  {
    if i < |lines| { CfgStopped(lines, i, |lines|, one); }
  }

  /** read_cfg's loop over the lines of the file: meta_dict, info_lst and
      the exception that ended it. */
  method ReadCfg(lines: seq<string>, keys: seq<string>) returns (r: Parse)
    ensures r == CfgUpTo(lines, |lines|, LineParser(keys))
  {
    r := Parse(map[], [], None);
    var i := 0;
    while i < |lines| && r.failure.None?
      invariant 0 <= i <= |lines|
      invariant CfgUpTo(lines, i, LineParser(keys)) == r
    {
      ghost var p := r;
      r := ReadLine(r, lines[i], keys);
      CfgAfter(lines, i, LineParser(keys), p);
      i := i + 1;
    }
    CfgExit(lines, i, LineParser(keys), r);
  }

  /** A step that adds at most one row per line leaves at most n rows
      after n lines. */
  lemma {:induction false} StepRowsBounded(lines: seq<string>, n: nat, one: LineStep)
    requires n <= |lines|
    requires forall p: Parse, line: string :: |one(p, line).rows| <= |p.rows| + 1
    ensures |CfgUpTo(lines, n, one).rows| <= n
  {
    if n > 0 {
      StepRowsBounded(lines, n - 1, one);
    }
  }

  /** read_cfg adds at most one row per line. */
  lemma CfgRowsBounded(lines: seq<string>, n: nat, keys: seq<string>)
    requires n <= |lines|
    ensures |CfgUpTo(lines, n, LineParser(keys)).rows| <= n
  {
    forall p: Parse, line: string
      ensures |LineParser(keys)(p, line).rows| <= |p.rows| + 1
    {
      assert LineParser(keys)(p, line) == CfgLine(p, line, keys);
    }
    StepRowsBounded(lines, n, LineParser(keys));
  }

  /** A line read_cfg gets through: not empty, and a '$' line holds an '='. */
  predicate LineOk(line: string)
  {
    |line| > 0 && (line[0] == '$' ==> '=' in line)
  }

  /** A line that becomes a row of the table. */
  predicate IsTableLine(line: string)
  {
    |line| > 0 && line[0] != '$' && Find(line, ".cac") > 0
  }

  /** The row a line adds: one for a table line, none otherwise. */
  function TableRow(line: string, keys: seq<string>): seq<Row>
  {
    if IsTableLine(line) then [Zip(keys, Split(Strip(line), ','))] else []
  }

  /** The rows of the table lines among `lines`, in order. */
  function TableRows(lines: seq<string>, keys: seq<string>): seq<Row>
  {
    if |lines| == 0 then []
    else TableRows(lines[..|lines| - 1], keys) + TableRow(lines[|lines| - 1], keys)
  }

  /** A step that fails exactly on the lines LineOk refuses and otherwise
      adds the line's TableRow. */
  ghost predicate StepSpec(one: LineStep, keys: seq<string>)
  {
    forall p: Parse, line: string {:trigger one(p, line)} :: p.failure.None? ==>
      (one(p, line).failure.None? <==> LineOk(line)) && one(p, line).rows == p.rows + TableRow(line, keys)
  }

  /** One line, seen through LineOk and TableRow. */
  lemma CfgLineCases(p: Parse, line: string, keys: seq<string>)
    requires p.failure.None?
    ensures CfgLine(p, line, keys).failure.None? <==> LineOk(line)
    ensures CfgLine(p, line, keys).rows == p.rows + TableRow(line, keys)
  {
    if |line| > 0 && line[0] == '$' {
      DirectiveCases(p, line, keys);
    }
  }

  /** A '$' line fails exactly when it holds no '=' and adds no row. */
  lemma DirectiveCases(p: Parse, line: string, keys: seq<string>)
    requires p.failure.None? && |line| > 0 && line[0] == '$'
    ensures CfgLine(p, line, keys).failure.None? <==> '=' in line
    ensures CfgLine(p, line, keys).rows == p.rows
  {
    EqualsInDirective(line);
  }

  /** A '$' line splits into at least two '='-fields exactly when it holds
      an '='. */
  lemma EqualsInDirective(line: string)
    requires |line| > 0 && line[0] == '$'
    ensures |Split(Strip(line[1..]), '=')| >= 2 <==> '=' in line
  {
    var body := Strip(line[1..]);
    SplitOnce(body, '=');
    StripKeepsChar(line[1..], '=');
    assert '=' in line <==> '=' in line[1..] by {
      assert line == [line[0]] + line[1..];
    }
  }

  /** read_cfg's own step meets StepSpec. */
  lemma LineParserSpec(keys: seq<string>)
    ensures StepSpec(LineParser(keys), keys)
  {
    forall p: Parse, line: string | p.failure.None?
      ensures (LineParser(keys)(p, line).failure.None? <==> LineOk(line))
              && LineParser(keys)(p, line).rows == p.rows + TableRow(line, keys)
    {
      CfgLineCases(p, line, keys);
    }
  }

  lemma {:induction false} StepOutcome(lines: seq<string>, n: nat, one: LineStep, keys: seq<string>)
    requires n <= |lines| && StepSpec(one, keys)
    ensures CfgUpTo(lines, n, one).failure.None? <==> forall j :: 0 <= j < n ==> LineOk(lines[j])
    ensures CfgUpTo(lines, n, one).failure.None? ==> CfgUpTo(lines, n, one).rows == TableRows(lines[..n], keys)
  {
    if n > 0 {
      StepOutcome(lines, n - 1, one, keys);
      var p := CfgUpTo(lines, n - 1, one);
      assert lines[..n][..n - 1] == lines[..n - 1];
      assert lines[..n][n - 1] == lines[n - 1];
      if p.failure.None? {
        var q := one(p, lines[n - 1]);
        assert CfgUpTo(lines, n, one) == q;
        assert q.failure.None? <==> LineOk(lines[n - 1]);
        assert q.rows == p.rows + TableRow(lines[n - 1], keys);
      } else {
        assert CfgUpTo(lines, n, one) == p;
      }
    }
  }

  /** read_cfg fails exactly when some line is empty or is a '$' line
      without '='; when it succeeds the rows are those of the table lines,
      in file order. */
  lemma CfgOutcome(lines: seq<string>, keys: seq<string>)
    ensures CfgUpTo(lines, |lines|, LineParser(keys)).failure.None? <==> forall j :: 0 <= j < |lines| ==> LineOk(lines[j])
    ensures CfgUpTo(lines, |lines|, LineParser(keys)).failure.None? ==>
              CfgUpTo(lines, |lines|, LineParser(keys)).rows == TableRows(lines, keys)
  {
    LineParserSpec(keys);
    StepOutcome(lines, |lines|, LineParser(keys), keys);
    assert lines[..|lines|] == lines;
  }

  /** A `$key=value` line stores the value under the key, whatever white
      space surrounds the text after the '$' (such as the line end
      readlines keeps); any further '='-fields are dropped. */
  lemma MetaLine(p: Parse, t: string, key: string, value: string, rest: seq<string>, keys: seq<string>)
    requires p.failure.None?
    requires '=' !in key && '=' !in value && forall k :: 0 <= k < |rest| ==> '=' !in rest[k]
    requires Strip(t) == Join([key, value] + rest, '=')
    ensures CfgLine(p, "$" + t, keys) == p.(meta := p.meta[key := value])
  {
    var line := "$" + t;
    assert |line| > 0 && line[0] == '$' && line[1..] == t;
    SplitJoinFields(key, value, rest, '=');
  }

  /** A table line becomes the row pairing each key with its field, whatever
      white space surrounds it. */
  lemma RowLine(p: Parse, line: string, fields: seq<string>, keys: seq<string>)
    requires p.failure.None?
    requires |line| > 0 && line[0] != '$' && Find(line, ".cac") > 0
    requires |fields| >= 1 && forall k :: 0 <= k < |fields| ==> ',' !in fields[k]
    requires Strip(line) == Join(fields, ',')
    ensures CfgLine(p, line, keys) == p.(rows := p.rows + [Zip(keys, fields)])
  {
    SplitJoin(fields, ',');
  }

  /** A line that sets an entry of meta_dict. */
  predicate IsMetaLine(line: string)
  {
    |line| > 0 && line[0] == '$' && '=' in line
  }

  /** The key a `$` line sets: its first '='-field. */
  function MetaKey(line: string): string
  {
    if IsMetaLine(line) then EqualsInDirective(line); Split(Strip(line[1..]), '=')[0] else ""
  }

  /** The value a `$` line stores: its second '='-field. */
  function MetaValue(line: string): string
  {
    if IsMetaLine(line) then EqualsInDirective(line); Split(Strip(line[1..]), '=')[1] else ""
  }

  /** m holds exactly the keys of the lines among the first n that isMeta
      picks, each with the value of the last such line that names it. */
  ghost predicate MetaOf(lines: seq<string>, n: nat, m: map<string, string>, isMeta: string -> bool,
                         key: string -> string, val: string -> string)
    requires n <= |lines|
  {
    && (forall k :: k in m <==> exists j :: 0 <= j < n && isMeta(lines[j]) && key(lines[j]) == k)
    && (forall j :: 0 <= j < n && isMeta(lines[j]) &&
                    (forall j2 :: j < j2 < n && isMeta(lines[j2]) ==> key(lines[j2]) != key(lines[j]))
                    ==> key(lines[j]) in m && m[key(lines[j])] == val(lines[j]))
  }

  /** The dictionary update of line n-1 takes MetaOf from n-1 lines to n. */
  lemma MetaOfStep(lines: seq<string>, n: nat, m: map<string, string>, isMeta: string -> bool,
                   key: string -> string, val: string -> string)
    requires 0 < n <= |lines| && MetaOf(lines, n - 1, m, isMeta, key, val)
    ensures MetaOf(lines, n, if isMeta(lines[n - 1]) then m[key(lines[n - 1]) := val(lines[n - 1])] else m,
                   isMeta, key, val)
  {
  }

  /** A line read_cfg gets through changes meta_dict only when it is a `$`
      line. */
  lemma CfgLineMeta(p: Parse, line: string, keys: seq<string>)
    requires p.failure.None? && LineOk(line)
    ensures CfgLine(p, line, keys).meta ==
              if IsMetaLine(line) then p.meta[MetaKey(line) := MetaValue(line)] else p.meta
  {
    if line[0] == '$' {
      EqualsInDirective(line);
      var clst := Split(Strip(line[1..]), '=');
      assert IsMetaLine(line) && |clst| >= 2;
      assert MetaKey(line) == clst[0] && MetaValue(line) == clst[1];
    } else {
      assert !IsMetaLine(line);
    }
  }

  /** A step that, on every line it gets through, updates the dictionary
      exactly at the lines isMeta picks. */
  ghost predicate MetaStepSpec(one: LineStep, isMeta: string -> bool, key: string -> string, val: string -> string)
  {
    forall p: Parse, line: string {:trigger one(p, line)} :: p.failure.None? && one(p, line).failure.None? ==>
      one(p, line).meta == if isMeta(line) then p.meta[key(line) := val(line)] else p.meta
  }

  lemma {:induction false} StepMeta(lines: seq<string>, n: nat, one: LineStep, isMeta: string -> bool,
                                    key: string -> string, val: string -> string)
    requires n <= |lines| && MetaStepSpec(one, isMeta, key, val) && CfgUpTo(lines, n, one).failure.None?
    ensures MetaOf(lines, n, CfgUpTo(lines, n, one).meta, isMeta, key, val)
  {
    if n > 0 {
      var p := CfgUpTo(lines, n - 1, one);
      assert p.failure.None?;
      StepMeta(lines, n - 1, one, isMeta, key, val);
      assert CfgUpTo(lines, n, one) == one(p, lines[n - 1]);
      MetaOfStep(lines, n, p.meta, isMeta, key, val);
    }
  }

  /** read_cfg's own step meets MetaStepSpec for the `$` lines. */
  lemma LineParserMeta(keys: seq<string>)
    ensures MetaStepSpec(LineParser(keys), IsMetaLine, MetaKey, MetaValue)
  {
    forall p: Parse, line: string | p.failure.None? && LineParser(keys)(p, line).failure.None?
      ensures LineParser(keys)(p, line).meta ==
                if IsMetaLine(line) then p.meta[MetaKey(line) := MetaValue(line)] else p.meta
    {
      CfgLineCases(p, line, keys);
      CfgLineMeta(p, line, keys);
    }
  }

  /** When read_cfg gets through the file, meta_dict holds exactly the keys
      of its `$` lines, each with the value of the last `$` line that names
      it. */
  lemma CfgMeta(lines: seq<string>, keys: seq<string>)
    ensures var r := CfgUpTo(lines, |lines|, LineParser(keys));
            r.failure.None? ==>
              && (forall k :: k in r.meta <==> exists j :: 0 <= j < |lines| && IsMetaLine(lines[j]) && MetaKey(lines[j]) == k)
              && (forall j :: 0 <= j < |lines| && IsMetaLine(lines[j]) &&
                              (forall j2 :: j < j2 < |lines| && IsMetaLine(lines[j2]) ==> MetaKey(lines[j2]) != MetaKey(lines[j]))
                              ==> r.meta[MetaKey(lines[j])] == MetaValue(lines[j]))
  {
    if CfgUpTo(lines, |lines|, LineParser(keys)).failure.None? {
      LineParserMeta(keys);
      StepMeta(lines, |lines|, LineParser(keys), IsMetaLine, MetaKey, MetaValue);
    }
  }
}

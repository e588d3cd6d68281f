/** The handful of Python string operations the module relies on, on ASCII
    text: str.find, str.split with a one-character separator, str.strip,
    str.lower, str.capitalize, int() of a decimal token, str() of a natural
    number and the root part of os.path.splitext. */
module Text {
  import opened Failures

  /** pat occurs in s starting at index i. */
  predicate OccursAt(s: string, pat: string, i: nat)
  {
    i + |pat| <= |s| && s[i..i + |pat|] == pat
  }

  /** str.find: the first index at which pat occurs in s, or -1. */
  function Find(s: string, pat: string): (r: int)
    ensures r == -1 || 0 <= r <= |s| - |pat|
    ensures r == -1 <==> forall i: nat :: !OccursAt(s, pat, i)
    ensures r >= 0 ==> OccursAt(s, pat, r) && forall i: nat :: i < r ==> !OccursAt(s, pat, i)
  {
    FindFrom(s, pat, 0)
  }

  /** The first occurrence of pat in s at index `from` or later, or -1. */
  function FindFrom(s: string, pat: string, from: nat): (r: int)
    ensures r == -1 || from <= r <= |s| - |pat|
    ensures r == -1 <==> forall i: nat :: from <= i ==> !OccursAt(s, pat, i)
    ensures r >= 0 ==> OccursAt(s, pat, r) && forall i: nat :: from <= i < r ==> !OccursAt(s, pat, i)
    decreases |s| - from
  {
    if from + |pat| > |s| then -1
    else if s[from..from + |pat|] == pat then assert OccursAt(s, pat, from); from
    else FindFrom(s, pat, from + 1)
  }

  /** Python's `c in s` for one character, as Find does it. */
  lemma FindCharMeansMember(s: string, c: char)
    ensures Find(s, [c]) >= 0 <==> c in s
  {
    if c in s {
      var i :| 0 <= i < |s| && s[i] == c;
      assert OccursAt(s, [c], i);
    } else {
      forall i: nat ensures !OccursAt(s, [c], i) {
        if i + 1 <= |s| { assert s[i..i + 1][0] == s[i]; }
      }
    }
  }

  /** The index of the first c in s; s must contain c. */
  function IndexOf(s: string, c: char): (i: nat)
    requires c in s
    ensures i < |s| && s[i] == c && c !in s[..i]
  {
    if s[0] == c then 0 else IndexOf(s[1..], c) + 1
  }

  /** The parts joined back together, with c between neighbours. */
  function Join(parts: seq<string>, c: char): string
  {
    if |parts| == 0 then ""
    else if |parts| == 1 then parts[0]
    else parts[0] + [c] + Join(parts[1..], c)
  }

  /** str.split(c): the pieces between the occurrences of c, always at least one. */
  function Split(s: string, c: char): (parts: seq<string>)
    ensures |parts| >= 1
    ensures forall k :: 0 <= k < |parts| ==> c !in parts[k]
    decreases |s|
  {
    if c !in s then [s]
    else [s[..IndexOf(s, c)]] + Split(s[IndexOf(s, c) + 1..], c)
  }

  /** Joining the pieces gives the text back; there is one piece exactly
      when the separator does not occur. */
  lemma {:induction false} JoinSplit(s: string, c: char)
    ensures Join(Split(s, c), c) == s
    ensures |Split(s, c)| == 1 <==> c !in s
    decreases |s|
  {
    if c in s {
      var i := IndexOf(s, c);
      var rest := Split(s[i + 1..], c);
      JoinSplit(s[i + 1..], c);
      var parts := [s[..i]] + rest;
      assert Split(s, c) == parts && parts[1..] == rest;
      assert Join(parts, c) == s[..i] + [c] + Join(rest, c);
      assert s == s[..i] + [c] + s[i + 1..];
    }
  }

  /** There are several pieces exactly when the separator occurs. */
  lemma SplitOnce(s: string, c: char)
    ensures |Split(s, c)| >= 2 <==> c in s
  {
  }

  lemma {:induction false} IndexOfAfter(a: string, c: char, b: string)
    requires c !in a
    ensures c in a + [c] + b && IndexOf(a + [c] + b, c) == |a|
  {
    assert (a + [c] + b)[|a|] == c;
    if a != [] {
      assert (a + [c] + b)[1..] == a[1..] + [c] + b;
      IndexOfAfter(a[1..], c, b);
    }
  }

  /** Splitting at a first separator gives the piece before it, then the
      pieces of the rest. */
  lemma SplitCons(a: string, c: char, b: string)
    requires c !in a
    ensures Split(a + [c] + b, c) == [a] + Split(b, c)
  {
    var s := a + [c] + b;
    IndexOfAfter(a, c, b);
    assert s[..|a|] == a;
    assert s[|a| + 1..] == b;
  }

  /** Splitting undoes joining, for parts that do not contain the separator. */
  lemma {:induction false} SplitJoin(parts: seq<string>, c: char)
    requires |parts| >= 1
    requires forall k :: 0 <= k < |parts| ==> c !in parts[k]
    ensures Split(Join(parts, c), c) == parts
    decreases |parts|
  {
    if |parts| == 1 {
      assert Join(parts, c) == parts[0];
      assert parts == [parts[0]];
    } else {
      var tail := parts[1..];
      assert forall k :: 0 <= k < |tail| ==> c !in tail[k] by {
        forall k | 0 <= k < |tail| ensures c !in tail[k] {
          assert tail[k] == parts[k + 1];
        }
      }
      SplitJoin(tail, c);
      SplitCons(parts[0], c, Join(tail, c));
      calc {
        Split(Join(parts, c), c);
        Split(parts[0] + [c] + Join(tail, c), c);
        [parts[0]] + Split(Join(tail, c), c);
        [parts[0]] + tail;
        parts;
      }
    }
  }

  /** The same for a first and second piece followed by the rest. */
  lemma SplitJoinFields(first: string, second: string, rest: seq<string>, c: char)
    requires c !in first && c !in second && forall k :: 0 <= k < |rest| ==> c !in rest[k]
    ensures Split(Join([first, second] + rest, c), c) == [first, second] + rest
  {
    var parts := [first, second] + rest;
    forall k | 0 <= k < |parts| ensures c !in parts[k] {
      if k == 0 {
        assert parts[k] == first;
      } else if k == 1 {
        assert parts[k] == second;
      } else {
        assert parts[k] == rest[k - 2];
      }
    }
    SplitJoin(parts, c);
  }

  predicate IsSpace(ch: char)
  {
    ch == ' ' || '\t' <= ch <= '\r'
  }

  function StripLeft(s: string): (r: string)
    ensures |r| <= |s| && r == s[|s| - |r|..]
    ensures r == [] || !IsSpace(r[0])
    ensures forall i :: 0 <= i < |s| - |r| ==> IsSpace(s[i])
  {
    if |s| > 0 && IsSpace(s[0]) then StripLeft(s[1..]) else s
  }

  function StripRight(s: string): (r: string)
    ensures |r| <= |s| && r == s[..|r|]
    ensures r == [] || !IsSpace(r[|r| - 1])
    ensures forall i :: |r| <= i < |s| ==> IsSpace(s[i])
  {
    if |s| > 0 && IsSpace(s[|s| - 1]) then StripRight(s[..|s| - 1]) else s
  }

  /** str.strip(): the text without leading and trailing white space. */
  function Strip(s: string): (r: string)
    ensures r == [] || (!IsSpace(r[0]) && !IsSpace(r[|r| - 1]))
    ensures (forall i :: 0 <= i < |s| ==> !IsSpace(s[i])) ==> r == s
  {
    StripRight(StripLeft(s))
  }

  /** s[i:j] runs from the first character of s that is not white space to
      just past the last one: only white space lies outside it, and it
      starts and ends with a character that is not white space unless it
      is empty. */
  predicate InnerWindow(s: string, i: nat, j: nat)
  {
    && i <= j <= |s|
    && (forall k :: 0 <= k < i ==> IsSpace(s[k]))
    && (forall k :: j <= k < |s| ==> IsSpace(s[k]))
    && (i < j ==> !IsSpace(s[i]) && !IsSpace(s[j - 1]))
  }

  /** str.strip() is the slice s[i:j] over the inner window of s; an
      all-white text strips to the empty string. */
  lemma StripSlice(s: string)
    ensures exists i: nat, j: nat :: InnerWindow(s, i, j) && Strip(s) == s[i..j]
  {
    var l := StripLeft(s);
    var r := StripRight(l);
    WindowOfStrips(s, l, r);
    assert InnerWindow(s, |s| - |l|, |s| - |l| + |r|);
  }

  /** The window left by cutting white space off the front (l) and then
      off the back (r). */
  lemma WindowOfStrips(s: string, l: string, r: string)
    requires |l| <= |s| && l == s[|s| - |l|..] && (l == [] || !IsSpace(l[0]))
    requires forall k :: 0 <= k < |s| - |l| ==> IsSpace(s[k])
    requires |r| <= |l| && r == l[..|r|] && (r == [] || !IsSpace(r[|r| - 1]))
    requires forall k :: |r| <= k < |l| ==> IsSpace(l[k])
    ensures InnerWindow(s, |s| - |l|, |s| - |l| + |r|) && r == s[|s| - |l|..|s| - |l| + |r|]
  {
    var i := |s| - |l|;
    var j := i + |r|;
    assert r == s[i..j] by {
      assert s[i..][..|r|] == s[i..j];
    }
    forall k | j <= k < |s| ensures IsSpace(s[k]) {
      assert s[k] == l[k - i];
    }
    if i < j {
      assert s[i] == r[0] && s[j - 1] == r[|r| - 1];
    }
  }

  /** Stripping white space keeps every other character in place. */
  lemma StripKeepsChar(s: string, c: char)
    requires !IsSpace(c)
    ensures c in Strip(s) <==> c in s
  {
    var l := StripLeft(s);
    var r := StripRight(l);
    if c in s {
      var i :| 0 <= i < |s| && s[i] == c;
      assert l[i - (|s| - |l|)] == c;
      assert r[i - (|s| - |l|)] == c;
    }
  }

  function LowerChar(ch: char): char
  {
    if 'A' <= ch <= 'Z' then (ch as int - 'A' as int + 'a' as int) as char else ch
  }

  function UpperChar(ch: char): char
  {
    if 'a' <= ch <= 'z' then (ch as int - 'a' as int + 'A' as int) as char else ch
  }

  /** str.lower() on ASCII letters. */
  function Lower(s: string): (r: string)
    ensures |r| == |s| && forall i :: 0 <= i < |s| ==> r[i] == LowerChar(s[i])
  {
    seq(|s|, i requires 0 <= i < |s| => LowerChar(s[i]))
  }

  /** str.capitalize() on ASCII letters: first letter upper case, the rest lower case. */
  function Capitalize(s: string): (r: string)
    ensures |r| == |s|
    ensures |s| > 0 ==> r[0] == UpperChar(s[0]) && r[1..] == Lower(s[1..])
  {
    if s == [] then [] else [UpperChar(s[0])] + Lower(s[1..])
  }

  predicate IsDigit(ch: char) { '0' <= ch <= '9' }

  predicate AllDigits(s: string)
  {
    forall i :: 0 <= i < |s| ==> IsDigit(s[i])
  }

  /** The value of a string of decimal digits. */
  function DigitsValue(s: string): (n: nat)
    requires AllDigits(s)
  {
    if s == [] then 0
    else DigitsValue(s[..|s| - 1]) * 10 + (s[|s| - 1] as int - '0' as int)
  }

  /** int(s) for base 10: optional white space around an optional sign and at
      least one digit; anything else raises ValueError. */
  function ParseInt(s: string): (r: Result<int>)
  {
    var t := Strip(s);
    if |t| > 0 && (t[0] == '-' || t[0] == '+') then
      if |t| > 1 && AllDigits(t[1..]) then
        Ok(if t[0] == '-' then -(DigitsValue(t[1..]) as int) else DigitsValue(t[1..]))
      else Err(ValueError(s))
    else if |t| > 0 && AllDigits(t) then Ok(DigitsValue(t))
    else Err(ValueError(s))
  }

  /** int() succeeds exactly on an optionally signed, non-empty run of
      digits with white space around it, and then gives the digits' value. */
  lemma ParseIntAccepts(s: string)
    ensures ParseInt(s).Ok? <==>
      var t := Strip(s);
      |t| > 0 &&
      if t[0] == '-' || t[0] == '+' then |t| > 1 && AllDigits(t[1..]) else AllDigits(t)
    ensures var t := Strip(s);
            |t| > 0 && AllDigits(t) ==> ParseInt(s) == Ok(DigitsValue(t))
    ensures var t := Strip(s);
            |t| > 1 && t[0] == '-' && AllDigits(t[1..]) ==> ParseInt(s) == Ok(-(DigitsValue(t[1..]) as int))
  {
    var t := Strip(s);
    if |t| > 0 && AllDigits(t) { assert IsDigit(t[0]); }
  }

  function DigitChar(d: nat): char
    requires d < 10
  {
    ('0' as int + d) as char
  }

  /** str(n) for a natural number. */
  function NatToString(n: nat): (s: string)
    ensures |s| > 0 && AllDigits(s)
  {
    if n < 10 then [DigitChar(n)] else NatToString(n / 10) + [DigitChar(n % 10)]
  }

  lemma {:induction false} DigitsValueOfNatToString(n: nat)
    ensures DigitsValue(NatToString(n)) == n
  {
    if n >= 10 {
      var s := NatToString(n);
      assert s[..|s| - 1] == NatToString(n / 10);
      DigitsValueOfNatToString(n / 10);
    }
  }

  /** int(str(n)) == n. */
  lemma ParseNatToString(n: nat)
    ensures ParseInt(NatToString(n)) == Ok(n)
  {
    var s := NatToString(n);
    assert Strip(s) == s by {
      assert forall i :: 0 <= i < |s| ==> !IsSpace(s[i]) by {
        forall i | 0 <= i < |s| ensures !IsSpace(s[i]) { assert IsDigit(s[i]); }
      }
    }
    assert IsDigit(s[0]);
    DigitsValueOfNatToString(n);
  }

  /** The names differ when the numbers do: str is injective on naturals. */
  lemma NatToStringInjective(m: nat, n: nat)
    requires NatToString(m) == NatToString(n)
    ensures m == n
  {
    DigitsValueOfNatToString(m);
    DigitsValueOfNatToString(n);
  }

  /** The index of the last '.' of s, or -1. */
  function LastDot(s: string): (r: int)
    ensures -1 <= r < |s|
    ensures r >= 0 ==> s[r] == '.' && '.' !in s[r + 1..]
    ensures r == -1 ==> '.' !in s
  {
    if s == [] then -1
    else if s[|s| - 1] == '.' then |s| - 1
    else
      var k := LastDot(s[..|s| - 1]);
      assert k >= 0 ==> s[k + 1..] == s[..|s| - 1][k + 1..] + [s[|s| - 1]];
      k
  }

  /** The root returned by os.path.splitext for a base name: everything
      before the last '.', unless only dots precede it (a hidden file's
      leading dots do not start an extension). */
  function StripExt(name: string): (root: string)
    ensures root == name || (|root| < |name| && name[..|root|] == root && name[|root|] == '.')
  {
    var dot := LastDot(name);
    if dot > 0 && !OnlyDots(name[..dot]) then name[..dot] else name
  }

  /** Where splitext cuts: a cut root is the part of the name before its
      last '.' and holds something other than dots; the name is kept whole
      exactly when no '.' follows a character that is not a dot (there is
      no dot, or only the leading dots of a hidden name). */
  lemma StripExtCut(name: string)
    ensures var root := StripExt(name);
            root != name ==> && |root| < |name| && name[..|root|] == root && name[|root|] == '.'
                             && '.' !in name[|root| + 1..] && !OnlyDots(root)
    ensures StripExt(name) == name <==> forall k :: 0 <= k < |name| && name[k] != '.' ==> '.' !in name[k + 1..]
  {
    var dot := LastDot(name);
    if dot > 0 && !OnlyDots(name[..dot]) {
      DotAfterName(name, dot);
    } else {
      NoDotAfterName(name, dot);
    }
  }

  /** When something other than a dot precedes the last dot, a dot follows
      a character that is not one. */
  lemma DotAfterName(name: string, dot: int)
    requires dot == LastDot(name) && dot > 0 && !OnlyDots(name[..dot])
    ensures exists k :: 0 <= k < |name| && name[k] != '.' && '.' in name[k + 1..]
  {
    OnlyDotsMeans(name[..dot]);
    var k :| 0 <= k < dot && name[..dot][k] != '.';
    assert name[dot] in name[k + 1..];
  }

  /** When only dots precede the last dot, no dot follows a character that
      is not one. */
  lemma NoDotAfterName(name: string, dot: int)
    requires dot == LastDot(name) && (dot <= 0 || OnlyDots(name[..dot]))
    ensures forall k :: 0 <= k < |name| && name[k] != '.' ==> '.' !in name[k + 1..]
  {
    if dot >= 0 {
      OnlyDotsMeans(name[..dot]);
      assert forall i :: 0 <= i < dot ==> name[i] == '.' by {
        forall i | 0 <= i < dot ensures name[i] == '.' {
          assert name[i] == name[..dot][i];
        }
      }
      DotRunThenNone(name, dot);
    }
  }

  /** Dots up to and including position dot, and none after it: no dot
      follows a character that is not one. */
  lemma DotRunThenNone(name: string, dot: nat)
    requires dot < |name| && name[dot] == '.' && '.' !in name[dot + 1..]
    requires forall i :: 0 <= i < dot ==> name[i] == '.'
    ensures forall k :: 0 <= k < |name| && name[k] != '.' ==> '.' !in name[k + 1..]
  {
    forall k | 0 <= k < |name| && name[k] != '.' ensures '.' !in name[k + 1..] {
      assert k > dot;
      assert name[k + 1..] == name[dot + 1..][k - dot..];
    }
  }

  /** OnlyDots says that every character is a '.'. */
  lemma OnlyDotsMeans(s: string)
    ensures OnlyDots(s) <==> forall k :: 0 <= k < |s| ==> s[k] == '.'
  {
  }

  /** os.path.basename: the part of a path after its last '/', or the
      whole path when it has none. */
  function Basename(path: string): (b: string)
    ensures '/' !in b && |b| <= |path| && path[|path| - |b|..] == b
    ensures |b| < |path| ==> path[|path| - |b| - 1] == '/'
  {
    if path == [] || path[|path| - 1] == '/' then []
    else
      var front := path[..|path| - 1];
      var b := Basename(front);
      assert path[|path| - |b| - 1..] == front[|front| - |b|..] + [path[|path| - 1]];
      b + [path[|path| - 1]]
  }

  /** Every character of s is a '.'. */
  predicate OnlyDots(s: string)
  {
    s == [] || (s[0] == '.' && OnlyDots(s[1..]))
  }

  /** s[i:j] for indices that Python clamps to the string. */
  function Slice(s: string, i: nat, j: nat): (r: string)
    ensures |r| <= |s|
  {
    var hi := if j < |s| then j else |s|;
    var lo := if i < hi then i else hi;
    s[lo..hi]
  }
}

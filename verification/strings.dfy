/**
  Text helpers shared by the portal model: Python's `str.strip()`, `lower()`
  and `upper()` (ASCII letters only), Snowflake's `TRIM`, substring search
  (`in` / `startswith`), `", ".join(...)` and splitting on one character.
 */
module Strings {

  /** The characters Python's `str.isspace()` accepts, so `str.strip()` removes them. */
  const PyWhitespace: set<char> := {
    ' ', '\t', '\n', '\r', '\U{B}', '\U{C}', '\U{1C}', '\U{1D}', '\U{1E}', '\U{1F}',
    '\U{85}', '\U{A0}', '\U{1680}', '\U{2000}', '\U{2001}', '\U{2002}', '\U{2003}',
    '\U{2004}', '\U{2005}', '\U{2006}', '\U{2007}', '\U{2008}', '\U{2009}', '\U{200A}',
    '\U{2028}', '\U{2029}', '\U{202F}', '\U{205F}', '\U{3000}'
  }

  /** Snowflake's one-argument `TRIM` removes blanks only. */
  const SqlBlank: set<char> := {' '}

  ghost predicate AllIn(s: string, cs: set<char>) {
    forall k :: 0 <= k < |s| ==> s[k] in cs
  }

  /** Removes the longest prefix of characters from `cs`. */
  function TrimLeft(s: string, cs: set<char>): (r: string)
    ensures |r| <= |s| && r == s[|s| - |r|..]
    ensures r == [] || r[0] !in cs
  {
    if |s| > 0 && s[0] in cs then TrimLeft(s[1..], cs) else s
  }

  /** Removes the longest suffix of characters from `cs`. */
  function TrimRight(s: string, cs: set<char>): (r: string)
    ensures |r| <= |s| && r == s[..|r|]
    ensures r == [] || r[|r| - 1] !in cs
  {
    if |s| > 0 && s[|s| - 1] in cs then TrimRight(s[..|s| - 1], cs) else s
  }

  function Trim(s: string, cs: set<char>): string {
    TrimRight(TrimLeft(s, cs), cs)
  }

  /** Python `str.strip()` with no argument. */
  function Strip(s: string): string {
    Trim(s, PyWhitespace)
  }

  /** Snowflake `TRIM(s)`. */
  function SqlTrim(s: string): string {
    Trim(s, SqlBlank)
  }

  /** Trimming on the left stops at the first character outside `cs`. */
  lemma {:induction false} TrimLeftStopsAt(s: string, n: nat, cs: set<char>)
    requires n <= |s| && AllIn(s[..n], cs)
    requires n == |s| || s[n] !in cs
    ensures TrimLeft(s, cs) == s[n..]
  {
    if n > 0 {
      assert s[..n][0] == s[0];
      assert s[1..][..n - 1] == s[1..n];
      TrimLeftStopsAt(s[1..], n - 1, cs);
      assert s[1..][n - 1..] == s[n..];
    }
  }

  /** Trimming on the right stops at the last character outside `cs`. */
  lemma {:induction false} TrimRightStopsAt(s: string, n: nat, cs: set<char>)
    requires n <= |s| && AllIn(s[n..], cs)
    requires n == 0 || s[n - 1] !in cs
    ensures TrimRight(s, cs) == s[..n]
    decreases |s| - n
  {
    if n < |s| {
      var s' := s[..|s| - 1];
      assert s[n..][|s| - 1 - n] == s[|s| - 1];
      assert s'[n..] == s[n..|s| - 1];
      TrimRightStopsAt(s', n, cs);
      assert s'[..n] == s[..n];
    }
  }

  lemma {:induction false} TrimLeftPadding(p: string, t: string, cs: set<char>)
    requires AllIn(p, cs) && (t == [] || t[0] !in cs)
    ensures TrimLeft(p + t, cs) == t
  {
    var s := p + t;
    assert s[..|p|] == p;
    assert s[|p|..] == t;
    TrimLeftStopsAt(s, |p|, cs);
  }

  lemma {:induction false} TrimRightPadding(t: string, q: string, cs: set<char>)
    requires AllIn(q, cs) && (t == [] || t[|t| - 1] !in cs)
    ensures TrimRight(t + q, cs) == t
  {
    var s := t + q;
    assert s[|t|..] == q;
    assert s[..|t|] == t;
    TrimRightStopsAt(s, |t|, cs);
  }

  /** Trim yields the one core `r` with `s == p + r + q`, `p` and `q` made of `cs`,
      and `r` neither starting nor ending with a character of `cs`. */
  lemma {:induction false} TrimUnique(p: string, r: string, q: string, cs: set<char>)
    requires AllIn(p, cs) && AllIn(q, cs)
    requires r == [] || (r[0] !in cs && r[|r| - 1] !in cs)
    ensures Trim(p + r + q, cs) == r
  {
    if r == [] {
      AllInConcat(p, q, cs);
      assert p + r + q == (p + q) + [];
      TrimLeftPadding(p + q, [], cs);
    } else {
      assert p + r + q == p + (r + q);
      assert (r + q)[0] == r[0];
      TrimLeftPadding(p, r + q, cs);
      TrimRightPadding(r, q, cs);
    }
  }

  lemma {:induction false} AllInConcat(a: string, b: string, cs: set<char>)
    requires AllIn(a, cs) && AllIn(b, cs)
    ensures AllIn(a + b, cs)
  {
    forall k | 0 <= k < |a + b|
      ensures (a + b)[k] in cs
    {
      if k >= |a| {
        assert (a + b)[k] == b[k - |a|];
      }
    }
  }

  /** What trimming on the left removes is a prefix made of `cs`. */
  lemma {:induction false} TrimLeftSlices(s: string, cs: set<char>) returns (p: string)
    ensures s == p + TrimLeft(s, cs) && AllIn(p, cs)
    decreases |s|
  {
    if |s| > 0 && s[0] in cs {
      var t := TrimLeft(s[1..], cs);
      assert TrimLeft(s, cs) == t;
      var p' := TrimLeftSlices(s[1..], cs);
      p := [s[0]] + p';
      ConsRegroup(s, p', t);
      AllInConcat([s[0]], p', cs);
    } else {
      p := [];
      assert s == [] + s;
    }
  }

  lemma {:induction false} ConsRegroup(s: string, p: string, t: string)
    requires |s| > 0 && s[1..] == p + t
    ensures s == [s[0]] + p + t
  {
    assert s == [s[0]] + s[1..];
    assert [s[0]] + (p + t) == [s[0]] + p + t;
  }

  /** What trimming on the right removes is a suffix made of `cs`. */
  lemma {:induction false} TrimRightSlices(s: string, cs: set<char>) returns (q: string)
    ensures s == TrimRight(s, cs) + q && AllIn(q, cs)
    decreases |s|
  {
    if |s| > 0 && s[|s| - 1] in cs {
      var t := TrimRight(s[..|s| - 1], cs);
      assert TrimRight(s, cs) == t;
      var q' := TrimRightSlices(s[..|s| - 1], cs);
      q := q' + [s[|s| - 1]];
      SnocRegroup(s, t, q');
      AllInConcat(q', [s[|s| - 1]], cs);
    } else {
      q := [];
      assert s == s + [];
    }
  }

  lemma {:induction false} SnocRegroup(s: string, t: string, q: string)
    requires |s| > 0 && s[..|s| - 1] == t + q
    ensures s == t + (q + [s[|s| - 1]])
  {
    assert s == s[..|s| - 1] + [s[|s| - 1]];
    assert (t + q) + [s[|s| - 1]] == t + (q + [s[|s| - 1]]);
  }

  /** Every string is its trimmed prefix, its core and its trimmed suffix,
      and the core neither starts nor ends with a character of `cs`. */
  lemma {:induction false} TrimSlices(s: string, cs: set<char>) returns (p: string, q: string)
    ensures s == p + Trim(s, cs) + q
    ensures AllIn(p, cs) && AllIn(q, cs)
    ensures var r := Trim(s, cs); r == [] || (r[0] !in cs && r[|r| - 1] !in cs)
  {
    var left := TrimLeft(s, cs);
    var r := TrimRight(left, cs);
    p := TrimLeftSlices(s, cs);
    q := TrimRightSlices(left, cs);
    Regroup3(s, left, p, r, q);
    TrimRightKeepsHead(left, cs);
  }

  lemma {:induction false} Regroup3(s: string, left: string, p: string, r: string, q: string)
    requires s == p + left && left == r + q
    ensures s == p + r + q
  {
    assert p + (r + q) == p + r + q;
  }

  lemma {:induction false} TrimRightKeepsHead(s: string, cs: set<char>)
    requires s == [] || s[0] !in cs
    ensures var r := TrimRight(s, cs); r == [] || r[0] !in cs
  {
    var r := TrimRight(s, cs);
    assert r == [] || r[0] == s[0];
  }

  lemma {:induction false} TrimIdempotent(s: string, cs: set<char>)
    ensures Trim(Trim(s, cs), cs) == Trim(s, cs)
  {
    var p, q := TrimSlices(s, cs);
    var r := Trim(s, cs);
    assert r == [] + r + [];
    assert AllIn([], cs);
    TrimUnique([], r, [], cs);
  }

  lemma {:induction false} Regroup(a: string, p: string, r: string, q: string, b: string)
    ensures a + (p + r + q) + b == (a + p) + r + (q + b)
  {
  }

  /** Surrounding padding from `cs` does not change the trimmed text. */
  lemma {:induction false} TrimIgnoresPadding(a: string, s: string, b: string, cs: set<char>)
    requires AllIn(a, cs) && AllIn(b, cs)
    ensures Trim(a + s + b, cs) == Trim(s, cs)
  {
    var p, q := TrimSlices(s, cs);
    var r := Trim(s, cs);
    AllInConcat(a, p, cs);
    AllInConcat(q, b, cs);
    Regroup(a, p, r, q, b);
    TrimUnique(a + p, r, q + b, cs);
  }

  /** Python `c.lower()` for ASCII letters; every other character is kept. */
  function LowerChar(c: char): char {
    if 'A' <= c <= 'Z' then (c as int + 32) as char else c
  }

  function UpperChar(c: char): char {
    if 'a' <= c <= 'z' then (c as int - 32) as char else c
  }

  /** Python `str.lower()` (ASCII letters only). */
  function Lower(s: string): (r: string)
    ensures |r| == |s|
    ensures forall k :: 0 <= k < |r| ==> !('A' <= r[k] <= 'Z')
    ensures forall k :: 0 <= k < |s| && !('A' <= s[k] <= 'Z') ==> r[k] == s[k]
  {
    seq(|s|, k requires 0 <= k < |s| => LowerChar(s[k]))
  }

  /** Python `str.upper()` (ASCII letters only). */
  function Upper(s: string): (r: string)
    ensures |r| == |s|
    ensures forall k :: 0 <= k < |r| ==> !('a' <= r[k] <= 'z')
    ensures forall k :: 0 <= k < |s| && !('a' <= s[k] <= 'z') ==> r[k] == s[k]
  {
    seq(|s|, k requires 0 <= k < |s| => UpperChar(s[k]))
  }

  lemma {:induction false} LowerIdempotent(s: string)
    ensures Lower(Lower(s)) == Lower(s)
  {
  }

  lemma {:induction false} LowerDistributes(a: string, b: string)
    ensures Lower(a + b) == Lower(a) + Lower(b)
  {
    assert Lower(a + b) == Lower(a) + Lower(b) by {
      forall k | 0 <= k < |a + b|
        ensures Lower(a + b)[k] == (Lower(a) + Lower(b))[k]
      {
        if k < |a| {
        } else {
          assert (a + b)[k] == b[k - |a|];
        }
      }
    }
  }

  lemma {:induction false} LowerKeepsWhitespace(s: string)
    requires AllIn(s, PyWhitespace)
    ensures Lower(s) == s
  {
  }

  lemma {:induction false} LowerKeepsEnds(r: string)
    requires r == [] || (r[0] !in PyWhitespace && r[|r| - 1] !in PyWhitespace)
    ensures var l := Lower(r); l == [] || (l[0] !in PyWhitespace && l[|l| - 1] !in PyWhitespace)
  {
  }

  /** Lower-casing leaves whitespace padding in place. */
  lemma {:induction false} LowerPadded(p: string, r: string, q: string)
    requires AllIn(p, PyWhitespace) && AllIn(q, PyWhitespace)
    ensures Lower(p + r + q) == p + Lower(r) + q
  {
    LowerDistributes(p, r);
    LowerDistributes(p + r, q);
    LowerKeepsWhitespace(p);
    LowerKeepsWhitespace(q);
  }

  /** Lower-casing and stripping commute: no ASCII letter is whitespace. */
  lemma {:induction false} LowerStripCommute(s: string)
    ensures Lower(Strip(s)) == Strip(Lower(s))
  {
    var p, q := TrimSlices(s, PyWhitespace);
    var r := Strip(s);
    LowerPadded(p, r, q);
    LowerKeepsEnds(r);
    TrimUnique(p, Lower(r), q, PyWhitespace);
  }

  /** Stripping, then lower-casing, shortens and leaves no whitespace at
      either end. */
  lemma {:induction false} StripLowerShape(s: string)
    ensures |Lower(Strip(s))| <= |s|
    ensures var r := Lower(Strip(s));
            r == [] || (r[0] !in PyWhitespace && r[|r| - 1] !in PyWhitespace)
  {
    var p, q := TrimSlices(s, PyWhitespace);
    LowerKeepsEnds(Strip(s));
  }

  /** Python `s.startswith(p)`. */
  predicate StartsWith(s: string, p: string) {
    |p| <= |s| && s[..|p|] == p
  }

  /** Python `t in s` on strings (plain substring search). */
  predicate Contains(s: string, t: string)
    decreases |s|
  {
    StartsWith(s, t) || (|s| > 0 && Contains(s[1..], t))
  }

  /** The reference meaning of substring search: `t` starts at some position of `s`. */
  ghost predicate OccursAt(s: string, t: string, i: int) {
    0 <= i <= |s| && StartsWith(s[i..], t)
  }

  lemma {:induction false} OccursImpliesContains(s: string, t: string, i: int)
    requires OccursAt(s, t, i)
    ensures Contains(s, t)
    decreases i
  {
    if i == 0 {
      assert s[0..] == s;
    } else {
      assert s[1..][i - 1..] == s[i..];
      OccursImpliesContains(s[1..], t, i - 1);
    }
  }

  lemma {:induction false} ContainsGivesOccurrence(s: string, t: string) returns (i: int)
    requires Contains(s, t)
    ensures OccursAt(s, t, i)
    decreases |s|
  {
    if StartsWith(s, t) {
      assert s[0..] == s;
      i := 0;
    } else {
      var j := ContainsGivesOccurrence(s[1..], t);
      assert s[1..][j..] == s[j + 1..];
      i := j + 1;
    }
  }

  /** Substring search agrees with its reference meaning, in both directions. */
  lemma {:induction false} ContainsMeansOccurs(s: string, t: string)
    ensures Contains(s, t) <==> exists i :: OccursAt(s, t, i)
  {
    if Contains(s, t) {
      var i := ContainsGivesOccurrence(s, t);
    }
    forall i | OccursAt(s, t, i)
      ensures Contains(s, t)
    {
      OccursImpliesContains(s, t, i);
    }
  }

  /** Python `sep.join(parts)`. */
  function Join(parts: seq<string>, sep: string): string {
    if |parts| == 0 then ""
    else if |parts| == 1 then parts[0]
    else parts[0] + sep + Join(parts[1..], sep)
  }

  /** Appending one part appends one separator and the part. */
  lemma {:induction false} JoinSnoc(parts: seq<string>, x: string, sep: string)
    requires |parts| >= 1
    ensures Join(parts + [x], sep) == Join(parts, sep) + sep + x
  {
    if |parts| == 1 {
      assert (parts + [x])[1..] == [x];
    } else {
      assert (parts + [x])[1..] == parts[1..] + [x];
      JoinSnoc(parts[1..], x, sep);
    }
  }

  /** Index of the first `c` in `s`, or `|s|` when there is none. */
  function FirstIndex(s: string, c: char): (i: nat)
    ensures i <= |s|
    ensures c !in s[..i]
    ensures i < |s| ==> s[i] == c
  {
    if |s| == 0 then 0
    else if s[0] == c then 0
    else
      var j := FirstIndex(s[1..], c);
      assert s[..j + 1] == [s[0]] + s[1..][..j];
      j + 1
  }

  /** Python `s.split(c)` for a one-character separator. */
  function Split(s: string, c: char): (r: seq<string>)
    ensures |r| >= 1
    decreases |s|
  {
    var i := FirstIndex(s, c);
    if i == |s| then [s] else [s[..i]] + Split(s[i + 1..], c)
  }

  lemma {:induction false} FirstIndexAfter(a: string, c: char, b: string)
    requires c !in a
    ensures FirstIndex(a + [c] + b, c) == |a|
  {
    if |a| > 0 {
      assert (a + [c] + b)[1..] == a[1..] + [c] + b;
      assert a[0] != c;
      FirstIndexAfter(a[1..], c, b);
    }
  }

  /** Splitting at the first separator peels off the text before it. */
  lemma {:induction false} SplitAt(a: string, c: char, b: string)
    requires c !in a
    ensures Split(a + [c] + b, c) == [a] + Split(b, c)
  {
    var s := a + [c] + b;
    FirstIndexAfter(a, c, b);
    assert s[..|a|] == a;
    assert s[|a| + 1..] == b;
  }

  /** Splitting a join on a separator that occurs in no part gives the parts back. */
  lemma {:induction false} SplitJoin(parts: seq<string>, c: char)
    requires |parts| >= 1
    requires forall k :: 0 <= k < |parts| ==> c !in parts[k]
    ensures Split(Join(parts, [c]), c) == parts
  {
    if |parts| == 1 {
      assert parts[0][..|parts[0]|] == parts[0];
    } else {
      var rest := Join(parts[1..], [c]);
      assert Join(parts, [c]) == parts[0] + [c] + rest;
      assert c !in parts[0];
      SplitAt(parts[0], c, rest);
      assert forall k :: 0 <= k < |parts[1..]| ==> parts[1..][k] == parts[k + 1];
      SplitJoin(parts[1..], c);
      assert parts == [parts[0]] + parts[1..];
    }
  }

  /** Joining the pieces of a split on the same character restores the text. */
  lemma {:induction false} JoinSplit(s: string, c: char)
    ensures Join(Split(s, c), [c]) == s
    ensures forall k :: 0 <= k < |Split(s, c)| ==> c !in Split(s, c)[k]
    decreases |s|
  {
    var i := FirstIndex(s, c);
    if i < |s| {
      var rest := Split(s[i + 1..], c);
      JoinSplit(s[i + 1..], c);
      assert Split(s, c) == [s[..i]] + rest;
      assert (([s[..i]] + rest))[1..] == rest;
      assert s == s[..i] + [c] + s[i + 1..];
    }
  }

  /** Drops the one blank that `", ".join` writes after a comma. */
  function DropBlank(s: string): string {
    if |s| > 0 && s[0] == ' ' then s[1..] else s
  }

  /** Reads back a list written with `", ".join`: split at each comma, then
      drop the blank that starts every piece after the first. */
  function SplitList(s: string): (r: seq<string>)
    ensures |r| >= 1
  {
    Unpad(Split(s, ','))
  }

  function Unpad(pieces: seq<string>): (r: seq<string>)
    requires |pieces| >= 1
    ensures |r| == |pieces|
  {
    [pieces[0]] + seq(|pieces| - 1, k requires 0 <= k < |pieces| - 1 => DropBlank(pieces[k + 1]))
  }

  /** Every part after the first, preceded by the blank of the separator. */
  function Spaced(parts: seq<string>): (r: seq<string>)
    ensures |r| == |parts|
    ensures forall k :: 0 <= k < |r| ==> r[k] == " " + parts[k]
  {
    seq(|parts|, k requires 0 <= k < |parts| => " " + parts[k])
  }

  lemma {:induction false} JoinConsPrefix(pre: string, a: string, rest: seq<string>, sep: string)
    ensures Join([pre + a] + rest, sep) == pre + Join([a] + rest, sep)
  {
    if rest != [] {
      assert ([pre + a] + rest)[1..] == rest;
      assert ([a] + rest)[1..] == rest;
    }
  }

  /** `", "` between parts is `","` between the parts with a blank in front. */
  lemma {:induction false} JoinSpaced(h: string, t: seq<string>)
    ensures Join([h] + t, ", ") == Join([h] + Spaced(t), ",")
    decreases |t|
  {
    if t != [] {
      JoinSpaced(t[0], t[1..]);
      assert Spaced(t) == [" " + t[0]] + Spaced(t[1..]);
      assert ([h] + t)[1..] == [t[0]] + t[1..];
      assert ([h] + Spaced(t))[1..] == [" " + t[0]] + Spaced(t[1..]);
      JoinConsPrefix(" ", t[0], Spaced(t[1..]), ",");
    }
  }

  /** A list of comma-free values joined by ", " reads back as those values. */
  lemma CommaFreeListReadsBack(v: seq<string>)
    requires |v| >= 1
    ensures (forall k :: 0 <= k < |v| ==> ',' !in v[k]) ==> SplitList(Join(v, ", ")) == v
  {
    if forall k :: 0 <= k < |v| ==> ',' !in v[k] {
      SplitListJoin(v);
    }
  }

  /** Reading back a `", "` join of comma-free parts gives the parts. */
  lemma SplitListJoin(parts: seq<string>)
    requires |parts| >= 1
    requires forall k :: 0 <= k < |parts| ==> ',' !in parts[k]
    ensures SplitList(Join(parts, ", ")) == parts
  {
    var t := parts[1..];
    var spaced := [parts[0]] + Spaced(t);
    assert parts == [parts[0]] + t;
    JoinSpaced(parts[0], t);
    SpacedCommaFree(parts[0], t);
    SplitJoin(spaced, ',');
    assert Split(Join(parts, ", "), ',') == spaced by {
      assert [','] == ",";
    }
    UnpadSpaced(parts[0], t);
  }

  lemma SpacedCommaFree(h: string, t: seq<string>)
    requires ',' !in h && forall k :: 0 <= k < |t| ==> ',' !in t[k]
    ensures forall k :: 0 <= k < |[h] + Spaced(t)| ==> ',' !in ([h] + Spaced(t))[k]
  {
    forall k | 0 <= k < |[h] + Spaced(t)|
      ensures ',' !in ([h] + Spaced(t))[k]
    {
      if k > 0 {
        assert ([h] + Spaced(t))[k] == " " + t[k - 1];
      }
    }
  }

  lemma UnpadSpaced(h: string, t: seq<string>)
    ensures Unpad([h] + Spaced(t)) == [h] + t
  {
    var r := Unpad([h] + Spaced(t));
    forall k | 1 <= k < |r|
      ensures r[k] == ([h] + t)[k]
    {
      assert ([h] + Spaced(t))[k] == " " + t[k - 1];
      assert DropBlank(" " + t[k - 1]) == t[k - 1];
    }
  }

  /** The lower-cased text starts with `p` exactly when its first |p|
      characters lower-case to those of `p`. */
  lemma LowerPrefix(s: string, p: string)
    ensures StartsWith(Lower(s), p) <==> |s| >= |p| && forall k :: 0 <= k < |p| ==> LowerChar(s[k]) == p[k]
  {
    if |s| >= |p| && forall k :: 0 <= k < |p| ==> LowerChar(s[k]) == p[k] {
      assert Lower(s)[..|p|] == p;
    }
  }

  /** Text between a head and a closing character is recovered by slicing. */
  lemma Enclosed(head: string, body: string, tail: char)
    ensures var r := head + body + [tail];
            StartsWith(r, head) && r[|r| - 1] == tail && r[|head|..|r| - 1] == body
  {
    var r := head + body + [tail];
    assert r[..|head|] == head;
    assert r[|head|..|r| - 1] == body;
  }

  /** Number of occurrences of `c` in `s`. */
  function CharCount(s: string, c: char): nat {
    if |s| == 0 then 0 else (if s[0] == c then 1 else 0) + CharCount(s[1..], c)
  }

  lemma {:induction false} CharCountAppend(a: string, b: string, c: char)
    ensures CharCount(a + b, c) == CharCount(a, c) + CharCount(b, c)
  {
    if |a| > 0 {
      assert (a + b)[1..] == a[1..] + b;
      CharCountAppend(a[1..], b, c);
    } else {
      assert a + b == b;
    }
  }

  lemma {:induction false} CharCountZero(s: string, c: char)
    ensures CharCount(s, c) == 0 <==> c !in s
  {
    if |s| > 0 {
      CharCountZero(s[1..], c);
      assert s == [s[0]] + s[1..];
    }
  }

  /** Lower-casing keeps the count of a character that is not a letter. */
  lemma {:induction false} CharCountLower(s: string, c: char)
    requires !('A' <= c <= 'Z') && !('a' <= c <= 'z')
    ensures CharCount(Lower(s), c) == CharCount(s, c)
  {
    if |s| > 0 {
      CharCountLower(s[1..], c);
      assert Lower(s)[1..] == Lower(s[1..]);
      assert Lower(s)[0] == LowerChar(s[0]);
    }
  }

  /** Stripping keeps the count of a character that is not whitespace. */
  lemma {:induction false} CharCountStrip(s: string, c: char)
    requires c !in PyWhitespace
    ensures CharCount(Strip(s), c) == CharCount(s, c)
  {
    var p, q := TrimSlices(s, PyWhitespace);
    CharCountAppend(p + Strip(s), q, c);
    CharCountAppend(p, Strip(s), c);
    CharCountZero(p, c);
    CharCountZero(q, c);
  }

  /** Stripping and lower-casing keep the count of a character that is
      neither whitespace nor a letter. */
  lemma {:induction false} CharCountNormalized(s: string, c: char)
    requires c !in PyWhitespace && !('A' <= c <= 'Z') && !('a' <= c <= 'z')
    ensures CharCount(Lower(Strip(s)), c) == CharCount(s, c)
  {
    CharCountStrip(s, c);
    CharCountLower(Strip(s), c);
  }

  /** Upper-casing ignores an earlier lower-casing. */
  lemma {:induction false} UpperLower(s: string)
    ensures Upper(Lower(s)) == Upper(s)
  {
  }

  /** `not s.strip()`: the text is blank exactly when it is all whitespace. */
  lemma {:induction false} StripBlank(s: string)
    ensures Strip(s) == [] <==> AllIn(s, PyWhitespace)
  {
    var p, q := TrimSlices(s, PyWhitespace);
    if Strip(s) == [] {
      AllInConcat(p, q, PyWhitespace);
      assert s == p + q;
    }
    if AllIn(s, PyWhitespace) {
      assert s[..|s|] == s;
      TrimLeftStopsAt(s, |s|, PyWhitespace);
    }
  }
}

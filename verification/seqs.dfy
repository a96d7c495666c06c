/**
  Row filtering as the pages do it with pandas boolean masks: keep the rows a
  predicate accepts, in their original order. Counting rows is the length of
  a filter (`df[mask].shape[0]`).
 */
module Seqs {

  /** `a` is `b` with some elements removed and the rest kept in order. */
  predicate IsSubsequence<T(==)>(a: seq<T>, b: seq<T>)
    decreases |b|
  {
    a == [] || (b != [] && ((a[0] == b[0] && IsSubsequence(a[1..], b[1..])) || IsSubsequence(a, b[1..])))
  }

  /** `df[mask]`: the rows `keep` accepts, in order. */
  function Filter<T>(s: seq<T>, keep: T -> bool): (r: seq<T>)
    ensures |r| <= |s|
    ensures forall k :: 0 <= k < |r| ==> keep(r[k])
    ensures forall k :: 0 <= k < |r| ==> r[k] in s
    ensures forall k :: 0 <= k < |s| && keep(s[k]) ==> s[k] in r
  {
    if s == [] then []
    else if keep(s[0]) then [s[0]] + Filter(s[1..], keep)
    else Filter(s[1..], keep)
  }

  lemma {:induction false} FilterIsSubsequence<T>(s: seq<T>, keep: T -> bool)
    ensures IsSubsequence(Filter(s, keep), s)
  {
    if s != [] {
      FilterIsSubsequence(s[1..], keep);
      var r := Filter(s[1..], keep);
      if keep(s[0]) {
        assert ([s[0]] + r)[1..] == r;
      } else if r != [] {
        SubsequenceDropsHead(r, s);
      }
    }
  }

  lemma SubsequenceDropsHead<T>(a: seq<T>, b: seq<T>)
    requires b != [] && IsSubsequence(a, b[1..])
    ensures IsSubsequence(a, b)
  {
  }

  /** A filter is empty exactly when it accepts no row. */
  lemma FilterEmpty<T>(s: seq<T>, keep: T -> bool)
    ensures Filter(s, keep) == [] <==> forall k :: 0 <= k < |s| ==> !keep(s[k])
  {
    var r := Filter(s, keep);
    if r != [] {
      assert r[0] in s;
    }
  }

  /** A filter that accepts every row is the identity. */
  lemma {:induction false} FilterAll<T>(s: seq<T>, keep: T -> bool)
    requires forall k :: 0 <= k < |s| ==> keep(s[k])
    ensures Filter(s, keep) == s
  {
    if s != [] {
      FilterAll(s[1..], keep);
    }
  }

  /** Rows accepted by `keep` and rows accepted by its complement `drop` add
      up to all rows. */
  lemma {:induction false} FilterSplitsCount<T>(s: seq<T>, keep: T -> bool, drop: T -> bool)
    requires forall k :: 0 <= k < |s| ==> drop(s[k]) == !keep(s[k])
    ensures |Filter(s, keep)| + |Filter(s, drop)| == |s|
  {
    if s != [] {
      FilterSplitsCount(s[1..], keep, drop);
    }
  }

  /** Filtering by `p` and then by `q` is filtering once by their conjunction `both`. */
  lemma {:induction false} FilterFilter<T>(s: seq<T>, p: T -> bool, q: T -> bool, both: T -> bool)
    requires forall k :: 0 <= k < |s| ==> both(s[k]) == (p(s[k]) && q(s[k]))
    ensures Filter(Filter(s, p), q) == Filter(s, both)
  {
    if s != [] {
      FilterFilter(s[1..], p, q, both);
      if p(s[0]) {
        assert Filter(s, p) == [s[0]] + Filter(s[1..], p);
        assert ([s[0]] + Filter(s[1..], p))[1..] == Filter(s[1..], p);
      }
    }
  }

  /** Filters that agree on every row give the same result. */
  lemma {:induction false} FilterExtensional<T>(s: seq<T>, p: T -> bool, q: T -> bool)
    requires forall k :: 0 <= k < |s| ==> p(s[k]) == q(s[k])
    ensures Filter(s, p) == Filter(s, q)
  {
    if s != [] {
      FilterExtensional(s[1..], p, q);
    }
  }

  /** Rows ordered by a descending key stay so ordered after filtering. */
  ghost predicate Descending<T>(s: seq<T>, key: T -> int) {
    forall i, j :: 0 <= i < j < |s| ==> key(s[i]) >= key(s[j])
  }

  lemma {:induction false} FilterKeepsDescending<T>(s: seq<T>, keep: T -> bool, key: T -> int)
    requires Descending(s, key)
    ensures Descending(Filter(s, keep), key)
  {
    if s != [] {
      FilterKeepsDescending(s[1..], keep, key);
      if keep(s[0]) {
        var r := Filter(s[1..], keep);
        forall j | 0 < j < |[s[0]] + r|
          ensures key(s[0]) >= key(([s[0]] + r)[j])
        {
          var x := r[j - 1];
          assert x in s[1..];
          var m :| 0 <= m < |s[1..]| && s[1..][m] == x;
          assert s[m + 1] == x;
        }
      }
    }
  }

  /** A filter keeps every row exactly when its result is as long as its input. */
  lemma {:induction false} FilterKeepsAll<T>(s: seq<T>, keep: T -> bool)
    ensures |Filter(s, keep)| == |s| <==> forall k :: 0 <= k < |s| ==> keep(s[k])
  {
    if s != [] {
      FilterKeepsAll(s[1..], keep);
      if forall k :: 0 <= k < |s[1..]| ==> keep(s[1..][k]) {
        assert forall k :: 1 <= k < |s| ==> keep(s[k]) by {
          forall k | 1 <= k < |s| ensures keep(s[k]) {
            assert s[k] == s[1..][k - 1];
          }
        }
      } else {
        var j :| 0 <= j < |s[1..]| && !keep(s[1..][j]);
        assert !keep(s[j + 1]);
      }
    }
  }

  /** When the rows `keep` accepts come before all the rows it rejects, the
      filter is a prefix of the input, and a row is in that prefix exactly
      when `keep` accepts it. */
  lemma {:induction false} FilterIsPrefix<T>(s: seq<T>, keep: T -> bool)
    requires forall i, j :: 0 <= i < j < |s| && keep(s[j]) ==> keep(s[i])
    ensures Filter(s, keep) == s[..|Filter(s, keep)|]
    ensures forall k :: 0 <= k < |s| ==> (k < |Filter(s, keep)| <==> keep(s[k]))
  {
    if s != [] {
      if keep(s[0]) {
        var t := s[1..];
        PrefixClosedTail(s, keep);
        FilterIsPrefix(t, keep);
        var r := Filter(t, keep);
        assert [s[0]] + t[..|r|] == s[..|r| + 1];
        forall k | 1 <= k < |s|
          ensures k < |Filter(s, keep)| <==> keep(s[k])
        {
          assert s[k] == t[k - 1];
        }
      } else {
        assert forall k :: 0 <= k < |s| ==> !keep(s[k]);
        FilterEmpty(s, keep);
      }
    }
  }

  lemma PrefixClosedTail<T>(s: seq<T>, keep: T -> bool)
    requires s != []
    requires forall i, j :: 0 <= i < j < |s| && keep(s[j]) ==> keep(s[i])
    ensures forall i, j :: 0 <= i < j < |s[1..]| && keep(s[1..][j]) ==> keep(s[1..][i])
  {
    var t := s[1..];
    forall i, j | 0 <= i < j < |t| && keep(t[j])
      ensures keep(t[i])
    {
      assert t[i] == s[i + 1] && t[j] == s[j + 1];
    }
  }
}

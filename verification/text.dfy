/** The handful of Python `str` operations the chat code relies on:
    `sub in s`, `s.startswith(p)`, `s.split(sep)` and `sep.join(parts)`. */
module Text {
  import opened Base

  /** `sep` occurs in `s` starting at index `i`. */
  predicate OccursAt(s: string, sep: string, i: nat) {
    i + |sep| <= |s| && s[i..i + |sep|] == sep
  }

  /** Python's `sub in s`. */
  predicate Contains(s: string, sub: string) {
    exists i: nat :: i <= |s| && OccursAt(s, sub, i)
  }

  /** Python's `s.startswith(p)`. */
  predicate StartsWith(s: string, p: string) {
    |p| <= |s| && s[..|p|] == p
  }

  /** An occurrence inside a prefix of `s` is an occurrence in `s`. */
  lemma OccursInPrefix(s: string, n: nat, sep: string, j: nat)
    requires n <= |s|
    requires OccursAt(s[..n], sep, j)
    ensures OccursAt(s, sep, j) && j + |sep| <= n
  {
    assert s[..n][j..j + |sep|] == s[j..j + |sep|];
  }

  lemma SliceOfPrefix(s: string, n: nat, a: nat, b: nat)
    requires a <= b <= n <= |s|
    ensures s[..n][a..b] == s[a..b]
  {
  }

  /** Occurrences in a suffix of `s` are occurrences in `s`, shifted by the
      length of what was cut off, and conversely. */
  lemma OccursInSuffix(s: string, n: nat, sep: string, j: nat)
    requires n <= |s|
    ensures OccursAt(s[n..], sep, j) <==> OccursAt(s, sep, n + j)
  {
    if j + |sep| <= |s| - n {
      assert s[n..][j..j + |sep|] == s[n + j..n + j + |sep|];
    }
  }

  /** The first index at or after `start` at which `sep` occurs in `s`. */
  function FindFrom(s: string, sep: string, start: nat): (r: Option<nat>)
    ensures r.Some? ==> start <= r.value && OccursAt(s, sep, r.value)
    ensures r.Some? ==> forall j: nat :: start <= j < r.value ==> !OccursAt(s, sep, j)
    ensures r.None? ==> forall j: nat :: start <= j ==> !OccursAt(s, sep, j)
    decreases |s| - start
  {
    if |s| < start + |sep| then None
    else if OccursAt(s, sep, start) then Some(start)
    else FindFrom(s, sep, start + 1)
  }

  /** The first index at which `sep` occurs in `s` (Python's `s.find(sep)`,
      with `None` for -1). */
  function Find(s: string, sep: string): (r: Option<nat>)
    ensures r.Some? ==> OccursAt(s, sep, r.value)
    ensures r.Some? ==> forall j: nat :: j < r.value ==> !OccursAt(s, sep, j)
    ensures r.None? <==> !Contains(s, sep)
  {
    FindFrom(s, sep, 0)
  }

  /** If `sep` is first found at `i` in `s`, it is first found at `i` in any
      string that agrees with `s` up to the end of that occurrence. */
  lemma FindDependsOnPrefix(s: string, t: string, sep: string, i: nat)
    requires Find(s, sep) == Some(i)
    requires i + |sep| <= |t| && t[..i + |sep|] == s[..i + |sep|]
    ensures Find(t, sep) == Some(i)
  {
    assert t[i..i + |sep|] == t[..i + |sep|][i..] == s[..i + |sep|][i..] == s[i..i + |sep|];
    assert OccursAt(t, sep, i);
    var n := i + |sep|;
    forall k: nat | k < i ensures !OccursAt(t, sep, k) {
      SliceOfPrefix(t, n, k, k + |sep|);
      SliceOfPrefix(s, n, k, k + |sep|);
      assert !OccursAt(s, sep, k);
    }
  }

  /** Python's `s.split(sep)` for a non-empty separator: the pieces between
      the non-overlapping occurrences of `sep`, scanning left to right. */
  function Split(s: string, sep: string): (parts: seq<string>)
    requires |sep| > 0
    ensures |parts| >= 1
    decreases |s|
  {
    var found := Find(s, sep);
    if found.None? then [s]
    else
      var i := found.value;
      [s[..i]] + Split(s[i + |sep|..], sep)
  }

  /** No piece of a split contains the separator. */
  lemma {:induction false} SplitPiecesAreFree(s: string, sep: string)
    requires |sep| > 0
    ensures forall k :: 0 <= k < |Split(s, sep)| ==> !Contains(Split(s, sep)[k], sep)
    decreases |s|
  {
    var found := Find(s, sep);
    if found.Some? {
      var i := found.value;
      var rest := s[i + |sep|..];
      SplitAt(s, sep, i);
      BeforeFirstIsFree(s, sep, i);
      SplitPiecesAreFree(rest, sep);
    }
  }

  /** The text before the first occurrence of `sep` does not contain `sep`. */
  lemma BeforeFirstIsFree(s: string, sep: string, i: nat)
    requires |sep| > 0 && Find(s, sep) == Some(i)
    ensures !Contains(s[..i], sep)
  {
    forall j: nat | j <= i && OccursAt(s[..i], sep, j) ensures false {
      OccursInPrefix(s, i, sep, j);
    }
  }

  /** Python's `sep.join(parts)`. */
  function Join(parts: seq<string>, sep: string): string
    decreases |parts|
  {
    if |parts| == 0 then ""
    else if |parts| == 1 then parts[0]
    else parts[0] + sep + Join(parts[1..], sep)
  }

  /** A join starts with its first part. */
  lemma {:induction false} JoinStartsWithFirst(parts: seq<string>, sep: string)
    requires |parts| > 0
    ensures StartsWith(Join(parts, sep), parts[0])
  {
    if |parts| > 1 {
      assert (parts[0] + sep + Join(parts[1..], sep))[..|parts[0]|] == parts[0];
    }
  }

  /** Joining the pieces of a split with the same separator gives back the
      original string. */
  lemma {:induction false} JoinSplit(s: string, sep: string)
    requires |sep| > 0
    ensures Join(Split(s, sep), sep) == s
    decreases |s|
  {
    var found := Find(s, sep);
    if found.Some? {
      var i := found.value;
      var rest := s[i + |sep|..];
      var tail := Split(rest, sep);
      calc {
        Join(Split(s, sep), sep);
        { SplitAt(s, sep, i); }
        Join([s[..i]] + tail, sep);
        { JoinCons(s[..i], tail, sep); }
        s[..i] + sep + Join(tail, sep);
        { JoinSplit(rest, sep); }
        s[..i] + sep + rest;
        { CutAround(s, sep, i); }
        s;
      }
    }
  }

  /** Cutting an occurrence out and putting it back gives the same string. */
  lemma CutAround(s: string, sep: string, i: nat)
    requires OccursAt(s, sep, i)
    ensures s[..i] + sep + s[i + |sep|..] == s
  {
    assert s == s[..i] + s[i..i + |sep|] + s[i + |sep|..];
  }

  /** Joining a non-empty list after a first piece puts one separator
      between them. */
  lemma JoinCons(head: string, tail: seq<string>, sep: string)
    requires |tail| > 0
    ensures Join([head] + tail, sep) == head + sep + Join(tail, sep)
  {
    assert ([head] + tail)[1..] == tail;
  }

  /** When `sep` is first found at `i`, splitting peels off `s[..i]`. */
  lemma SplitAt(s: string, sep: string, i: nat)
    requires |sep| > 0 && Find(s, sep) == Some(i)
    ensures Split(s, sep) == [s[..i]] + Split(s[i + |sep|..], sep)
  {
  }

  /** A split with at least two pieces starts with the text before the first
      separator, and the rest of the pieces are the split of what follows it. */
  lemma Peel(s: string, sep: string) returns (rest: string)
    requires |sep| > 0 && |Split(s, sep)| >= 2
    ensures var p := Split(s, sep);
      && Find(s, sep) == Some(|p[0]|)
      && s == p[0] + sep + rest
      && Split(rest, sep) == p[1..]
  {
    var i := Find(s, sep).value;
    rest := s[i + |sep|..];
    SplitAt(s, sep, i);
    CutAround(s, sep, i);
  }

  /** A split into one piece returns the whole string, which then does not
      contain the separator. */
  lemma Whole(s: string, sep: string)
    requires |sep| > 0 && |Split(s, sep)| == 1
    ensures Split(s, sep) == [s] && !Contains(s, sep)
  {
  }

  /** A string splits into a single piece exactly when it does not contain
      the separator. */
  lemma SplitIntoOnePiece(s: string, sep: string)
    requires |sep| > 0
    ensures |Split(s, sep)| == 1 <==> !Contains(s, sep)
  {
    if Find(s, sep).Some? {
      SplitAt(s, sep, Find(s, sep).value);
    }
  }

  lemma Join3(a: string, b: string, c: string, sep: string)
    ensures Join([a, b, c], sep) == a + sep + (b + sep + c)
  {
    JoinCons(b, [c], sep);
    assert [b, c] == [b] + [c];
    JoinCons(a, [b, c], sep);
    assert [a, b, c] == [a] + [b, c];
  }

  /** In `pre + sep + post` the separator occurs right after `pre`. */
  lemma Around(pre: string, sep: string, post: string)
    ensures var s := pre + sep + post;
      && OccursAt(s, sep, |pre|)
      && s[..|pre|] == pre
      && s[|pre| + |sep|..] == post
  {
    var s := pre + sep + post;
    assert s[|pre|..|pre| + |sep|] == sep;
  }

  /** Two strings with a common prefix agree on it. */
  lemma CommonPrefix(a: string, x: string, y: string)
    ensures (a + x)[..|a|] == (a + y)[..|a|] == a
  {
  }

  /** If `sep` is first found right after `a` in `a + sep + t`, it is also
      first found there in `a + sep + u`, whatever follows. */
  lemma SplitKeepsFirstPiece(a: string, t: string, u: string, sep: string)
    requires |sep| > 0 && Find(a + sep + t, sep) == Some(|a|)
    ensures Split(a + sep + u, sep) == [a] + Split(u, sep)
  {
    CommonPrefix(a + sep, t, u);
    FindDependsOnPrefix(a + sep + t, a + sep + u, sep, |a|);
    SplitAt(a + sep + u, sep, |a|);
    Around(a, sep, u);
  }
}

/** Small value types shared by every module of the model: Python's `None`,
    the exceptions the modelled code can raise, and a sequence filter. */
module Base {

  /** A Python value that may be `None`. */
  datatype Option<+T> = None | Some(value: T)

  /** The exceptions the modelled code lets escape to its caller. */
  datatype Exception =
    | NameError(name: string)      // a reference to an undefined variable
    | IndexError                   // `xs[0]` on an empty list
    | ModeError(message: string)   // the orchestrator's "no mode selected" error

  function Min(a: int, b: int): int { if a <= b then a else b }

  function Max(a: int, b: int): int { if a <= b then b else a }

  /** The elements of `s` that satisfy `p`, in their original order, as a
      filtering list comprehension builds them. */
  function Filter<T>(p: T -> bool, s: seq<T>): (r: seq<T>)
    ensures |r| <= |s|
    decreases |s|
  {
    if |s| == 0 then []
    else if p(s[0]) then [s[0]] + Filter(p, s[1..])
    else Filter(p, s[1..])
  }

  /** What a filter keeps: only elements of `s` that satisfy `p`, every such
      element, and all of `s` when every element does. */
  lemma {:induction false} FilterKeeps<T>(p: T -> bool, s: seq<T>)
    ensures var r := Filter(p, s);
      && (forall k :: 0 <= k < |r| ==> p(r[k]) && r[k] in s)
      && (forall k :: 0 <= k < |s| && p(s[k]) ==> s[k] in Filter(p, s))
      && ((forall k :: 0 <= k < |s| ==> p(s[k])) ==> Filter(p, s) == s)
    decreases |s|
  {
    if |s| > 0 {
      FilterKeeps(p, s[1..]);
      assert forall k :: 1 <= k < |s| ==> s[k] == s[1..][k - 1];
    }
  }

  /** Filtering distributes over concatenation, so a loop may filter one
      element at a time. */
  lemma {:induction false} FilterAppend<T>(p: T -> bool, s: seq<T>, t: seq<T>)
    ensures Filter(p, s + t) == Filter(p, s) + Filter(p, t)
    decreases |s|
  {
    if |s| == 0 {
      assert s + t == t;
    } else {
      assert (s + t)[1..] == s[1..] + t;
      FilterAppend(p, s[1..], t);
    }
  }

  /** Filtering a single element keeps it exactly when it satisfies `p`. */
  lemma FilterOne<T>(p: T -> bool, x: T)
    ensures Filter(p, [x]) == if p(x) then [x] else []
  {
    assert [x][1..] == [];
  }
}

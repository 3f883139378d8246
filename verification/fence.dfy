/** Repair of a reply whose last code fence was cut off
    (`remove_last_format_simbols`): when splitting on the fence gives exactly
    four pieces, i.e. the reply holds three fences, the third one is dropped. */
module Fence {
  import opened Base
  import opened Text

  /** The Markdown code-fence delimiter, the default `format` argument. */
  const Backticks := "```"

  function RemoveLastFormatSymbols(text: string, format: string): string
    requires |format| > 0
  {
    var parts := Split(text, format);
    if |parts| == 4 then Join(parts[..3], format) + parts[3] else text
  }

  /** Every character of `f` is the same, as in a fence of backticks. */
  predicate Uniform(f: string) {
    forall k :: 0 <= k < |f| ==> f[k] == f[0]
  }

  /** A text that splits into four pieces is those pieces with a delimiter
      between each, and every delimiter is the first one after the previous. */
  lemma FourPieces(text: string, f: string) returns (t1: string, t2: string)
    requires |f| > 0 && |Split(text, f)| == 4
    ensures var p := Split(text, f);
      && text == p[0] + f + t1 && Find(text, f) == Some(|p[0]|)
      && t1 == p[1] + f + t2 && Find(t1, f) == Some(|p[1]|)
      && t2 == p[2] + f + p[3] && Find(t2, f) == Some(|p[2]|)
      && !Contains(p[3], f)
  {
    var p := Split(text, f);
    t1 := Peel(text, f);
    t2 := Peel(t1, f);
    var t3 := Peel(t2, f);
    Whole(t3, f);
  }

  /** The repaired text of a text with three delimiters, piece by piece. */
  lemma RepairedPieces(text: string, f: string)
    requires |f| > 0 && |Split(text, f)| == 4
    ensures var p := Split(text, f);
      RemoveLastFormatSymbols(text, f) == p[0] + f + (p[1] + f + (p[2] + p[3]))
  {
    var p := Split(text, f);
    assert p[..3] == [p[0], p[1], p[2]];
    Join3(p[0], p[1], p[2], f);
    Regroup(p[0], p[1], p[2], p[3], f);
  }

  lemma Regroup(a: string, b: string, c: string, d: string, f: string)
    ensures a + f + (b + f + c) + d == a + f + (b + f + (c + d))
    ensures a + f + (b + f + (c + f + d)) == a + f + (b + f + c) + f + d
  {
  }

  /** With three delimiters, exactly the last one is deleted and nothing
      after it is a delimiter; with any other count the text is unchanged. */
  lemma RemovesOnlyTheLastDelimiter(text: string, f: string)
    requires |f| > 0
    ensures |Split(text, f)| != 4 ==> RemoveLastFormatSymbols(text, f) == text
    ensures |Split(text, f)| == 4 ==>
      exists i: nat :: && OccursAt(text, f, i)
                       && !Contains(text[i + |f|..], f)
                       && RemoveLastFormatSymbols(text, f) == text[..i] + text[i + |f|..]
  {
    var p := Split(text, f);
    if |p| == 4 {
      var prefix := LastDelimiterSplits(text, f);
      LastDelimiterIsDeleted(text, f, prefix, p[3]);
    }
  }

  /** The text before and after the last of three delimiters. */
  lemma LastDelimiterSplits(text: string, f: string) returns (prefix: string)
    requires |f| > 0 && |Split(text, f)| == 4
    ensures var p := Split(text, f);
      && text == prefix + f + p[3]
      && !Contains(p[3], f)
      && RemoveLastFormatSymbols(text, f) == prefix + p[3]
  {
    var p := Split(text, f);
    prefix := p[0] + f + (p[1] + f + p[2]);
    var t1, t2 := FourPieces(text, f);
    RepairedPieces(text, f);
    Regroup(p[0], p[1], p[2], p[3], f);
  }

  lemma LastDelimiterIsDeleted(text: string, f: string, prefix: string, rest: string)
    requires |f| > 0 && text == prefix + f + rest && !Contains(rest, f)
    requires RemoveLastFormatSymbols(text, f) == prefix + rest
    ensures exists i: nat :: && OccursAt(text, f, i)
                             && !Contains(text[i + |f|..], f)
                             && RemoveLastFormatSymbols(text, f) == text[..i] + text[i + |f|..]
  {
    Around(prefix, f, rest);
    var i := |prefix|;
    assert OccursAt(text, f, i) && !Contains(text[i + |f|..], f)
      && RemoveLastFormatSymbols(text, f) == text[..i] + text[i + |f|..];
  }

  /** Gluing two delimiter-free pieces that were separated by the first
      occurrence of a uniform delimiter creates no new occurrence. */
  lemma NoStraddle(a: string, b: string, f: string)
    requires |f| > 0 && Uniform(f)
    requires !Contains(a, f) && !Contains(b, f)
    requires Find(a + f + b, f) == Some(|a|)
    ensures !Contains(a + b, f)
  {
    var ab := a + b;
    forall j: nat | j <= |ab| && OccursAt(ab, f, j) ensures false {
      if j + |f| <= |a| {
        assert ab[..|a|] == a;
        OccursInPrefix(ab, |a|, f, j);
        assert ab[j..j + |f|] == a[j..j + |f|];
        assert OccursAt(a, f, j);
      } else if j >= |a| {
        assert ab[|a|..] == b;
        OccursInSuffix(ab, |a|, f, j - |a|);
      } else {
        StraddleStartsEarlier(a, b, f, j);
      }
    }
  }

  /** An occurrence of a uniform delimiter that starts in `a` and ends in `b`
      means `a` ends with the delimiter's character, so in `a + f + b` the
      delimiter already occurs one character before `a` ends. */
  lemma StraddleStartsEarlier(a: string, b: string, f: string, j: nat)
    requires |f| > 0 && Uniform(f)
    requires j < |a| < j + |f| && OccursAt(a + b, f, j)
    ensures OccursAt(a + f + b, f, |a| - 1)
  {
    var ab := a + b;
    var t := a + f + b;
    assert a[|a| - 1] == ab[|a| - 1] == ab[j..j + |f|][|a| - 1 - j] == f[0];
    forall m | 0 <= m < |f| ensures t[|a| - 1 + m] == f[m] {
      if m > 0 {
        assert t[|a| - 1 + m] == f[m - 1];
      }
    }
    assert t[|a| - 1..|a| - 1 + |f|] == f;
  }

  /** Repairing a text with three uniform delimiters leaves exactly two. */
  lemma RepairLeavesTwoDelimiters(text: string, f: string)
    requires |f| > 0 && Uniform(f)
    requires |Split(text, f)| == 4
    ensures |Split(RemoveLastFormatSymbols(text, f), f)| == 3
  {
    var p := Split(text, f);
    var t1, t2 := FourPieces(text, f);
    RepairedPieces(text, f);
    var glued := p[2] + p[3];
    // the first two delimiters are found where they were ...
    SplitKeepsFirstPiece(p[0], t1, p[1] + f + glued, f);
    SplitKeepsFirstPiece(p[1], t2, glued, f);
    // ... and nothing is left to find in the glued remainder
    SplitPiecesAreFree(text, f);
    NoStraddle(p[2], p[3], f);
  }

  lemma BackticksAreUniform()
    ensures |Backticks| == 3 && Uniform(Backticks)
  {
  }

  /** Repairing a reply twice is the same as repairing it once. */
  lemma RemoveLastFormatSymbolsIdempotent(text: string)
    ensures var once := RemoveLastFormatSymbols(text, Backticks);
      RemoveLastFormatSymbols(once, Backticks) == once
  {
    BackticksAreUniform();
    if |Split(text, Backticks)| == 4 {
      RepairLeavesTwoDelimiters(text, Backticks);
    }
  }
}

/**
 * The earlier iteration of sorting and similarity that index.go still
 * carries: sorts that keep duplicates, intersections that filter an
 * index's tokens against a sorted copy of the other side, and ratios whose
 * union counts raw tokens rather than distinct keys.
 */
module Legacy {
  import opened Walkalike
  import opened Sorting
  import opened Jaccard

  /** A sorted copy that keeps every token, duplicates included. */
  method SortCopy(t: seq<Token>, dim: Dim) returns (r: seq<Token>)
    ensures Sorted(r, dim)
    ensures multiset(r) == multiset(t)
  {
    var res := new Token[|t|](i requires 0 <= i < |t| => t[i]);
    assert res[..] == t;
    SortSlice(res, dim);
    r := res[..];
  }

  /** The tokens reordered by path hash, non-decreasing; nothing is dropped. */
  method SortByPaths(t: seq<Token>) returns (r: seq<Token>)
    ensures Sorted(r, Path)
    ensures multiset(r) == multiset(t)
  {
    r := SortCopy(t, Path);
  }

  /** The tokens reordered by content hash, non-decreasing; nothing is dropped. */
  method SortByContent(t: seq<Token>) returns (r: seq<Token>)
    ensures Sorted(r, Content)
    ensures multiset(r) == multiset(t)
  {
    r := SortCopy(t, Content);
  }

  /**
   * The tokens of the index, in the index's order, whose content hash
   * occurs in `b`; never more than the index holds.
   */
  method IntersectContent(ix: Index, b: seq<Token>) returns (res: seq<Token>)
    ensures res == Filter(ix.tokens, KeySet(b, Content), Content)
    ensures |res| <= |ix.tokens|
  {
    var sb := SortByContent(b);
    KeySetOfPermutation(sb, b, Content);
    res := Intersect(ix.tokens, sb, Content);
  }

  /** The same on path hashes. */
  method IntersectPaths(ix: Index, b: seq<Token>) returns (res: seq<Token>)
    ensures res == Filter(ix.tokens, KeySet(b, Path), Path)
    ensures |res| <= |ix.tokens|
  {
    var sb := SortByPaths(b);
    KeySetOfPermutation(sb, b, Path);
    res := Intersect(ix.tokens, sb, Path);
  }

  /**
   * The older ratio: matches of `a`'s tokens in `b` over
   * |a| + |b| - matches, all counted on raw token sequences.
   */
  function LegacyRatio(a: seq<Token>, b: seq<Token>, dim: Dim): Score {
    var n := |Filter(a, KeySet(b, dim), dim)|;
    Div(n, |a| + |b| - n)
  }

  method PathSimilarityJaccard(ix: Index, other: Index) returns (s: Score)
    ensures s == LegacyRatio(ix.tokens, other.tokens, Path)
  {
    var intersect := IntersectPaths(ix, other.tokens);
    var union := |ix.tokens| + |other.tokens| - |intersect|;
    s := Div(|intersect|, union);
  }

  method ContentSimilarityJaccard(ix: Index, other: Index) returns (s: Score)
    ensures s == LegacyRatio(ix.tokens, other.tokens, Content)
  {
    var intersect := IntersectContent(ix, other.tokens);
    var union := |ix.tokens| + |other.tokens| - |intersect|;
    s := Div(|intersect|, union);
  }

  /**
   * On indexes that are already sorted and unique along the dimension the
   * older ratio is the Jaccard index of the key sets, as the current code
   * computes it.
   */
  lemma LegacyAgreesOnUnique(a: seq<Token>, b: seq<Token>, dim: Dim)
    requires StrictlyIncreasing(a, dim) && StrictlyIncreasing(b, dim)
    ensures LegacyRatio(a, b, dim) == JaccardRatio(KeySet(a, dim), KeySet(b, dim))
  {
    IntersectOfUnique(a, b, dim);
  }

  /** Two files with the same (say, empty) content, and one more such file. */
  const TwoSame: seq<Token> := [Token(1, 0), Token(2, 0)]
  const OneSame: seq<Token> := [Token(3, 0)]

  lemma SameContentKeys()
    ensures KeySet(TwoSame, Content) == {0}
    ensures KeySet(OneSame, Content) == {0}
  {
    KeySetAppend([], Token(3, 0), Content);
    assert OneSame == [] + [Token(3, 0)];
    KeySetAppend([], Token(1, 0), Content);
    assert [Token(1, 0)] == [] + [Token(1, 0)];
    KeySetAppend([Token(1, 0)], Token(2, 0), Content);
    assert TwoSame == [Token(1, 0)] + [Token(2, 0)];
  }

  /**
   * The older content ratio of TwoSame against OneSame is
   * 2 / (2 + 1 - 2) = 2, outside [0, 1].
   */
  lemma LegacyContentRatioExceedsOne()
    ensures LegacyRatio(TwoSame, OneSame, Content) == Num(2.0)
  {
    SameContentKeys();
    assert [Token(1, 0)][..0] == [];
    var f1 := Filter([Token(1, 0)], {0}, Content);
    assert f1 == [Token(1, 0)];
    assert TwoSame[..1] == [Token(1, 0)];
    var f2 := Filter(TwoSame, {0}, Content);
    assert f2 == f1 + [Token(2, 0)];
    assert |f2| == 2;
    assert LegacyRatio(TwoSame, OneSame, Content) == Div(2, 1);
  }

  /** The current code scores the same pair 1: one shared key out of one. */
  lemma CurrentContentRatioIsOne()
    ensures JaccardRatio(KeySet(TwoSame, Content), KeySet(OneSame, Content)) == Num(1.0)
  {
    SameContentKeys();
    RatioSelf({0});
  }
}

/**
 * The current similarity engine: intersection by binary search, and the
 * Jaccard index |A ∩ B| / |A ∪ B| on path hashes, on content hashes and
 * their mean.
 */
module Jaccard {
  import opened Walkalike
  import opened Sorting
  import opened Search

  /**
   * The float64 values a ratio of two counts can take: a real number, or
   * the IEEE results of dividing by zero (0/0 is NaN, n/0 is +Inf).
   */
  datatype Score = NaN | PosInf | Num(value: real)

  /** float64(n) / float64(d), with exact rather than rounded division. */
  function Div(n: nat, d: nat): Score {
    if d > 0 then Num(n as real / d as real)
    else if n == 0 then NaN
    else PosInf
  }

  /** (x + y) / 2 in IEEE arithmetic: NaN wins, then infinity. */
  function Mean(x: Score, y: Score): Score {
    if x.NaN? || y.NaN? then NaN
    else if x.PosInf? || y.PosInf? then PosInf
    else Num((x.value + y.value) / 2.0)
  }

  /** The overall, content and path similarity of two indexes. */
  datatype JaccardSimilarity = JaccardSimilarity(similarity: Score, contentSimilarity: Score, pathSimilarity: Score)

  /**
   * The tokens of `a`, in `a`'s order, that share their key with some token
   * of `b`; each is looked up in `b` by binary search, so `b` must be sorted
   * along the dimension (the callers also make `a` sorted and unique).
   */
  method Intersect(a: seq<Token>, b: seq<Token>, dim: Dim) returns (res: seq<Token>)
    requires Sorted(b, dim)
    ensures res == Filter(a, KeySet(b, dim), dim)
  {
    res := [];
    for i := 0 to |a|
      invariant res == Filter(a[..i], KeySet(b, dim), dim)
    {
      assert a[..i + 1][..i] == a[..i];
      var _, found := Find(b, a[i], dim);
      if found {
        res := res + [a[i]];
      }
    }
    assert a[..|a|] == a;
  }

  /**
   * For sorted-unique inputs the intersection is sorted and unique, it has
   * one token per shared key, so it is no longer than either input, and
   * |a| + |b| - |intersection| is the number of keys in either input.
   */
  lemma IntersectOfUnique(a: seq<Token>, b: seq<Token>, dim: Dim)
    requires StrictlyIncreasing(a, dim) && StrictlyIncreasing(b, dim)
    ensures StrictlyIncreasing(Filter(a, KeySet(b, dim), dim), dim)
    ensures |Filter(a, KeySet(b, dim), dim)| == |KeySet(a, dim) * KeySet(b, dim)|
    ensures |Filter(a, KeySet(b, dim), dim)| <= |a| && |Filter(a, KeySet(b, dim), dim)| <= |b|
    ensures |a| + |b| - |Filter(a, KeySet(b, dim), dim)| == |KeySet(a, dim) + KeySet(b, dim)|
  {
    var r := Filter(a, KeySet(b, dim), dim);
    FilterStrictlyIncreasing(a, KeySet(b, dim), dim);
    FilterKeySet(a, KeySet(b, dim), dim);
    StrictKeyCount(r, dim);
    StrictKeyCount(a, dim);
    StrictKeyCount(b, dim);
    InclusionExclusion(KeySet(a, dim), KeySet(b, dim));
  }

  /** Intersecting with an empty index gives nothing. */
  lemma IntersectWithEmpty(a: seq<Token>, dim: Dim)
    ensures Filter(a, KeySet([], dim), dim) == []
  {
    assert KeySet([], dim) == {};
    FilterNone(a, dim);
  }

  /**
   * The union size by inclusion-exclusion: shared keys, keys only in A and
   * keys only in B make up the union, which is at least as large as either
   * set and as the intersection.
   */
  lemma InclusionExclusion(A: set<uint32>, B: set<uint32>)
    ensures |A * B| + |A - B| + |B - A| == |A + B|
    ensures |A| + |B| - |A * B| == |A + B|
    ensures |A * B| <= |A| <= |A + B| && |A * B| <= |B| <= |A + B|
  {
    assert A == (A - B) + (A * B);
    assert B == (B - A) + (A * B);
    assert A + B == (A - B) + (B - A) + (A * B);
  }

  /** The Jaccard index of two key sets. */
  function JaccardRatio(A: set<uint32>, B: set<uint32>): Score {
    Div(|A * B|, |A + B|)
  }

  /**
   * The ratio is never +Inf, it is NaN exactly when both sets are empty,
   * and otherwise lies in [0, 1].
   */
  lemma RatioBounds(A: set<uint32>, B: set<uint32>)
    ensures !JaccardRatio(A, B).PosInf?
    ensures JaccardRatio(A, B).NaN? <==> A == {} && B == {}
    ensures JaccardRatio(A, B).Num? ==> 0.0 <= JaccardRatio(A, B).value <= 1.0
  {
    InclusionExclusion(A, B);
    if A + B == {} {
      assert A == {} && B == {};
    } else {
      FractionBounds(|A * B|, |A + B|);
    }
  }

  /** A count over a larger, positive count is a fraction in [0, 1]. */
  lemma FractionBounds(n: nat, d: nat)
    requires n <= d && 0 < d
    ensures 0.0 <= n as real / d as real <= 1.0
  {
    assert n as real <= d as real;
  }

  /** Swapping the sets changes nothing. */
  lemma RatioSymmetric(A: set<uint32>, B: set<uint32>)
    ensures JaccardRatio(A, B) == JaccardRatio(B, A)
  {
    assert A * B == B * A && A + B == B + A;
  }

  /** A non-empty set is fully similar to itself. */
  lemma RatioSelf(A: set<uint32>)
    requires A != {}
    ensures JaccardRatio(A, A) == Num(1.0)
  {
    assert A * A == A && A + A == A;
    assert |A| > 0;
  }

  /**
   * Path similarity of two indexes: the Jaccard index of their sets of path
   * hashes, computed from de-duplicated sorted copies.
   */
  method PathSimilarityJaccard(a: Index, b: Index) returns (s: Score)
    ensures s == JaccardRatio(KeySet(a.tokens, Path), KeySet(b.tokens, Path))
  {
    var sa := SortByPaths(a.tokens);
    var sb := SortByPaths(b.tokens);
    var intersect := Intersect(sa, sb, Path);
    IntersectOfUnique(sa, sb, Path);
    var union := |sa| + |sb| - |intersect|;
    s := Div(|intersect|, union);
  }

  /** Content similarity: the same on content hashes. */
  method ContentSimilarityJaccard(a: Index, b: Index) returns (s: Score)
    ensures s == JaccardRatio(KeySet(a.tokens, Content), KeySet(b.tokens, Content))
  {
    var sa := SortByContent(a.tokens);
    var sb := SortByContent(b.tokens);
    var intersect := Intersect(sa, sb, Content);
    IntersectOfUnique(sa, sb, Content);
    var union := |sa| + |sb| - |intersect|;
    s := Div(|intersect|, union);
  }

  /** The similarity triple of two token sequences. */
  function Similarity(a: seq<Token>, b: seq<Token>): JaccardSimilarity {
    var cs := JaccardRatio(KeySet(a, Content), KeySet(b, Content));
    var ps := JaccardRatio(KeySet(a, Path), KeySet(b, Path));
    JaccardSimilarity(Mean(cs, ps), cs, ps)
  }

  /** Both components and their mean. */
  method SimilarityJaccard(a: Index, b: Index) returns (r: JaccardSimilarity)
    ensures r == Similarity(a.tokens, b.tokens)
  {
    var cs := ContentSimilarityJaccard(a, b);
    var ps := PathSimilarityJaccard(a, b);
    r := JaccardSimilarity(Mean(cs, ps), cs, ps);
  }

  /** Comparing b with a gives the same three numbers as comparing a with b. */
  lemma SimilaritySymmetric(a: seq<Token>, b: seq<Token>)
    ensures Similarity(a, b) == Similarity(b, a)
  {
    RatioSymmetric(KeySet(a, Content), KeySet(b, Content));
    RatioSymmetric(KeySet(a, Path), KeySet(b, Path));
  }

  /**
   * All three components are NaN when both indexes are empty (the code
   * divides 0 by 0), and otherwise real numbers in [0, 1].
   */
  lemma SimilarityBounds(a: seq<Token>, b: seq<Token>)
    ensures a == [] && b == [] ==> Similarity(a, b) == JaccardSimilarity(NaN, NaN, NaN)
    ensures a != [] || b != [] ==>
      && Similarity(a, b).similarity.Num?
      && Similarity(a, b).contentSimilarity.Num?
      && Similarity(a, b).pathSimilarity.Num?
      && 0.0 <= Similarity(a, b).similarity.value <= 1.0
      && 0.0 <= Similarity(a, b).contentSimilarity.value <= 1.0
      && 0.0 <= Similarity(a, b).pathSimilarity.value <= 1.0
  {
    KeySetEmpty(a, Path);
    KeySetEmpty(b, Path);
    KeySetEmpty(a, Content);
    KeySetEmpty(b, Content);
    RatioBounds(KeySet(a, Content), KeySet(b, Content));
    RatioBounds(KeySet(a, Path), KeySet(b, Path));
  }

  /** A non-empty index is fully similar to itself on every component. */
  lemma SelfSimilarity(a: seq<Token>)
    requires a != []
    ensures Similarity(a, a) == JaccardSimilarity(Num(1.0), Num(1.0), Num(1.0))
  {
    KeySetEmpty(a, Path);
    KeySetEmpty(a, Content);
    RatioSelf(KeySet(a, Path));
    RatioSelf(KeySet(a, Content));
  }

  /** The test fixtures: tokens whose path and content hashes coincide. */
  const T12: seq<Token> := [Token(1, 1), Token(2, 2)]
  const T23: seq<Token> := [Token(2, 2), Token(3, 3)]
  const T123: seq<Token> := [Token(1, 1), Token(2, 2), Token(3, 3)]
  const T1: seq<Token> := [Token(1, 1)]
  const T2: seq<Token> := [Token(2, 2)]
  const T3: seq<Token> := [Token(3, 3)]

  lemma FixtureKeys(dim: Dim)
    ensures KeySet(T12, dim) == {1, 2}
    ensures KeySet(T23, dim) == {2, 3}
    ensures KeySet(T123, dim) == {1, 2, 3}
    ensures KeySet(T1, dim) == {1}
    ensures KeySet(T2, dim) == {2}
    ensures KeySet(T3, dim) == {3}
  {
    KeySetAppend([], Token(3, 3), dim);
    assert T3 == [] + [Token(3, 3)];
    KeySetAppend([], Token(2, 2), dim);
    assert [Token(2, 2)] == [] + [Token(2, 2)];
    KeySetAppend([Token(1, 1)], Token(2, 2), dim);
    KeySetAppend([], Token(1, 1), dim);
    assert [Token(1, 1)] == [] + [Token(1, 1)];
    KeySetAppend([Token(2, 2)], Token(3, 3), dim);
    KeySetAppend(T12, Token(3, 3), dim);
    assert T123 == T12 + [Token(3, 3)];
  }

  /** A ratio whose counts are known. */
  lemma RatioOf(A: set<uint32>, B: set<uint32>, n: nat, d: nat)
    requires |A * B| == n && |A + B| == d && d > 0
    ensures JaccardRatio(A, B) == Num(n as real / d as real)
  {
  }

  /** t12 against t23: one shared file out of three. */
  lemma ScoreT12T23()
    ensures Similarity(T12, T23).similarity == Num(1.0 / 3.0)
  {
    FixtureKeys(Path);
    FixtureKeys(Content);
    assert {1, 2} * {2, 3} == {2} && {1, 2} + {2, 3} == {1, 2, 3};
    RatioOf({1, 2}, {2, 3}, 1, 3);
  }

  /** t12 against t123: two shared files out of three. */
  lemma ScoreT12T123()
    ensures Similarity(T12, T123).similarity == Num(2.0 / 3.0)
  {
    FixtureKeys(Path);
    FixtureKeys(Content);
    assert {1, 2} * {1, 2, 3} == {1, 2} && {1, 2} + {1, 2, 3} == {1, 2, 3};
    RatioOf({1, 2}, {1, 2, 3}, 2, 3);
  }

  /** t12 against t2: one shared file out of two. */
  lemma ScoreT12T2()
    ensures Similarity(T12, T2).similarity == Num(0.5)
  {
    FixtureKeys(Path);
    FixtureKeys(Content);
    assert {1, 2} * {2} == {2} && {1, 2} + {2} == {1, 2};
    RatioOf({1, 2}, {2}, 1, 2);
  }

  /** t23 against t123: two shared files out of three. */
  lemma ScoreT23T123()
    ensures Similarity(T23, T123).similarity == Num(2.0 / 3.0)
  {
    FixtureKeys(Path);
    FixtureKeys(Content);
    assert {2, 3} * {1, 2, 3} == {2, 3} && {2, 3} + {1, 2, 3} == {1, 2, 3};
    RatioOf({2, 3}, {1, 2, 3}, 2, 3);
  }

  /** t23 against t2: one shared file out of two. */
  lemma ScoreT23T2()
    ensures Similarity(T23, T2).similarity == Num(0.5)
  {
    FixtureKeys(Path);
    FixtureKeys(Content);
    assert {2, 3} * {2} == {2} && {2, 3} + {2} == {2, 3};
    RatioOf({2, 3}, {2}, 1, 2);
  }

  /** t123 against t2: one shared file out of three. */
  lemma ScoreT123T2()
    ensures Similarity(T123, T2).similarity == Num(1.0 / 3.0)
  {
    FixtureKeys(Path);
    FixtureKeys(Content);
    assert {1, 2, 3} * {2} == {2} && {1, 2, 3} + {2} == {1, 2, 3};
    RatioOf({1, 2, 3}, {2}, 1, 3);
  }

  /** t2, t12 and t123 each score 1 against themselves. */
  lemma ScoreSelf()
    ensures Similarity(T2, T2).similarity == Num(1.0)
    ensures Similarity(T12, T12).similarity == Num(1.0)
    ensures Similarity(T123, T123).similarity == Num(1.0)
  {
    SelfSimilarity(T2);
    SelfSimilarity(T12);
    SelfSimilarity(T123);
  }

  /** The intersection test cases (which all compare content). */
  lemma IntersectTestCases()
    ensures Filter(T12, KeySet(T23, Content), Content) == T2
    ensures Filter(T12, KeySet(T123, Content), Content) == T12
    ensures Filter(T12, KeySet(T2, Content), Content) == T2
    ensures Filter(T123, KeySet([], Content), Content) == []
  {
    FixtureKeys(Content);
    IntersectWithEmpty(T123, Content);
    assert T12[..1] == [Token(1, 1)];
    assert [Token(1, 1)][..0] == [];
  }

  /** The test cases that intersect t123 with a part of itself. */
  lemma IntersectT123Cases()
    ensures Filter(T123, KeySet(T12, Content), Content) == T12
    ensures Filter(T123, KeySet(T23, Content), Content) == T23
    ensures Filter(T123, KeySet(T1, Content), Content) == T1
    ensures Filter(T123, KeySet(T2, Content), Content) == T2
    ensures Filter(T123, KeySet(T3, Content), Content) == T3
  {
    FixtureKeys(Content);
    FilterT123({1, 2});
    FilterT123({2, 3});
    FilterT123({1});
    FilterT123({2});
    FilterT123({3});
  }

  /** Filtering t123 keeps each of its three tokens whose key is wanted. */
  lemma FilterT123(keys: set<uint32>)
    ensures Filter(T123, keys, Content)
      == (if 1 in keys then [Token(1, 1)] else [])
       + (if 2 in keys then [Token(2, 2)] else [])
       + (if 3 in keys then [Token(3, 3)] else [])
  {
    assert T123[..2] == T12 && T12[..1] == T1 && T1[..0] == [];
    var f1 := Filter(T1, keys, Content);
    assert f1 == (if 1 in keys then [Token(1, 1)] else []);
    var f2 := Filter(T12, keys, Content);
    assert f2 == f1 + (if 2 in keys then [Token(2, 2)] else []);
    assert Filter(T123, keys, Content) == f2 + (if 3 in keys then [Token(3, 3)] else []);
  }
}

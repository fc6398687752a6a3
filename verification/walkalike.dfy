/**
 * The fingerprint data model of walkalike: tokens, the index they are
 * appended to, the two comparators, and the predicates and reference
 * functions the rest of the model is specified with.
 */
module Walkalike {

  /** Go's uint32. */
  type uint32 = x: int | 0 <= x < 0x1_0000_0000

  /** One file's fingerprint: the checksum of its path and of its content. */
  datatype Token = Token(pathHash: uint32, contentHash: uint32)

  /** An index: the tokens of one tree, in the order they were added. */
  class Index {
    var tokens: seq<Token>

    constructor (tokens: seq<Token>)
      ensures this.tokens == tokens
    {
      this.tokens := tokens;
    }

    /** Appends one token; every earlier token stays where it was. */
    method Add(pathHash: uint32, contentHash: uint32)
      modifies this
      ensures tokens == old(tokens) + [Token(pathHash, contentHash)]
    {
      tokens := tokens + [Token(pathHash, contentHash)];
    }
  }

  /**
   * The dimension two tokens are compared on: Path stands for ComparePaths,
   * Content for CompareContent.
   */
  datatype Dim = Path | Content

  function Key(dim: Dim, t: Token): uint32 {
    match dim
    case Path => t.pathHash
    case Content => t.contentHash
  }

  /** 1, -1 or 0 as the first path hash is above, below or equal to the second. */
  function ComparePaths(a: Token, b: Token): (r: int)
    ensures r == 1 <==> a.pathHash > b.pathHash
    ensures r == -1 <==> a.pathHash < b.pathHash
    ensures r == 0 <==> a.pathHash == b.pathHash
  {
    if a.pathHash > b.pathHash then 1
    else if a.pathHash < b.pathHash then -1
    else 0
  }

  /** 1, -1 or 0 as the first content hash is above, below or equal to the second. */
  function CompareContent(a: Token, b: Token): (r: int)
    ensures r == 1 <==> a.contentHash > b.contentHash
    ensures r == -1 <==> a.contentHash < b.contentHash
    ensures r == 0 <==> a.contentHash == b.contentHash
  {
    if a.contentHash > b.contentHash then 1
    else if a.contentHash < b.contentHash then -1
    else 0
  }

  /** The comparator passed as `cmp` for a dimension. */
  function Compare(dim: Dim, a: Token, b: Token): (r: int)
    ensures r > 0 <==> Key(dim, a) > Key(dim, b)
    ensures r < 0 <==> Key(dim, a) < Key(dim, b)
    ensures r == 0 <==> Key(dim, a) == Key(dim, b)
  {
    match dim
    case Path => ComparePaths(a, b)
    case Content => CompareContent(a, b)
  }

  /** Both comparators are antisymmetric and only ever return -1, 0 or 1. */
  lemma CompareAntisymmetric(dim: Dim, a: Token, b: Token)
    ensures Compare(dim, a, b) == -Compare(dim, b, a)
    ensures Compare(dim, a, b) in {-1, 0, 1}
  {
  }

  /** Non-decreasing along the dimension. */
  predicate Sorted(s: seq<Token>, dim: Dim) {
    forall i, j :: 0 <= i < j < |s| ==> Key(dim, s[i]) <= Key(dim, s[j])
  }

  /** Sorted with no two tokens sharing a key: "sorted and unique". */
  predicate StrictlyIncreasing(s: seq<Token>, dim: Dim) {
    forall i, j :: 0 <= i < j < |s| ==> Key(dim, s[i]) < Key(dim, s[j])
  }

  /** The set of keys a sequence of tokens carries on a dimension. */
  function KeySet(s: seq<Token>, dim: Dim): set<uint32> {
    set t | t in s :: Key(dim, t)
  }

  /** The tokens of `a`, in `a`'s order, whose key is one of `keys`. */
  function Filter(a: seq<Token>, keys: set<uint32>, dim: Dim): (r: seq<Token>)
    ensures |r| <= |a|
  {
    if a == [] then []
    else Filter(a[..|a| - 1], keys, dim) + (if Key(dim, a[|a| - 1]) in keys then [a[|a| - 1]] else [])
  }

  /** A token is kept by Filter exactly when it is in `a` with a key in `keys`. */
  lemma {:induction false} FilterMembers(a: seq<Token>, keys: set<uint32>, dim: Dim)
    ensures forall t :: t in Filter(a, keys, dim) <==> t in a && Key(dim, t) in keys
  {
    if a != [] {
      var p := a[..|a| - 1];
      FilterMembers(p, keys, dim);
      assert a == p + [a[|a| - 1]];
    }
  }

  /** Filtering by no keys at all keeps nothing. */
  lemma {:induction false} FilterNone(a: seq<Token>, dim: Dim)
    ensures Filter(a, {}, dim) == []
  {
    if a != [] {
      FilterNone(a[..|a| - 1], dim);
    }
  }

  /** The keys of the filtered tokens are the keys of `a` that are in `keys`. */
  lemma FilterKeySet(a: seq<Token>, keys: set<uint32>, dim: Dim)
    ensures KeySet(Filter(a, keys, dim), dim) == KeySet(a, dim) * keys
  {
    FilterMembers(a, keys, dim);
  }

  /** A filtered subsequence of a sorted-unique sequence is sorted-unique. */
  lemma {:induction false} FilterStrictlyIncreasing(a: seq<Token>, keys: set<uint32>, dim: Dim)
    requires StrictlyIncreasing(a, dim)
    ensures StrictlyIncreasing(Filter(a, keys, dim), dim)
  {
    if a != [] {
      var p := a[..|a| - 1];
      var last := a[|a| - 1];
      FilterStrictlyIncreasing(p, keys, dim);
      FilterMembers(p, keys, dim);
      var fp := Filter(p, keys, dim);
      forall k | 0 <= k < |fp|
        ensures Key(dim, fp[k]) < Key(dim, last)
      {
        assert fp[k] in p;
      }
    }
  }

  /** In a sorted-unique sequence every token has its own key: |keys| == |s|. */
  lemma {:induction false} StrictKeyCount(s: seq<Token>, dim: Dim)
    requires StrictlyIncreasing(s, dim)
    ensures |KeySet(s, dim)| == |s|
  {
    if s != [] {
      var p := s[..|s| - 1];
      var last := s[|s| - 1];
      StrictKeyCount(p, dim);
      assert s == p + [last];
      KeySetAppend(p, last, dim);
      assert Key(dim, last) !in KeySet(p, dim);
    }
  }

  lemma KeySetAppend(p: seq<Token>, x: Token, dim: Dim)
    ensures KeySet(p + [x], dim) == KeySet(p, dim) + {Key(dim, x)}
  {
    forall t | t in p + [x] ensures t in p || t == x {}
  }

  /** Sequences with the same tokens, counted with multiplicity, carry the same keys. */
  lemma KeySetOfPermutation(s: seq<Token>, t: seq<Token>, dim: Dim)
    requires multiset(s) == multiset(t)
    ensures KeySet(s, dim) == KeySet(t, dim)
  {
    forall x | x in s ensures x in t {
      assert x in multiset(s);
    }
    forall x | x in t ensures x in s {
      assert x in multiset(t);
    }
  }

  /** The empty index carries no keys, and only the empty index does. */
  lemma KeySetEmpty(s: seq<Token>, dim: Dim)
    ensures KeySet(s, dim) == {} <==> s == []
  {
    if s != [] {
      assert Key(dim, s[0]) in KeySet(s, dim);
    }
  }
}

/**
 * The de-duplicating sorts: copy the tokens into a fresh buffer, sort the
 * buffer in place along one dimension, then compact runs of equal keys in
 * place and keep the compacted prefix.
 */
module Sorting {
  import opened Walkalike

  /**
   * slices.SortFunc with ComparePaths or CompareContent: sorts the buffer in
   * place. Insertion sort stands in for the library's algorithm; neither is
   * promised to be stable, so which of several tokens with equal keys comes
   * first is left open.
   */
  method SortSlice(a: array<Token>, dim: Dim)
    modifies a
    ensures Sorted(a[..], dim)
    ensures multiset(a[..]) == old(multiset(a[..]))
  {
    var i := 0;
    while i < a.Length
      invariant 0 <= i <= a.Length
      invariant forall p, q :: 0 <= p < q < i ==> Key(dim, a[p]) <= Key(dim, a[q])
      invariant multiset(a[..]) == old(multiset(a[..]))
    {
      InsertLast(a, dim, i);
      i := i + 1;
    }
  }

  /** One step of the insertion sort: sinks a[i] into the sorted prefix a[..i]. */
  method InsertLast(a: array<Token>, dim: Dim, i: nat)
    requires i < a.Length
    requires forall p, q :: 0 <= p < q < i ==> Key(dim, a[p]) <= Key(dim, a[q])
    modifies a
    ensures forall p, q :: 0 <= p < q <= i ==> Key(dim, a[p]) <= Key(dim, a[q])
    ensures multiset(a[..]) == old(multiset(a[..]))
  {
    var j := i;
    while j > 0 && Key(dim, a[j - 1]) > Key(dim, a[j])
      invariant 0 <= j <= i
      invariant forall p, q :: 0 <= p < q <= i && p != j && q != j ==> Key(dim, a[p]) <= Key(dim, a[q])
      invariant forall q :: j < q <= i ==> Key(dim, a[j]) <= Key(dim, a[q])
      invariant multiset(a[..]) == old(multiset(a[..]))
    {
      Swap(a, j - 1, j);
      j := j - 1;
    }
  }

  method Swap(a: array<Token>, i: nat, j: nat)
    requires i < j < a.Length
    modifies a
    ensures a[i] == old(a[j]) && a[j] == old(a[i])
    ensures forall m :: 0 <= m < a.Length && m != i && m != j ==> a[m] == old(a[m])
    ensures multiset(a[..]) == old(multiset(a[..]))
  {
    a[i], a[j] := a[j], a[i];
  }

  /**
   * What slices.CompactFunc keeps of a sequence when equality means "same
   * key": the first token of every run of consecutive tokens sharing a key.
   */
  function Compacted(s: seq<Token>, dim: Dim): (r: seq<Token>)
    ensures |r| <= |s|
  {
    if |s| <= 1 then s
    else Compacted(s[..|s| - 1], dim)
         + (if Key(dim, s[|s| - 1]) == Key(dim, s[|s| - 2]) then [] else [s[|s| - 1]])
  }

  /**
   * slices.CompactFunc: moves the first token of every run to the front of
   * the buffer and returns the length of the compacted prefix. Like the
   * library it first scans for the first duplicate, then copies forward,
   * comparing each token with its original predecessor.
   */
  method CompactSlice(a: array<Token>, dim: Dim) returns (k: nat)
    modifies a
    ensures k <= a.Length
    ensures a[..k] == Compacted(old(a[..]), dim)
  {
    ghost var s := a[..];
    if a.Length < 2 {
      return a.Length;
    }
    k := 1;
    while k < a.Length
      invariant 1 <= k <= a.Length
      invariant a[..] == s
      invariant Compacted(s[..k], dim) == s[..k]
    {
      assert s[..k + 1][..k] == s[..k];
      if Key(dim, a[k]) == Key(dim, a[k - 1]) {
        k := CompactFrom(a, dim, k);
        return;
      }
      k := k + 1;
    }
    assert s[..a.Length] == s;
  }

  /**
   * The copying phase of CompactSlice, entered at the first token `w` that
   * repeats its predecessor's key: every later token that starts a new run
   * is moved down to the next free slot.
   */
  method CompactFrom(a: array<Token>, dim: Dim, w: nat) returns (k: nat)
    requires 1 <= w < a.Length
    requires Key(dim, a[w]) == Key(dim, a[w - 1])
    requires Compacted(a[..w], dim) == a[..w]
    modifies a
    ensures k <= a.Length
    ensures a[..k] == Compacted(old(a[..]), dim)
  {
    ghost var s := a[..];
    CompactedStep(s, w, dim);
    k := w;
    var r := w + 1;
    while r < a.Length
      invariant 1 <= k < r <= a.Length
      invariant a[..k] == Compacted(s[..r], dim)
      invariant forall q :: k <= q < a.Length ==> a[q] == s[q]
    {
      CompactedStep(s, r, dim);
      if Key(dim, a[r]) != Key(dim, a[r - 1]) {
        ghost var kept := a[..k];
        a[k] := a[r];
        assert a[..k + 1] == kept + [s[r]];
        k := k + 1;
      }
      r := r + 1;
    }
    assert s[..a.Length] == s;
  }

  /** Extending a prefix by one token extends its compaction by that token or by nothing. */
  lemma CompactedStep(s: seq<Token>, r: nat, dim: Dim)
    requires 1 <= r < |s|
    ensures Compacted(s[..r + 1], dim)
      == Compacted(s[..r], dim) + (if Key(dim, s[r]) == Key(dim, s[r - 1]) then [] else [s[r]])
  {
    assert s[..r + 1][..r] == s[..r];
  }

  /** Compaction keeps only tokens of its input. */
  lemma {:induction false} CompactedMembers(s: seq<Token>, dim: Dim)
    ensures forall t :: t in Compacted(s, dim) ==> t in s
  {
    if |s| > 1 {
      var p := s[..|s| - 1];
      CompactedMembers(p, dim);
      assert s == p + [s[|s| - 1]];
    }
  }

  /** Compaction loses no key and invents none. */
  lemma {:induction false} CompactedKeySet(s: seq<Token>, dim: Dim)
    ensures KeySet(Compacted(s, dim), dim) == KeySet(s, dim)
  {
    if |s| > 1 {
      var p := s[..|s| - 1];
      var last := s[|s| - 1];
      CompactedKeySet(p, dim);
      assert s == p + [last];
      KeySetAppend(p, last, dim);
      if Key(dim, last) == Key(dim, s[|s| - 2]) {
        assert s[|s| - 2] in p;
      } else {
        KeySetAppend(Compacted(p, dim), last, dim);
      }
    }
  }

  /** Compacting a sorted sequence leaves it sorted and unique. */
  lemma {:induction false} CompactedStrictlyIncreasing(s: seq<Token>, dim: Dim)
    requires Sorted(s, dim)
    ensures StrictlyIncreasing(Compacted(s, dim), dim)
  {
    if |s| > 1 {
      var p := s[..|s| - 1];
      var last := s[|s| - 1];
      assert Sorted(p, dim);
      CompactedStrictlyIncreasing(p, dim);
      CompactedMembers(p, dim);
      var cp := Compacted(p, dim);
      if Key(dim, last) != Key(dim, s[|s| - 2]) {
        forall k | 0 <= k < |cp|
          ensures Key(dim, cp[k]) < Key(dim, last)
        {
          assert cp[k] in p;
          var m :| 0 <= m < |p| && p[m] == cp[k];
          assert Key(dim, s[m]) <= Key(dim, s[|s| - 2]);
        }
      }
    }
  }

  /** A sequence that is already sorted and unique is left as it is. */
  lemma {:induction false} CompactedOfStrict(s: seq<Token>, dim: Dim)
    requires StrictlyIncreasing(s, dim)
    ensures Compacted(s, dim) == s
  {
    if |s| > 1 {
      var p := s[..|s| - 1];
      assert StrictlyIncreasing(p, dim);
      CompactedOfStrict(p, dim);
      assert Key(dim, s[|s| - 2]) < Key(dim, s[|s| - 1]);
      assert s == p + [s[|s| - 1]];
    }
  }

  /**
   * Two arrangements of the same tokens, both sorted and one of them unique,
   * are the same sequence: sorting a sorted-unique sequence changes nothing.
   */
  lemma {:induction false} SortedPermutationOfStrict(s: seq<Token>, t: seq<Token>, dim: Dim)
    requires Sorted(s, dim) && StrictlyIncreasing(t, dim)
    requires multiset(s) == multiset(t)
    ensures s == t
  {
    assert |s| == |multiset(s)| == |multiset(t)| == |t|;
    if |t| > 0 {
      SameFirst(s, t, dim);
      MultisetTail(s, t);
      SortedPermutationOfStrict(s[1..], t[1..], dim);
      assert s == [s[0]] + s[1..] && t == [t[0]] + t[1..];
    }
  }

  lemma SameFirst(s: seq<Token>, t: seq<Token>, dim: Dim)
    requires Sorted(s, dim) && StrictlyIncreasing(t, dim)
    requires multiset(s) == multiset(t) && |s| > 0 && |t| > 0
    ensures s[0] == t[0]
  {
    assert s[0] in multiset(t);
    var j :| 0 <= j < |t| && t[j] == s[0];
    assert t[0] in multiset(s);
    var i :| 0 <= i < |s| && s[i] == t[0];
    assert Key(dim, s[0]) <= Key(dim, s[i]);
  }

  lemma MultisetTail(s: seq<Token>, t: seq<Token>)
    requires multiset(s) == multiset(t) && |s| > 0 && |t| > 0 && s[0] == t[0]
    ensures multiset(s[1..]) == multiset(t[1..])
  {
    assert s == [s[0]] + s[1..];
    assert t == [t[0]] + t[1..];
    forall x ensures multiset(s[1..])[x] == multiset(t[1..])[x] {
      assert multiset(s)[x] == multiset{s[0]}[x] + multiset(s[1..])[x];
      assert multiset(t)[x] == multiset{t[0]}[x] + multiset(t[1..])[x];
    }
  }

  /**
   * The shared body of SortByPaths and SortByContent: a sorted, unique copy
   * carrying exactly the keys of `t`, built only from tokens of `t`.
   */
  method SortUnique(t: seq<Token>, dim: Dim) returns (r: seq<Token>)
    ensures StrictlyIncreasing(r, dim)
    ensures KeySet(r, dim) == KeySet(t, dim)
    ensures forall x :: x in r ==> x in t
    ensures |r| <= |t|
    ensures StrictlyIncreasing(t, dim) ==> r == t
  {
    var res := new Token[|t|](i requires 0 <= i < |t| => t[i]);
    assert res[..] == t;
    SortSlice(res, dim);
    ghost var sorted := res[..];
    var k := CompactSlice(res, dim);
    r := res[..k];
    CompactedStrictlyIncreasing(sorted, dim);
    CompactedKeySet(sorted, dim);
    KeySetOfPermutation(sorted, t, dim);
    CompactedMembers(sorted, dim);
    forall x | x in r ensures x in t {
      assert x in multiset(sorted);
    }
    assert |sorted| == |multiset(sorted)|;
    if StrictlyIncreasing(t, dim) {
      SortedPermutationOfStrict(sorted, t, dim);
      CompactedOfStrict(t, dim);
    }
  }

  /**
   * A new slice sorted by path hash with duplicate path hashes removed; the
   * caller's tokens are copied, never touched.
   */
  method SortByPaths(t: seq<Token>) returns (r: seq<Token>)
    ensures StrictlyIncreasing(r, Path)
    ensures KeySet(r, Path) == KeySet(t, Path)
    ensures forall x :: x in r ==> x in t
    ensures |r| <= |t|
    ensures StrictlyIncreasing(t, Path) ==> r == t
  {
    r := SortUnique(t, Path);
  }

  /** The same on content hashes. */
  method SortByContent(t: seq<Token>) returns (r: seq<Token>)
    ensures StrictlyIncreasing(r, Content)
    ensures KeySet(r, Content) == KeySet(t, Content)
    ensures forall x :: x in r ==> x in t
    ensures |r| <= |t|
    ensures StrictlyIncreasing(t, Content) ==> r == t
  {
    r := SortUnique(t, Content);
  }
}

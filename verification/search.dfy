/**
 * The membership probe used by the intersections: sort.Find over a
 * sequence sorted along one dimension, with the closure
 * `j => cmp(x, b[j])` written out as Compare(dim, x, b[j]).
 */
module Search {
  import opened Walkalike

  /**
   * Binary search for the first index whose token is not below `x`:
   * `i` is that index (|b| if there is none) and `found` says whether the
   * token there has `x`'s key, which is the case exactly when some token of
   * `b` has it.
   */
  method Find(b: seq<Token>, x: Token, dim: Dim) returns (i: nat, found: bool)
    requires Sorted(b, dim)
    ensures i <= |b|
    ensures forall j :: 0 <= j < i ==> Compare(dim, x, b[j]) > 0
    ensures i < |b| ==> Compare(dim, x, b[i]) <= 0
    ensures found <==> i < |b| && Compare(dim, x, b[i]) == 0
    ensures found <==> Key(dim, x) in KeySet(b, dim)
  {
    var lo, hi := 0, |b|;
    while lo < hi
      invariant 0 <= lo <= hi <= |b|
      invariant forall j :: 0 <= j < lo ==> Compare(dim, x, b[j]) > 0
      invariant forall j :: hi <= j < |b| ==> Compare(dim, x, b[j]) <= 0
    {
      var h := (lo + hi) / 2;
      if Compare(dim, x, b[h]) > 0 {
        lo := h + 1;
      } else {
        hi := h;
      }
    }
    i := lo;
    found := i < |b| && Compare(dim, x, b[i]) == 0;
    if Key(dim, x) in KeySet(b, dim) {
      var t :| t in b && Key(dim, t) == Key(dim, x);
      var m :| 0 <= m < |b| && b[m] == t;
      assert i <= m;
    }
  }
}

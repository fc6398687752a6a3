# walkalike in Dafny

walkalike fingerprints directory trees and tells how alike two trees are.
Each regular file becomes a *token*: a pair of 32-bit checksums, one of the
file's path and one of its content. A tree is an *index*, the sequence of
its tokens. Two indexes are compared with the Jaccard index
|A ∩ B| / |A ∪ B|. It is computed once on the sets of path hashes and once
on the sets of content hashes, and the overall similarity is the mean of
the two.

This project models the core of walkalike and proves its properties. The
modules are:

- `Walkalike` (walkalike.dfy). The `Token` datatype and the `Index` class,
  whose `Add` appends in place. It has both comparators and a `Dim`ension
  that stands for the comparator passed as `cmp`. It also holds the
  reference definitions the rest is specified with: `Sorted`,
  `StrictlyIncreasing` (sorted and unique), `KeySet` (the set of hashes of a
  dimension) and `Filter` (the tokens whose key is in a set).
- `Sorting` (sorting.dfy). The de-duplicating `SortByPaths` and
  `SortByContent`. Each copies the tokens into a fresh array, sorts it in
  place and compacts runs of equal keys in place, as `slices.CompactFunc`
  does.
- `Search` (search.dfy). `sort.Find` as a binary search over a sorted
  sequence.
- `Jaccard` (jaccard.dfy). `Intersect` and the three similarities. A float64
  result is a `Score`: a real number, NaN (0/0) or +Inf (n/0).
- `Legacy` (legacy.dfy). The older sort, intersection and ratio that
  index.go still carries. Its sorts keep duplicates and its ratio counts raw
  tokens.
- `Guestfs` (guestfs.dfy). The virt-ls CSV adapter, reading records that
  are already split into fields. It includes `strconv.ParseUint(s, 10, 32)`
  with its syntax and range errors, and the `uint32` conversion.

Go's `ChecksumPath` (CRC of the cleaned path) is a parameter
`checksumPath: string -> uint32` of `ReadAll`. checksum.go is not part of
this model.

Similarity results are stated two ways: as a function of the tokens
(`Jaccard.Similarity`), and as the methods that compute them the way the
code does. The method contracts tie the two together. The lemmas then state
the following about the functions:

- symmetry;
- the range [0, 1];
- NaN exactly when both sides are empty;
- self-similarity 1;
- the expected values from index_test.go.

## Model

| member | source | states |
|---|---|---|
| Walkalike.Index.constructor | index.go:12-14 | an index holds exactly the tokens it is built with |
| Walkalike.Index.Add | index.go:26-32 | the new token is appended at the end, and every earlier token stays where it was |
| Walkalike.ComparePaths | sort.go:5-13 | 1, -1 or 0 exactly when the first path hash is greater than, less than or equal to the second |
| Walkalike.CompareContent | sort.go:15-23 | 1, -1 or 0 exactly when the first content hash is greater than, less than or equal to the second |
| Walkalike.Compare | jaccard.go:8 | the `cmp` argument: positive, negative or zero exactly as the keys of the chosen dimension compare |
| Walkalike.CompareAntisymmetric | sort.go:5-23 | swapping the arguments negates the result, and the result is always -1, 0 or 1 |
| Walkalike.FilterMembers | jaccard.go:11-19 | a token is kept exactly when it is in `a` and its key is among the given keys |
| Walkalike.FilterKeySet | jaccard.go:11-19 | the keys of the kept tokens are the keys of `a` that are also in the given key set |
| Walkalike.FilterStrictlyIncreasing | jaccard.go:5-8 | keeping a subsequence of a sorted, unique input leaves it sorted and unique |
| Walkalike.StrictKeyCount | sort.go:25-27 | a sorted, unique sequence has exactly one token per distinct key |
| Walkalike.KeySetOfPermutation | sort.go:28-33 | reordering tokens changes none of their keys |
| Walkalike.KeySetEmpty | jaccard.go:29 | an index has no keys exactly when it has no tokens |
| Sorting.SortSlice | sort.go:31-33 | after `slices.SortFunc` the buffer is non-decreasing on the dimension and is a permutation of the tokens it held |
| Sorting.CompactSlice | sort.go:35-37 | after `slices.CompactFunc`, the kept prefix is the first token of every run of equal keys, in order |
| Sorting.CompactedMembers | sort.go:35-37 | compaction keeps only tokens of its input |
| Sorting.CompactedKeySet | sort.go:35-37 | compaction neither loses nor invents a key |
| Sorting.CompactedStrictlyIncreasing | sort.go:31-37 | compacting a sorted buffer makes it sorted and unique |
| Sorting.CompactedOfStrict | sort.go:35-37 | a sorted, unique buffer is left as it is by compaction |
| Sorting.SortedPermutationOfStrict | sort.go:31-33 | a sorted arrangement of a sorted, unique sequence's tokens is that sequence |
| Sorting.SortByPaths | sort.go:25-38 | a new sequence, sorted and unique by path hash, with exactly the input's path hashes, built only from input tokens, no longer than the input, and equal to the input when it is already sorted and unique |
| Sorting.SortByContent | sort.go:40-53 | the same, by content hash |
| Search.Find | jaccard.go:12-14 | the first position whose token is not below `x`, and `found` is true exactly when some token of `b` has `x`'s key |
| Jaccard.Intersect | jaccard.go:5-22 | the tokens of `a`, in `a`'s order, whose key occurs in `b` |
| Jaccard.IntersectOfUnique | jaccard.go:5-22 | for sorted, unique inputs the result is sorted and unique, has one token per shared key, is no longer than either input, and `len(as) + len(bs) - len(intersect)` is the number of distinct keys in either input |
| Jaccard.IntersectWithEmpty | index_test.go:58 | intersecting with an empty sequence gives an empty one |
| Jaccard.InclusionExclusion | jaccard.go:29 | the union is made of the shared keys and the keys on one side only, and its size is |A| + |B| - |A ∩ B| |
| Jaccard.RatioBounds | jaccard.go:31 | the Jaccard index is never +Inf; it is NaN exactly when both key sets are empty, and otherwise lies in [0, 1] |
| Jaccard.RatioSymmetric | jaccard.go:24-42 | swapping the two key sets leaves the ratio unchanged |
| Jaccard.RatioSelf | jaccard.go:24-42 | a non-empty key set has ratio 1 with itself |
| Jaccard.PathSimilarityJaccard | jaccard.go:24-32 | the result is the Jaccard index of the two indexes' sets of path hashes |
| Jaccard.ContentSimilarityJaccard | jaccard.go:34-42 | the result is the Jaccard index of the two indexes' sets of content hashes |
| Jaccard.SimilarityJaccard | jaccard.go:44-69 | content similarity, path similarity and their mean |
| Jaccard.SimilaritySymmetric | jaccard.go:60-69 | comparing b with a gives the same three numbers as comparing a with b |
| Jaccard.SimilarityBounds | jaccard.go:60-69 | all three numbers are NaN when both indexes are empty; otherwise all three are real numbers in [0, 1] |
| Jaccard.SelfSimilarity | index_test.go:94-96 | a non-empty index has similarity 1 with itself on all three numbers |
| Jaccard.ScoreT12T23 | index_test.go:88 | t12 against t23 scores 1/3 |
| Jaccard.ScoreT12T123 | index_test.go:89 | t12 against t123 scores 2/3 |
| Jaccard.ScoreT12T2 | index_test.go:90 | t12 against t2 scores 1/2 |
| Jaccard.ScoreT23T123 | index_test.go:91 | t23 against t123 scores 2/3 |
| Jaccard.ScoreT23T2 | index_test.go:92 | t23 against t2 scores 1/2 |
| Jaccard.ScoreT123T2 | index_test.go:93 | t123 against t2 scores 1/3 |
| Jaccard.ScoreSelf | index_test.go:94-96 | t2, t12 and t123 each score 1 against themselves |
| Jaccard.IntersectTestCases | index_test.go:50-58 | the content intersections of t12 with t23, t123 and t2, and of t123 with the empty sequence, are t2, t12, t2 and empty |
| Jaccard.IntersectT123Cases | index_test.go:53-57 | the content intersections of t123 with t12, t23, t1, t2 and t3 are t12, t23, t1, t2 and t3 |
| Legacy.SortByPaths | index.go:54-62 | a copy sorted by path hash, permuting the input and keeping duplicates |
| Legacy.SortByContent | index.go:64-72 | a copy sorted by content hash, permuting the input and keeping duplicates |
| Legacy.IntersectContent | index.go:105-126 | the index's tokens, in the index's order, whose content hash occurs in `b`; never more than the index holds |
| Legacy.IntersectPaths | index.go:128-149 | the same on path hashes |
| Legacy.PathSimilarityJaccard | index.go:166-174 | matches over `len(a) + len(b) - matches`, counted on raw tokens, by path hash |
| Legacy.ContentSimilarityJaccard | index.go:176-184 | the same by content hash |
| Legacy.LegacyAgreesOnUnique | index.go:169-184 | on inputs that are already sorted and unique, the older ratio equals the Jaccard index of the key sets |
| Legacy.LegacyContentRatioExceedsOne | index.go:179-184 | two files with the same content compared with one more such file score 2 |
| Legacy.CurrentContentRatioIsOne | jaccard.go:34-42 | the current code scores that same pair 1 |
| Guestfs.ParseUintCorrect | guestfs.go:49-52 | the checksum field parses exactly when it is a non-empty string of decimal digits whose value fits in 32 bits, and the result is that value |
| Guestfs.ConversionLossless | guestfs.go:54 | `uint32(cksum64)` of a parsed checksum is the decimal value itself |
| Guestfs.ScanStopsAtFailure | guestfs.go:49-52 | once a record has stopped the read, later records change nothing |
| Guestfs.ScanPrefix | guestfs.go:27-58 | tokens added before a failure stay at the front of the index |
| Guestfs.FirstUnparsable | guestfs.go:44-52 | the first regular-file record whose checksum does not parse: every record before it parses, and it does not (the length when all parse) |
| Guestfs.ScanOutcome | guestfs.go:38-57 | a read fails exactly when some regular-file checksum does not parse. It then fails on the first such field with that field's parse error. In every case the tokens are one per regular-file record before that one, in order, with the path's checksum and the field's decimal value |
| Guestfs.ScanSuccess | guestfs.go:38-57 | a read without failure adds one token per regular-file record, in order. Every checksum field parses, the path hash is the path's checksum and the content hash is the field's decimal value |
| Guestfs.ScanFailure | guestfs.go:49-52 | a regular-file checksum that does not parse, when none before it fails, stops the read on that field with its parse error. The tokens kept are exactly those of the regular-file records before it |
| Guestfs.EmptyChecksumIsSyntaxError | guestfs.go:49-52 | an empty checksum field is a syntax error |
| Guestfs.GuestfsLSCSV.constructor | guestfs.go:14-21 | the adapter keeps its reader and starts with a fresh, empty index |
| Guestfs.GuestfsLSCSV.ReadAll | guestfs.go:23-61 | the index gains exactly the tokens of the records, and the result is the first read error or unparsable checksum (none at end of input) |
| Guestfs.GuestfsLSCSV.Index | guestfs.go:63-65 | returns the very index that ReadAll appends to |

## Left out

- Two empty indexes. The code divides 0 by 0 (jaccard.go:31 and
  jaccard.go:41), which is NaN in IEEE arithmetic. `RatioBounds` and
  `SimilarityBounds` state this NaN. They do not substitute a similarity
  of 1.0.
- Float rounding. Ratios are exact reals. The test tolerance of 0.01 is
  therefore not needed, and the expected values are stated exactly.
- `slices.SortFunc`'s algorithm. An insertion sort on the array stands in
  for it. `slices.SortFunc` is not stable, although the insertion sort that
  stands in for it is. So `Sorting.SortByPaths` and `Sorting.SortByContent`
  do not say which token of a run with equal keys is kept. They only say
  that it comes from the input.
- The `clear` of the tail that `slices.CompactFunc` performs. The elements
  beyond the returned length are not part of the result, so the model does
  not specify them.
- Capacity hints (`make(..., 0, 1024)`, `max(len(a), len(b))`). They do not
  affect results.
- ComparePaths and CompareContent are defined in both index.go:34-52 and
  sort.go:5-23. The two definitions are identical and are modelled once. The
  two `SortByPaths`/`SortByContent` pairs differ, so they are modelled
  separately (`Legacy` and `Sorting`).
- index_test.go:66 passes CompareContent for every case, including the rows
  that name ComparePaths. `IntersectTestCases` and `IntersectT123Cases`
  therefore state the content intersections. The rows at index_test.go:59-61
  repeat the rows at index_test.go:50-52.
- Guestfs.GuestfsLSCSV.ReadAll: requires every record to have at least 5
  fields. Go indexes `record[3]` and `record[4]` without a check, so it
  panics on a shorter record that the loop reaches. The requires is stronger
  than Go for records after the stopping point. Go returns at the first
  checksum that does not parse, so it never reaches a short record after
  it. That stream is therefore outside the model.
- The CSV tokenisation (`encoding/csv`, quoting, the variable field count).
  The stream is the sequence of records it yields, followed by end of input
  or a read error. The reader is a `const` of the adapter, so the
  consumption of the underlying `io.Reader` is not modelled.
- Guestfs.GuestfsLSCSV.ReadAll: `ChecksumPath` is a parameter. Its CRC and
  its panics belong to checksum.go, which is not part of this model.
- The errors are abstract. A checksum failure carries the field and
  `ErrSyntax`/`ErrRange`, but not Go's error message text.
- `Encode`, `Decode` (gob and gzip I/O) and the `String` methods. These are
  serialisation and formatting, not similarity logic.
- The indexer, the cache, the checksum functions and the command-line tools.
  They are outside the core.

## Findings

| source | as written | input that shows it | evidently intended | confidence | as-written member | corrected member |
|---|---|---|---|---|---|---|
| index.go:176-184 | the older content ratio divides the raw token matches by `len(a) + len(b) - matches`; duplicate content hashes on one side are counted every time | `a` = two files with content hash 0 (paths 1 and 2), `b` = one file with content hash 0: 2 / (2 + 1 - 2) = 2 | a Jaccard index of distinct keys in [0, 1], here 1, as jaccard.go:34-42 now computes | high, not executed | Legacy.LegacyContentRatioExceedsOne | Jaccard.RatioBounds |

/**
 * The virt-ls record adapter: builds an index from CSV records
 * `type, mode, size, cksum, path, symlink_dest`, keeping regular files
 * (type "-") and parsing their decimal checksum. The CSV tokenisation is
 * done already: the stream is the list of split records, followed either
 * by end of input or by a read error.
 */
module Guestfs {
  import W = Walkalike

  datatype Option<T> = None | Some(value: T)

  /** One CSV record: its fields. */
  type Record = seq<string>

  /** What the CSV reader yields: records, then EOF (None) or a read error. */
  datatype Stream = Stream(records: seq<Record>, readError: Option<string>)

  /** The errors strconv.ParseUint reports. */
  datatype NumError = ErrSyntax | ErrRange

  /** strconv.ParseUint's result: a uint64 value or an error. */
  datatype Parsed = Ok(value: nat) | Err(err: NumError)

  /** Why ReadAll stopped early. */
  datatype Failure = ReadFailure(msg: string) | ChecksumFailure(field: string, err: NumError)

  const MaxUint32: nat := 0xFFFF_FFFF

  predicate IsDigit(c: char) {
    '0' <= c <= '9'
  }

  predicate AllDigits(s: string) {
    forall i :: 0 <= i < |s| ==> IsDigit(s[i])
  }

  function DigitValue(c: char): nat
    requires IsDigit(c)
  {
    c as int - '0' as int
  }

  /** The number a string of decimal digits denotes. */
  function Decimal(s: string): nat
    requires AllDigits(s)
  {
    if s == [] then 0 else 10 * Decimal(s[..|s| - 1]) + DigitValue(s[|s| - 1])
  }

  /**
   * strconv.ParseUint(s, 10, 32): digits only, no sign, no prefix, no
   * underscores; the value must fit in 32 bits. Scanning left to right, the
   * first non-digit is a syntax error and the first digit that takes the
   * value past 2^32 - 1 a range error, whichever comes first.
   */
  function ParseUint(s: string): Parsed {
    if s == [] then Err(ErrSyntax) else ParseDigits(s, 0, 0)
  }

  function ParseDigits(s: string, i: nat, acc: nat): Parsed
    requires i <= |s|
    decreases |s| - i
  {
    if i == |s| then Ok(acc)
    else if !IsDigit(s[i]) then Err(ErrSyntax)
    else if 10 * acc + DigitValue(s[i]) > MaxUint32 then Err(ErrRange)
    else ParseDigits(s, i + 1, 10 * acc + DigitValue(s[i]))
  }

  /** A prefix of a digit string never denotes a larger number than the whole. */
  lemma {:induction false} DecimalPrefix(s: string, k: nat)
    requires AllDigits(s) && k <= |s|
    ensures Decimal(s[..k]) <= Decimal(s)
  {
    if k < |s| {
      var p := s[..|s| - 1];
      assert p[..k] == s[..k];
      DecimalPrefix(p, k);
    } else {
      assert s[..k] == s;
    }
  }

  lemma {:induction false} ParseDigitsCorrect(s: string, i: nat)
    requires i <= |s| && AllDigits(s[..i]) && Decimal(s[..i]) <= MaxUint32
    ensures ParseDigits(s, i, Decimal(s[..i])).Ok? <==> AllDigits(s) && Decimal(s) <= MaxUint32
    ensures ParseDigits(s, i, Decimal(s[..i])).Ok? ==> AllDigits(s) && ParseDigits(s, i, Decimal(s[..i])).value == Decimal(s)
    decreases |s| - i
  {
    if i == |s| {
      assert s[..i] == s;
    } else if !IsDigit(s[i]) {
    } else {
      var q := s[..i + 1];
      assert q[..i] == s[..i];
      assert AllDigits(q);
      assert Decimal(q) == 10 * Decimal(s[..i]) + DigitValue(s[i]);
      if Decimal(q) > MaxUint32 {
        if AllDigits(s) {
          DecimalPrefix(s, i + 1);
        }
      } else {
        ParseDigitsCorrect(s, i + 1);
      }
    }
  }

  /**
   * ParseUint accepts exactly the non-empty digit strings whose value fits in
   * 32 bits, and then returns that value.
   */
  lemma ParseUintCorrect(s: string)
    ensures ParseUint(s).Ok? <==> s != [] && AllDigits(s) && Decimal(s) <= MaxUint32
    ensures ParseUint(s).Ok? ==> AllDigits(s) && ParseUint(s).value == Decimal(s)
  {
    if s != [] {
      assert s[..0] == [];
      ParseDigitsCorrect(s, 0);
    }
  }

  /** Go's uint32(x) on a uint64: keeps the low 32 bits. */
  function ToUint32(x: nat): W.uint32 {
    x % 0x1_0000_0000
  }

  /**
   * Because the parse is bounded to 32 bits, converting its result to
   * uint32 loses nothing.
   */
  lemma ConversionLossless(s: string)
    requires ParseUint(s).Ok?
    ensures AllDigits(s)
    ensures ToUint32(ParseUint(s).value) == ParseUint(s).value == Decimal(s)
  {
    ParseUintCorrect(s);
  }

  /** Every record has the type, checksum and path fields the loop reads. */
  predicate WellFormed(records: seq<Record>) {
    forall i :: 0 <= i < |records| ==> |records[i]| >= 5
  }

  /** The tokens added so far and why reading stopped, if it stopped early. */
  datatype Outcome = Outcome(tokens: seq<W.Token>, failure: Option<Failure>)

  /**
   * What reading the records in order yields: each regular-file record adds
   * one token, other records are skipped, and the first checksum that does
   * not parse stops the scan with the tokens added before it.
   */
  function ScanRecords(records: seq<Record>, checksumPath: string -> W.uint32): Outcome
    requires WellFormed(records)
  {
    if records == [] then Outcome([], None)
    else Step(ScanRecords(records[..|records| - 1], checksumPath), records[|records| - 1], checksumPath)
  }

  /** One turn of the loop: what one record does to the outcome so far. */
  function Step(prev: Outcome, record: Record, checksumPath: string -> W.uint32): Outcome
    requires |record| >= 5
  {
    if prev.failure.Some? || record[0] != "-" then prev
    else match ParseUint(record[3])
      case Err(e) => Outcome(prev.tokens, Some(ChecksumFailure(record[3], e)))
      case Ok(v) => Outcome(prev.tokens + [W.Token(checksumPath(record[4]), ToUint32(v))], None)
  }

  /** The records once a read error after them is taken into account. */
  function Scan(r: Stream, checksumPath: string -> W.uint32): Outcome
    requires WellFormed(r.records)
  {
    var o := ScanRecords(r.records, checksumPath);
    if o.failure.None? && r.readError.Some? then Outcome(o.tokens, Some(ReadFailure(r.readError.value)))
    else o
  }

  /** The regular-file records, in order. */
  function Regular(records: seq<Record>): (r: seq<Record>)
    requires WellFormed(records)
    ensures WellFormed(r)
  {
    if records == [] then []
    else Regular(records[..|records| - 1])
         + (if records[|records| - 1][0] == "-" then [records[|records| - 1]] else [])
  }

  /** Once the scan has failed, later records change nothing. */
  lemma {:induction false} ScanStopsAtFailure(records: seq<Record>, k: nat, checksumPath: string -> W.uint32)
    requires WellFormed(records) && k <= |records|
    requires ScanRecords(records[..k], checksumPath).failure.Some?
    ensures ScanRecords(records, checksumPath) == ScanRecords(records[..k], checksumPath)
    decreases |records| - k
  {
    if k < |records| {
      assert records[..k + 1][..k] == records[..k];
      ScanStopsAtFailure(records, k + 1, checksumPath);
    } else {
      assert records[..k] == records;
    }
  }

  /**
   * The tokens of a prefix of the records stay at the front of the tokens of
   * all records: whatever was added before a failure is kept.
   */
  lemma {:induction false} ScanPrefix(records: seq<Record>, k: nat, checksumPath: string -> W.uint32)
    requires WellFormed(records) && k <= |records|
    ensures ScanRecords(records[..k], checksumPath).tokens <= ScanRecords(records, checksumPath).tokens
    decreases |records| - k
  {
    if k < |records| {
      var p := records[..|records| - 1];
      assert p[..k] == records[..k];
      ScanPrefix(p, k, checksumPath);
    } else {
      assert records[..k] == records;
    }
  }

  /**
   * The position of the first record whose checksum field does not parse
   * (|rs| when every one parses).
   */
  function FirstUnparsable(rs: seq<Record>): (m: nat)
    requires WellFormed(rs)
    ensures m <= |rs|
    ensures forall k :: 0 <= k < m ==> ParseUint(rs[k][3]).Ok?
    ensures m < |rs| ==> ParseUint(rs[m][3]).Err?
  {
    if rs == [] then 0
    else
      var m := FirstUnparsable(rs[..|rs| - 1]);
      if m < |rs| - 1 || ParseUint(rs[|rs| - 1][3]).Err? then m else |rs|
  }

  /**
   * `o` is what reading the regular-file records `rs` should yield: it
   * fails exactly when some checksum does not parse, then on the first
   * such field, and holds one token per record before that one.
   */
  predicate Describes(rs: seq<Record>, o: Outcome, checksumPath: string -> W.uint32)
    requires WellFormed(rs)
  {
    var m := FirstUnparsable(rs);
    && (o.failure.None? <==> m == |rs|)
    && (m < |rs| ==> o.failure == Some(ChecksumFailure(rs[m][3], ParseUint(rs[m][3]).err)))
    && |o.tokens| == m
    && forall k :: 0 <= k < m ==>
         && AllDigits(rs[k][3])
         && o.tokens[k].contentHash == Decimal(rs[k][3])
         && o.tokens[k].pathHash == checksumPath(rs[k][4])
  }

  /** Reading one more regular-file record keeps the description. */
  lemma DescribesStep(rs: seq<Record>, prev: Outcome, record: Record, checksumPath: string -> W.uint32)
    requires WellFormed(rs) && |record| >= 5 && record[0] == "-"
    requires Describes(rs, prev, checksumPath)
    ensures Describes(rs + [record], Step(prev, record, checksumPath), checksumPath)
  {
    var regular := rs + [record];
    var o := Step(prev, record, checksumPath);
    assert regular[..|regular| - 1] == rs;
    var mp := FirstUnparsable(rs);
    if mp < |rs| {
      assert FirstUnparsable(regular) == mp && o == prev;
      assert regular[mp] == rs[mp];
      forall k | 0 <= k < mp ensures regular[k] == rs[k] {}
    } else {
      ParseUintCorrect(record[3]);
      assert regular[|rs|] == record;
      if ParseUint(record[3]).Ok? {
        assert FirstUnparsable(regular) == |regular|;
        forall k | 0 <= k < |regular|
          ensures && AllDigits(regular[k][3])
                  && o.tokens[k].contentHash == Decimal(regular[k][3])
                  && o.tokens[k].pathHash == checksumPath(regular[k][4])
        {
          if k < |rs| {
            assert regular[k] == rs[k] && o.tokens[k] == prev.tokens[k];
          }
        }
      } else {
        assert FirstUnparsable(regular) == |rs|;
        forall k | 0 <= k < |rs| ensures regular[k] == rs[k] {}
      }
    }
  }

  lemma {:induction false} ScanDescribes(records: seq<Record>, checksumPath: string -> W.uint32)
    requires WellFormed(records)
    ensures Describes(Regular(records), ScanRecords(records, checksumPath), checksumPath)
  {
    if records != [] {
      var p := records[..|records| - 1];
      var record := records[|records| - 1];
      ScanDescribes(p, checksumPath);
      if record[0] == "-" {
        assert Regular(records) == Regular(p) + [record];
        DescribesStep(Regular(p), ScanRecords(p, checksumPath), record, checksumPath);
      } else {
        assert Regular(records) == Regular(p);
      }
    }
  }

  /**
   * What reading the records yields, stated on the regular-file records R
   * and the first of them, R[m], whose checksum does not parse: the scan
   * fails exactly when some checksum of R does not parse, and then on
   * R[m]'s field with its parse error; either way the tokens are one per
   * record of R before m, in order, with the path's checksum and the
   * checksum field's decimal value.
   */
  lemma ScanOutcome(records: seq<Record>, checksumPath: string -> W.uint32)
    requires WellFormed(records)
    ensures ScanRecords(records, checksumPath).failure.None?
      <==> forall k :: 0 <= k < |Regular(records)| ==> ParseUint(Regular(records)[k][3]).Ok?
    ensures FirstUnparsable(Regular(records)) < |Regular(records)| ==>
      ScanRecords(records, checksumPath).failure
        == Some(ChecksumFailure(Regular(records)[FirstUnparsable(Regular(records))][3],
                                ParseUint(Regular(records)[FirstUnparsable(Regular(records))][3]).err))
    ensures |ScanRecords(records, checksumPath).tokens| == FirstUnparsable(Regular(records))
    ensures forall k :: 0 <= k < FirstUnparsable(Regular(records)) ==>
      && AllDigits(Regular(records)[k][3])
      && ScanRecords(records, checksumPath).tokens[k].contentHash == Decimal(Regular(records)[k][3])
      && ScanRecords(records, checksumPath).tokens[k].pathHash == checksumPath(Regular(records)[k][4])
  {
    ScanDescribes(records, checksumPath);
  }

  /**
   * A scan without failure yields one token per regular-file record, in
   * order: each record's checksum field parses, the token's path hash is the
   * checksum of the record's path and its content hash the decimal value of
   * the record's checksum field.
   */
  lemma ScanSuccess(records: seq<Record>, checksumPath: string -> W.uint32)
    requires WellFormed(records)
    requires ScanRecords(records, checksumPath).failure.None?
    ensures |ScanRecords(records, checksumPath).tokens| == |Regular(records)|
    ensures forall k :: 0 <= k < |Regular(records)| ==>
      && ParseUint(Regular(records)[k][3]).Ok?
      && AllDigits(Regular(records)[k][3])
      && ScanRecords(records, checksumPath).tokens[k].contentHash == Decimal(Regular(records)[k][3])
      && ScanRecords(records, checksumPath).tokens[k].pathHash == checksumPath(Regular(records)[k][4])
  {
    ScanOutcome(records, checksumPath);
  }

  /**
   * A regular-file record whose checksum field does not parse makes the
   * scan fail, at the first such record, keeping exactly the tokens of the
   * regular-file records before it.
   */
  lemma ScanFailure(records: seq<Record>, checksumPath: string -> W.uint32, m: nat)
    requires WellFormed(records)
    requires m < |Regular(records)| && ParseUint(Regular(records)[m][3]).Err?
    requires forall k :: 0 <= k < m ==> ParseUint(Regular(records)[k][3]).Ok?
    ensures ScanRecords(records, checksumPath).failure
      == Some(ChecksumFailure(Regular(records)[m][3], ParseUint(Regular(records)[m][3]).err))
    ensures |ScanRecords(records, checksumPath).tokens| == m
    ensures forall k :: 0 <= k < m ==>
      && AllDigits(Regular(records)[k][3])
      && ScanRecords(records, checksumPath).tokens[k].contentHash == Decimal(Regular(records)[k][3])
      && ScanRecords(records, checksumPath).tokens[k].pathHash == checksumPath(Regular(records)[k][4])
  {
    ScanOutcome(records, checksumPath);
    var fu := FirstUnparsable(Regular(records));
    if fu < m {
    } else if fu > m {
    }
  }

  /** An empty checksum field is a syntax error, as strconv.ParseUint reports. */
  lemma EmptyChecksumIsSyntaxError()
    ensures ParseUint("") == Err(ErrSyntax)
  {
  }

  /**
   * The virt-ls adapter: the stream it reads and the index it fills.
   */
  class GuestfsLSCSV {
    const r: Stream
    var ix: W.Index

    /** A fresh adapter over a stream, with an empty index. */
    constructor (r: Stream)
      ensures this.r == r
      ensures fresh(ix) && ix.tokens == []
    {
      this.r := r;
      ix := new W.Index([]);
    }

    /**
     * Reads every record, appending one token per regular file to the
     * index; stops at the first read error or unparsable checksum and
     * reports it, keeping the tokens appended before it.
     */
    method ReadAll(checksumPath: string -> W.uint32) returns (err: Option<Failure>)
      requires WellFormed(r.records)
      modifies ix
      ensures ix.tokens == old(ix.tokens) + Scan(r, checksumPath).tokens
      ensures err == Scan(r, checksumPath).failure
    {
      var records := r.records;
      var i := 0;
      while i < |records|
        invariant 0 <= i <= |records|
        invariant ScanRecords(records[..i], checksumPath).failure.None?
        invariant ix.tokens == old(ix.tokens) + ScanRecords(records[..i], checksumPath).tokens
      {
        assert records[..i + 1][..i] == records[..i];
        var record := records[i];
        var ftype := record[0];
        var cksum := record[3];
        var path := record[4];
        if ftype != "-" {
          i := i + 1;
          continue;
        }
        var cksum64 := ParseUint(cksum);
        if cksum64.Err? {
          ScanStopsAtFailure(records, i + 1, checksumPath);
          return Some(ChecksumFailure(cksum, cksum64.err));
        }
        var contentChecksum := ToUint32(cksum64.value);
        var pathChecksum := checksumPath(path);
        ix.Add(pathChecksum, contentChecksum);
        i := i + 1;
      }
      assert records[..|records|] == records;
      if r.readError.Some? {
        return Some(ReadFailure(r.readError.value));
      }
      return None;
    }

    /** The index being filled: the very object ReadAll appends to. */
    method Index() returns (result: W.Index)
      ensures result == ix
    {
      result := ix;
    }
  }
}

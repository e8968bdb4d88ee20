/** The two file formats of the pack store (store.go): a pack is a concatenation of records, a hint
    lists the records of a pack without their values. Neither is synced, so what is read back may be
    cut short anywhere. */
module PackFormat {
  import opened Bytes

  const PACK_LIMIT: nat := 0x1000_0000
  const REC_HEADER: nat := 8
  const MAX_KEY: nat := 4096
  const MAX_VALUE: nat := 0x8000_0000

  datatype Rec = Rec(key: Bytes, val: Bytes)

  /** A record as an index sees it: its key, where it starts, and how long its value is. */
  datatype Entry = Entry(key: Bytes, off: nat, vlen: nat)

  /** What Put accepts. */
  predicate GoodRec(r: Rec) {
    1 <= |r.key| <= MAX_KEY && |r.val| <= MAX_VALUE
  }

  function EncodeRec(r: Rec): Bytes {
    Le(|r.key|, 4) + Le(|r.val|, 4) + r.key + r.val
  }

  function EncodeLog(log: seq<Rec>): Bytes
    decreases |log|
  {
    if log == [] then [] else EncodeLog(log[..|log| - 1]) + EncodeRec(log[|log| - 1])
  }

  /** Where the i-th record starts. */
  function Offset(log: seq<Rec>, i: nat): nat
    requires i <= |log|
  {
    |EncodeLog(log[..i])|
  }

  function EntryAt(log: seq<Rec>, i: nat): Entry
    requires i < |log|
  {
    Entry(log[i].key, Offset(log, i), |log[i].val|)
  }

  lemma EncodeAppend(log: seq<Rec>, r: Rec)
    ensures EncodeLog(log + [r]) == EncodeLog(log) + EncodeRec(r)
    ensures |EncodeRec(r)| == REC_HEADER + |r.key| + |r.val|
  {
    assert (log + [r])[..|log|] == log;
  }

  lemma OffsetNext(log: seq<Rec>, i: nat)
    requires i < |log|
    ensures EncodeLog(log[..i + 1]) == EncodeLog(log[..i]) + EncodeRec(log[i])
    ensures Offset(log, i + 1) == Offset(log, i) + REC_HEADER + |log[i].key| + |log[i].val|
  {
    assert log[..i + 1] == log[..i] + [log[i]];
    EncodeAppend(log[..i], log[i]);
  }

  /** A log starts with the encoding of any of its prefixes. */
  lemma {:induction false} EncodePrefix(log: seq<Rec>, i: nat)
    requires i <= |log|
    ensures Offset(log, i) <= |EncodeLog(log)|
    ensures EncodeLog(log)[..Offset(log, i)] == EncodeLog(log[..i])
    decreases |log| - i
  {
    if i == |log| {
      assert log[..i] == log;
    } else {
      OffsetNext(log, i);
      EncodePrefix(log, i + 1);
    }
  }

  /** The i-th record of a log, read from any copy of it that holds all of that record. */
  lemma RecordBytes(b: Bytes, log: seq<Rec>, i: nat)
    requires i < |log| && b <= EncodeLog(log) && Offset(log, i + 1) <= |b|
    ensures Offset(log, i) <= Offset(log, i + 1)
    ensures b[Offset(log, i)..Offset(log, i + 1)] == EncodeRec(log[i])
    ensures b[Offset(log, i) + REC_HEADER + |log[i].key|..Offset(log, i + 1)] == log[i].val
  {
    OffsetNext(log, i);
    EncodePrefix(log, i + 1);
    var e := EncodeLog(log);
    var lo, hi := Offset(log, i), Offset(log, i + 1);
    assert e[..hi] == EncodeLog(log[..i]) + EncodeRec(log[i]);
    assert b[lo..hi] == e[..hi][lo..];
    assert EncodeRec(log[i])[REC_HEADER + |log[i].key|..] == log[i].val;
    assert b[lo + REC_HEADER + |log[i].key|..hi] == b[lo..hi][REC_HEADER + |log[i].key|..];
  }

  // ---------------------------------------------------------------- scanning a pack

  function KeyLen(b: Bytes, off: nat): nat
    requires off + REC_HEADER <= |b|
  {
    UnLe(Slice(b, off, 4))
  }

  function ValLen(b: Bytes, off: nat): nat
    requires off + REC_HEADER <= |b|
  {
    UnLe(Slice(b, off + 4, 4))
  }

  /** A whole record starts at off. */
  predicate Whole(b: Bytes, off: nat) {
    off + REC_HEADER <= |b| && off + REC_HEADER + KeyLen(b, off) + ValLen(b, off) <= |b|
  }

  function EntryIn(b: Bytes, off: nat): Entry
    requires Whole(b, off)
  {
    Entry(Slice(b, off + REC_HEADER, KeyLen(b, off)), off, ValLen(b, off))
  }

  function After(b: Bytes, off: nat): nat
    requires Whole(b, off)
  {
    off + REC_HEADER + KeyLen(b, off) + ValLen(b, off)
  }

  /** The records from off to the first incomplete one, and where that one starts. */
  function Scan(b: Bytes, off: nat): seq<Entry>
    decreases |b| - off
  {
    if Whole(b, off) then [EntryIn(b, off)] + Scan(b, After(b, off)) else []
  }

  function ScanEnd(b: Bytes, off: nat): nat
    decreases |b| - off
  {
    if Whole(b, off) then ScanEnd(b, After(b, off)) else off
  }

  /** The loop of `load` over an unsealed pack. */
  method ScanPack(b: Bytes) returns (entries: seq<Entry>, end: nat)
    ensures entries == Scan(b, 0) && end == ScanEnd(b, 0)
  {
    entries, end := [], 0;
    while Whole(b, end)
      invariant entries + Scan(b, end) == Scan(b, 0) && ScanEnd(b, end) == ScanEnd(b, 0)
      decreases |b| - end
    {
      entries := entries + [EntryIn(b, end)];
      end := After(b, end);
    }
  }

  /** How many records of the log a copy of n bytes holds entirely. */
  function Complete(log: seq<Rec>, n: nat): (m: nat)
    ensures m <= |log|
    decreases |log|
  {
    if log == [] || |EncodeLog(log)| <= n then |log| else Complete(log[..|log| - 1], n)
  }

  lemma {:induction false} CompleteBounds(log: seq<Rec>, n: nat)
    ensures Offset(log, Complete(log, n)) <= n
    ensures Complete(log, n) < |log| ==> Offset(log, Complete(log, n) + 1) > n
    decreases |log|
  {
    var m := Complete(log, n);
    if log == [] || |EncodeLog(log)| <= n {
      assert log[..|log|] == log;
    } else {
      var front := log[..|log| - 1];
      CompleteBounds(front, n);
      assert front[..m] == log[..m];
      if m < |front| {
        assert front[..m + 1] == log[..m + 1];
      } else {
        assert log[..m + 1] == log;
      }
    }
  }

  lemma {:induction false} OffsetMonotone(log: seq<Rec>, i: nat, j: nat)
    requires i <= j <= |log|
    ensures Offset(log, i) <= Offset(log, j)
    decreases j - i
  {
    if i < j {
      OffsetNext(log, i);
      OffsetMonotone(log, i + 1, j);
    }
  }

  ghost predicate GoodLog(log: seq<Rec>) {
    forall i :: 0 <= i < |log| ==> GoodRec(log[i])
  }

  lemma SliceOf(b: Bytes, e: Bytes, lo: nat, r: Bytes, x: nat, n: nat)
    requires b <= e && lo + |r| <= |e| && e[lo..lo + |r|] == r && x + n <= |r| && lo + x + n <= |b|
    ensures Slice(b, lo + x, n) == r[x..x + n]
  {
    var s, t := Slice(b, lo + x, n), r[x..x + n];
    forall j | 0 <= j < n
      ensures s[j] == t[j]
    {
      assert e[lo..lo + |r|][x + j] == e[lo + x + j];
    }
  }

  /** A record standing at [lo, hi) in e, read from a copy b of e that may be cut inside it. */
  lemma RecordSeen(b: Bytes, e: Bytes, lo: nat, hi: nat, r: Rec)
    requires GoodRec(r) && b <= e && lo <= |b|
    requires hi == lo + REC_HEADER + |r.key| + |r.val| <= |e| && e[lo..hi] == EncodeRec(r)
    ensures Whole(b, lo) <==> hi <= |b|
    ensures Whole(b, lo) ==> EntryIn(b, lo) == Entry(r.key, lo, |r.val|) && After(b, lo) == hi
  {
    var c := EncodeRec(r);
    if lo + REC_HEADER <= |b| {
      HeaderLengths(r);
      SliceOf(b, e, lo, c, 0, 4);
      SliceOf(b, e, lo, c, 4, 4);
      assert KeyLen(b, lo) == |r.key| && ValLen(b, lo) == |r.val|;
      if hi <= |b| {
        SliceOf(b, e, lo, c, 8, |r.key|);
      }
    }
  }

  /** At the start of the i-th record of a cut copy, the scan sees that record if all of it is there,
      and stops otherwise. */
  lemma ScanStep(b: Bytes, log: seq<Rec>, i: nat)
    requires b <= EncodeLog(log) && i < |log| && GoodRec(log[i]) && Offset(log, i) <= |b|
    ensures Whole(b, Offset(log, i)) <==> Offset(log, i + 1) <= |b|
    ensures Whole(b, Offset(log, i)) ==>
              EntryIn(b, Offset(log, i)) == EntryAt(log, i) && After(b, Offset(log, i)) == Offset(log, i + 1)
  {
    OffsetNext(log, i);
    EncodePrefix(log, i + 1);
    RecordBytes(EncodeLog(log), log, i);
    RecordSeen(b, EncodeLog(log), Offset(log, i), Offset(log, i + 1), log[i]);
  }

  lemma HeaderLengths(r: Rec)
    requires GoodRec(r)
    ensures UnLe(EncodeRec(r)[..4]) == |r.key| && UnLe(EncodeRec(r)[4..8]) == |r.val|
    ensures EncodeRec(r)[8..8 + |r.key|] == r.key
  {
    Widths();
    LeRoundTrip(|r.key|, 4);
    LeRoundTrip(|r.val|, 4);
    var e := EncodeRec(r);
    assert e[..4] == Le(|r.key|, 4);
    assert e[4..8] == Le(|r.val|, 4);
    assert e[8..8 + |r.key|] == r.key;
  }

  /** The index entries of records i to m. */
  function Entries(log: seq<Rec>, i: nat, m: nat): (es: seq<Entry>)
    requires i <= m <= |log|
    ensures |es| == m - i
    decreases m - i
  {
    if i == m then [] else [EntryAt(log, i)] + Entries(log, i + 1, m)
  }

  lemma {:induction false} EntriesAt(log: seq<Rec>, i: nat, m: nat, j: nat)
    requires i <= m <= |log| && j < m - i
    ensures Entries(log, i, m)[j] == EntryAt(log, i + j)
    decreases m - i
  {
    if j > 0 {
      EntriesAt(log, i + 1, m, j - 1);
      assert Entries(log, i, m)[j] == Entries(log, i + 1, m)[j - 1];
    }
  }

  /** Scanning a log cut at any byte finds exactly the records that are entirely there. */
  lemma {:induction false} ScanCut(b: Bytes, log: seq<Rec>, i: nat)
    requires b <= EncodeLog(log) && GoodLog(log) && i <= Complete(log, |b|)
    ensures ScanEnd(b, Offset(log, i)) == Offset(log, Complete(log, |b|))
    ensures Scan(b, Offset(log, i)) == Entries(log, i, Complete(log, |b|))
    decreases |log| - i
  {
    var m := Complete(log, |b|);
    CompleteBounds(log, |b|);
    OffsetMonotone(log, i, m);
    if i < m {
      ScanStep(b, log, i);
      OffsetMonotone(log, i + 1, m);
      ScanCut(b, log, i + 1);
    } else if i < |log| {
      ScanStep(b, log, i);
    } else {
      assert log[..i] == log;
    }
  }

  /** Torn-tail recovery: a pack holding whole records followed by part of one more scans to exactly
      those records, and truncating at the scan's end leaves exactly their bytes. */
  lemma ScanRecovers(b: Bytes, log: seq<Rec>)
    requires b <= EncodeLog(log) && GoodLog(log)
    ensures Scan(b, 0) == Entries(log, 0, Complete(log, |b|))
    ensures ScanEnd(b, 0) <= |b| && b[..ScanEnd(b, 0)] == EncodeLog(log[..Complete(log, |b|)])
  {
    assert log[..0] == [];
    ScanCut(b, log, 0);
    CompleteBounds(log, |b|);
    EncodePrefix(log, Complete(log, |b|));
  }

  // ---------------------------------------------------------------- hint files

  const HINT_HEADER: nat := 16

  predicate GoodEntry(e: Entry) {
    |e.key| < U32 && e.vlen < U32 && e.off < U64
  }

  function EncodeHint(e: Entry): Bytes {
    Le(|e.key|, 4) + Le(e.vlen, 4) + Le(e.off, 8) + e.key
  }

  function EncodeHints(es: seq<Entry>): Bytes
    decreases |es|
  {
    if es == [] then [] else EncodeHint(es[0]) + EncodeHints(es[1..])
  }

  predicate HintWhole(b: Bytes) {
    HINT_HEADER <= |b| && HINT_HEADER + UnLe(b[..4]) <= |b|
  }

  function HintIn(b: Bytes): Entry
    requires HintWhole(b)
  {
    Entry(b[HINT_HEADER..HINT_HEADER + UnLe(b[..4])], UnLe(b[8..16]), UnLe(b[4..8]))
  }

  /** The entries of a hint file up to the first incomplete one. */
  function ReadHints(b: Bytes): seq<Entry>
    decreases |b|
  {
    if HintWhole(b) then [HintIn(b)] + ReadHints(b[HINT_HEADER + UnLe(b[..4])..]) else []
  }

  lemma {:induction false} HintsRoundTrip(es: seq<Entry>)
    requires forall i :: 0 <= i < |es| ==> GoodEntry(es[i])
    ensures ReadHints(EncodeHints(es)) == es
    decreases |es|
  {
    if es != [] {
      var e := es[0];
      var b := EncodeHints(es);
      Widths();
      LeRoundTrip(|e.key|, 4);
      LeRoundTrip(e.vlen, 4);
      LeRoundTrip(e.off, 8);
      assert b[..4] == Le(|e.key|, 4);
      assert b[4..8] == Le(e.vlen, 4);
      assert b[8..16] == Le(e.off, 8);
      assert b[16..16 + |e.key|] == e.key;
      assert b[16 + |e.key|..] == EncodeHints(es[1..]);
      HintsRoundTrip(es[1..]);
    }
  }

  /** A hint file cut at any byte reads as a prefix of its entries. */
  lemma {:induction false} HintsCut(c: Bytes, b: Bytes)
    requires c <= b
    ensures ReadHints(c) <= ReadHints(b)
    decreases |b|
  {
    if HintWhole(c) {
      assert c[..4] == b[..4] && c[4..8] == b[4..8] && c[8..16] == b[8..16];
      var n := HINT_HEADER + UnLe(b[..4]);
      assert c[HINT_HEADER..n] == b[HINT_HEADER..n];
      HintsCut(c[n..], b[n..]);
    }
  }
}

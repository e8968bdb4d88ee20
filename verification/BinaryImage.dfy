/** A binary held as bytes and changed in place (BinaryImage in fixup_mode.cc): bounds-checked reads and
    writes, and what a series of writes does to everything it does not touch. */
module BinaryImage {
  import opened Bytes
  import opened Options

  // ---------------------------------------------------------------- edits

  datatype Edit = Edit(at: nat, data: Bytes)

  predicate Fits(e: Edit, n: nat) {
    e.at + |e.data| <= n
  }

  function Patch(b: Bytes, e: Edit): (c: Bytes)
    requires Fits(e, |b|)
    ensures |c| == |b|
  {
    b[..e.at] + e.data + b[e.at + |e.data|..]
  }

  ghost predicate AllFit(es: seq<Edit>, n: nat) {
    forall i :: 0 <= i < |es| ==> Fits(es[i], n)
  }

  ghost function PatchAll(b: Bytes, es: seq<Edit>): (c: Bytes)
    requires AllFit(es, |b|)
    ensures |c| == |b|
    decreases |es|
  {
    if es == [] then b else Patch(PatchAll(b, es[..|es| - 1]), es[|es| - 1])
  }

  /** [x, x + n) and [y, y + m) do not touch. */
  predicate Separate(x: nat, n: nat, y: nat, m: nat) {
    x + n <= y || y + m <= x
  }

  predicate Misses(e: Edit, x: nat, n: nat) {
    Separate(e.at, |e.data|, x, n)
  }

  lemma PatchMisses(b: Bytes, e: Edit, x: nat, n: nat)
    requires Fits(e, |b|) && Misses(e, x, n) && x + n <= |b|
    ensures Patch(b, e)[x..x + n] == b[x..x + n]
  {
  }

  lemma PatchLands(b: Bytes, e: Edit)
    requires Fits(e, |b|)
    ensures Patch(b, e)[e.at..e.at + |e.data|] == e.data
  {
  }

  lemma {:induction false} AllMiss(b: Bytes, es: seq<Edit>, x: nat, n: nat)
    requires AllFit(es, |b|) && x + n <= |b| && forall i :: 0 <= i < |es| ==> Misses(es[i], x, n)
    ensures PatchAll(b, es)[x..x + n] == b[x..x + n]
    decreases |es|
  {
    if es != [] {
      AllMiss(b, es[..|es| - 1], x, n);
      PatchMisses(PatchAll(b, es[..|es| - 1]), es[|es| - 1], x, n);
    }
  }

  /** Any two of the edits are the same or do not touch. */
  ghost predicate Coherent(es: seq<Edit>) {
    forall e, f :: e in es && f in es ==> e == f || Misses(f, e.at, |e.data|)
  }

  /** Any two of the edits write the same place or do not touch. */
  ghost predicate Aligned(es: seq<Edit>) {
    forall e, f :: e in es && f in es ==> (e.at == f.at && |e.data| == |f.data|) || Misses(f, e.at, |e.data|)
  }

  /** Of the edits of one place the last one is what is there afterwards. */
  lemma {:induction false} LastLands(b: Bytes, es: seq<Edit>, e: Edit) returns (f: Edit)
    requires AllFit(es, |b|) && Aligned(es) && e in es
    ensures f in es && f.at == e.at && |f.data| == |e.data|
    ensures f.at + |f.data| <= |b| && PatchAll(b, es)[f.at..f.at + |f.data|] == f.data
    decreases |es|
  {
    hide Patch;
    var front, last := es[..|es| - 1], es[|es| - 1];
    assert last in es;
    if e.at == last.at && |e.data| == |last.data| {
      f := last;
      PatchLands(PatchAll(b, front), last);
    } else {
      assert forall x :: x in front ==> x in es;
      f := LastLands(b, front, e);
      PatchMisses(PatchAll(b, front), last, e.at, |e.data|);
    }
  }

  lemma CoherentLands(b: Bytes, es: seq<Edit>, e: Edit)
    requires AllFit(es, |b|) && Coherent(es) && e in es
    ensures e.at + |e.data| <= |b| && PatchAll(b, es)[e.at..e.at + |e.data|] == e.data
  {
    hide PatchAll;
    var f := LastLands(b, es, e);
    assert f.data == e.data;
  }

  lemma PatchMore(b: Bytes, es: seq<Edit>, e: Edit)
    requires AllFit(es, |b|) && Fits(e, |b|)
    ensures AllFit(es + [e], |b|) && PatchAll(b, es + [e]) == Patch(PatchAll(b, es), e)
  {
    assert (es + [e])[..|es|] == es;
  }

  lemma {:induction false} PatchConcat(b: Bytes, es: seq<Edit>, fs: seq<Edit>)
    requires AllFit(es, |b|) && AllFit(fs, |b|)
    ensures AllFit(es + fs, |b|) && PatchAll(b, es + fs) == PatchAll(PatchAll(b, es), fs)
    decreases |fs|
  {
    if fs == [] {
      assert es + fs == es;
    } else {
      var front, last := fs[..|fs| - 1], fs[|fs| - 1];
      PatchConcat(b, es, front);
      PatchMore(b, es + front, last);
      assert es + fs == es + front + [last];
    }
  }

  lemma PatchOne(b: Bytes, e: Edit)
    requires Fits(e, |b|)
    ensures AllFit([e], |b|) && PatchAll(b, [e]) == Patch(b, e)
  {
    PatchMore(b, [], e);
    assert [] + [e] == [e];
  }

  // ---------------------------------------------------------------- reading

  function Read(b: Bytes, off: nat, width: nat): Option<nat> {
    if off + width <= |b| then Some(UnLe(b[off..off + width])) else None
  }

  /** Where the string at off ends: its NUL, or the end of the image. */
  function StringEnd(b: Bytes, off: nat): (end: nat)
    requires off <= |b|
    ensures off <= end <= |b| && (end < |b| ==> b[end] == 0)
    ensures forall i :: off <= i < end ==> b[i] != 0
    decreases |b| - off
  {
    if off == |b| || b[off] == 0 then off else StringEnd(b, off + 1)
  }

  function CString(b: Bytes, off: nat): (s: Bytes)
    ensures 0 !in s
  {
    if off >= |b| then [] else b[off..StringEnd(b, off)]
  }

  /** A string followed by its NUL reads back as itself. */
  lemma {:induction false} CStringIs(b: Bytes, off: nat, s: Bytes)
    requires off + |s| < |b| && b[off..off + |s|] == s && b[off + |s|] == 0 && 0 !in s
    ensures CString(b, off) == s
  {
    EndIs(b, off, off + |s|);
  }

  lemma {:induction false} EndIs(b: Bytes, off: nat, end: nat)
    requires off <= end < |b| && b[end] == 0 && forall i :: off <= i < end ==> b[i] != 0
    ensures StringEnd(b, off) == end
    decreases end - off
  {
    if off < end {
      EndIs(b, off + 1, end);
    }
  }

  /** A string whose bytes and NUL are the same in two images of one length reads the same. */
  lemma SameString(b: Bytes, c: Bytes, off: nat)
    requires |b| == |c|
    requires off < |b| ==> forall i :: off <= i < |b| && i <= StringEnd(b, off) ==> b[i] == c[i]
    ensures CString(b, off) == CString(c, off)
  {
    if off < |b| {
      var end := StringEnd(b, off);
      if end < |b| {
        EndIs(c, off, end);
      } else {
        NoEnd(c, off);
      }
    }
  }

  lemma {:induction false} NoEnd(b: Bytes, off: nat)
    requires off <= |b| && forall i :: off <= i < |b| ==> b[i] != 0
    ensures StringEnd(b, off) == |b|
    decreases |b| - off
  {
    if off < |b| {
      NoEnd(b, off + 1);
    }
  }

  // ---------------------------------------------------------------- writing

  function Zeros(n: nat): Bytes {
    seq(n, _ => 0)
  }

  function Padded(text: Bytes, capacity: nat): (d: Bytes)
    requires |text| <= capacity
    ensures |d| == capacity
  {
    text + Zeros(capacity - |text|)
  }

  class Image {
    var bytes: Bytes

    constructor (b: Bytes)
      ensures bytes == b
    {
      bytes := b;
    }

    method Overwrite(offset: nat, data: Bytes) returns (ok: bool)
      modifies this
      ensures ok <==> Fits(Edit(offset, data), |old(bytes)|)
      ensures bytes == if ok then Patch(old(bytes), Edit(offset, data)) else old(bytes)
    {
      if offset > |bytes| || |bytes| - offset < |data| {
        return false;
      }
      bytes := bytes[..offset] + data + bytes[offset + |data|..];
      ok := true;
    }

    /** Write of a little-endian number. */
    method WriteWord(offset: nat, value: nat, width: nat) returns (ok: bool)
      modifies this
      ensures ok <==> Fits(Edit(offset, Le(value, width)), |old(bytes)|)
      ensures bytes == if ok then Patch(old(bytes), Edit(offset, Le(value, width))) else old(bytes)
    {
      ok := Overwrite(offset, Le(value, width));
    }

    method WritePadded(offset: nat, capacity: nat, text: Bytes) returns (ok: bool)
      modifies this
      ensures ok <==> |text| + 1 <= capacity && offset + capacity <= |old(bytes)|
      ensures bytes == if ok then Patch(old(bytes), Edit(offset, Padded(text, capacity))) else old(bytes)
    {
      if |text| + 1 > capacity || offset > |bytes| || |bytes| - offset < capacity {
        return false;
      }
      ok := Overwrite(offset, text + Zeros(capacity - |text|));
    }
  }
}

/** Store paths inside texts (store.cc): hashes masked in keys, the own output's hash swapped for a
    placeholder and back, masked paths resolved through the declared roots. */
module StoreNames {
  import opened Options

  const HASH_LENGTH: nat := 32

  predicate Occurs(t: string, p: string, x: nat) {
    x + |p| <= |t| && t[x..x + |p|] == p
  }

  /** Where p first occurs in t, |t| if nowhere. */
  function FindText(t: string, p: string): (n: nat)
    requires p != []
    ensures n <= |t| && (n < |t| ==> n + |p| <= |t|)
  {
    FindFrom(t, p, 0)
  }

  function FindFrom(t: string, p: string, pos: nat): (n: nat)
    requires p != [] && pos <= |t|
    ensures pos <= n <= |t| && (n < |t| ==> n + |p| <= |t|)
    decreases |t| - pos
  {
    if pos == |t| || Occurs(t, p, pos) then pos else FindFrom(t, p, pos + 1)
  }

  lemma {:induction false} FindIs(t: string, p: string, pos: nat)
    requires p != [] && pos <= |t|
    ensures FindFrom(t, p, pos) < |t| ==> Occurs(t, p, FindFrom(t, p, pos))
    ensures forall k :: pos <= k < FindFrom(t, p, pos) ==> !Occurs(t, p, k)
    decreases |t| - pos
  {
    if pos < |t| && !Occurs(t, p, pos) {
      FindIs(t, p, pos + 1);
    }
  }

  lemma OccursShift(t: string, p: string, d: nat, x: nat)
    requires d <= |t|
    ensures Occurs(t[d..], p, x) <==> Occurs(t, p, d + x)
  {
    if d + x + |p| <= |t| {
      var a, b := t[d..][x..x + |p|], t[d + x..d + x + |p|];
      assert forall i :: 0 <= i < |p| ==> a[i] == b[i];
      assert a == b;
    }
  }

  lemma OccursFirst(t: string, p: string)
    ensures Occurs(t, p, 0) <==> p <= t
  {
    if |p| <= |t| {
      assert t[0..|p|] == t[..|p|];
    }
  }

  // ---------------------------------------------------------------- swapping the own hash

  /** t with every occurrence met from left to right replaced. */
  function Swapped(t: string, from: string, into: string): string
    requires from != []
    decreases |t|
  {
    if t == [] then []
    else if from <= t then into + Swapped(t[|from|..], from, into)
    else [t[0]] + Swapped(t[1..], from, into)
  }

  /** The loop of SwapOutHash: replace in place, go on behind the replacement. */
  method SwapText(text: string, from: string, into: string) returns (t: string)
    requires from != [] && |from| == |into|
    ensures t == Swapped(text, from, into)
  {
    hide Swapped, Occurs, FindFrom;
    t := text;
    var pos := 0;
    assert text[0..] == text && t[..0] == "";
    while pos < |t|
      invariant 0 <= pos <= |t|
      invariant t[..pos] + Swapped(t[pos..], from, into) == Swapped(text, from, into)
      decreases |t| - pos
    {
      var next := FindFrom(t, from, pos);
      FindIs(t, from, pos);
      SwapNext(t, from, into, pos, next);
      if next == |t| {
        assert t[..pos] + t[pos..] == t;
        return;
      }
      var u, x := t[..next] + into + t[next + |from|..], next + |from|;
      assert u[..x] == t[..pos] + (t[pos..next] + into);
      assert u[x..] == t[x..];
      Regroup(t[..pos], t[pos..next] + into, Swapped(u[x..], from, into));
      t, pos := u, x;
    }
    SwappedNone(from, into);
    assert t[pos..] == [] && t[..pos] == t;
  }

  lemma Regroup(a: string, b: string, c: string)
    ensures a + (b + c) == a + b + c
  {
  }

  lemma SwappedNone(from: string, into: string)
    requires from != []
    ensures Swapped([], from, into) == []
  {
  }

  /** What the round that finds the occurrence at next makes of the text from pos on. */
  lemma SwapNext(t: string, from: string, into: string, pos: nat, next: nat)
    requires from != [] && pos <= next <= |t| && (next < |t| ==> Occurs(t, from, next))
    requires forall k :: pos <= k < next ==> !Occurs(t, from, k)
    ensures next == |t| ==> Swapped(t[pos..], from, into) == t[pos..]
    ensures next < |t| ==> next + |from| <= |t|
    ensures next < |t| ==>
              Swapped(t[pos..], from, into) == t[pos..next] + into + Swapped(t[next + |from|..], from, into)
  {
    hide Occurs, Swapped;
    var s, n := t[pos..], next - pos;
    forall k | 0 <= k <= n
      ensures Occurs(s, from, k) <==> Occurs(t, from, pos + k)
    {
      OccursShift(t, from, pos, k);
    }
    Skips(s, from, into, n);
    assert s[..n] == t[pos..next];
    if next < |t| {
      assert s[n + |from|..] == t[next + |from|..];
      Regroup(s[..n], into, Swapped(t[next + |from|..], from, into));
    }
  }

  lemma OneKept(t: string, from: string, into: string)
    requires from != [] && t != [] && !Occurs(t, from, 0)
    ensures Swapped(t, from, into) == [t[0]] + Swapped(t[1..], from, into)
  {
    OccursFirst(t, from);
  }

  lemma OneSwapped(t: string, from: string, into: string)
    requires from != [] && t != [] && Occurs(t, from, 0)
    ensures |from| <= |t| && Swapped(t, from, into) == into + Swapped(t[|from|..], from, into)
  {
    OccursFirst(t, from);
  }

  /** Up to the next occurrence nothing is replaced. */
  lemma {:induction false} Skips(t: string, from: string, into: string, n: nat)
    requires from != [] && n <= |t| && forall k :: 0 <= k < n ==> !Occurs(t, from, k)
    requires n < |t| ==> Occurs(t, from, n)
    ensures n < |t| ==> n + |from| <= |t|
    ensures Swapped(t, from, into) == t[..n] + if n < |t| then into + Swapped(t[n + |from|..], from, into) else []
    decreases n
  {
    hide Occurs, Swapped;
    if t == [] {
      SwappedNone(from, into);
    } else if n == 0 {
      OneSwapped(t, from, into);
      assert t[..0] == [];
    } else {
      OneKept(t, from, into);
      forall k | 0 <= k <= n - 1
        ensures Occurs(t[1..], from, k) <==> Occurs(t, from, k + 1)
      {
        OccursShift(t, from, 1, k);
      }
      Skips(t[1..], from, into, n - 1);
      assert t[..n] == [t[0]] + t[1..][..n - 1];
      if n < |t| {
        assert t[1..][n - 1 + |from|..] == t[n + |from|..];
      }
    }
  }

  // ---------------------------------------------------------------- exactly the occurrences

  /** No shorter end of p is also a start of it, so its occurrences never overlap. */
  ghost predicate NoBorder(p: string) {
    forall k :: 0 < k < |p| ==> p[k..] != p[..|p| - k]
  }

  lemma Overlap(t: string, p: string, x: nat, y: nat)
    requires Occurs(t, p, x) && Occurs(t, p, y) && x <= y <= x + |p|
    ensures p[y - x..] == p[..|p| - (y - x)]
  {
    var k := y - x;
    assert t[x..x + |p|][k..] == t[y..x + |p|];
    assert t[y..y + |p|][..|p| - k] == t[y..x + |p|];
  }

  lemma NoOverlap(t: string, p: string, x: nat, y: nat)
    requires NoBorder(p) && Occurs(t, p, x) && Occurs(t, p, y) && x < y
    ensures x + |p| <= y
  {
    if y < x + |p| {
      Overlap(t, p, x, y);
      assert false;
    }
  }

  /** No occurrence covers place i. */
  ghost predicate Free(t: string, p: string, i: nat) {
    forall x :: 0 <= x <= i < x + |p| ==> !Occurs(t, p, x)
  }

  lemma FreeShift(t: string, p: string, d: nat, i: nat)
    requires d <= |t| && Free(t, p, d + i)
    ensures Free(t[d..], p, i)
  {
    forall x | 0 <= x <= i < x + |p|
      ensures !Occurs(t[d..], p, x)
    {
      OccursShift(t, p, d, x);
      assert 0 <= d + x <= d + i < d + x + |p|;
    }
  }

  /** Exactly the occurrences are replaced, and the length stays. */
  ghost predicate Replaces(t: string, from: string, into: string, s: string) {
    && |s| == |t|
    && (forall x :: 0 <= x && Occurs(t, from, x) ==> Occurs(s, into, x))
    && (forall i :: 0 <= i < |t| && Free(t, from, i) ==> s[i] == t[i])
  }

  lemma {:induction false} SwappedReplaces(t: string, from: string, into: string)
    requires from != [] && |from| == |into| && NoBorder(from)
    ensures Replaces(t, from, into, Swapped(t, from, into))
    decreases |t|
  {
    hide Occurs;
    if t == [] {
      NothingIn(from);
    } else {
      OccursFirst(t, from);
      if from <= t {
        SwappedReplaces(t[|from|..], from, into);
        HeadReplaced(t, from, into, Swapped(t[|from|..], from, into));
      } else {
        SwappedReplaces(t[1..], from, into);
        HeadKept(t, from, into, Swapped(t[1..], from, into));
      }
    }
  }

  lemma NothingIn(p: string)
    requires p != []
    ensures forall x :: 0 <= x ==> !Occurs("", p, x)
  {
  }

  lemma HeadReplaced(t: string, from: string, into: string, r: string)
    requires |from| == |into| > 0 && NoBorder(from) && from <= t && Replaces(t[|from|..], from, into, r)
    ensures Replaces(t, from, into, into + r)
  {
    hide Occurs;
    var s, n := into + r, |from|;
    assert s[n..] == r;
    OccursFirst(t, from);
    OccursFirst(s, into);
    forall x | 0 <= x && Occurs(t, from, x)
      ensures Occurs(s, into, x)
    {
      if x > 0 {
        NoOverlap(t, from, 0, x);
        OccursShift(t, from, n, x - n);
        OccursShift(s, into, n, x - n);
      }
    }
    forall i | 0 <= i < |t| && Free(t, from, i)
      ensures s[i] == t[i]
    {
      assert i < n ==> 0 <= 0 <= i < 0 + |from|;
      FreeShift(t, from, n, i - n);
    }
  }

  lemma HeadKept(t: string, from: string, into: string, r: string)
    requires |from| == |into| > 0 && t != [] && !(from <= t) && Replaces(t[1..], from, into, r)
    ensures Replaces(t, from, into, [t[0]] + r)
  {
    hide Occurs;
    var s := [t[0]] + r;
    assert s[1..] == r;
    OccursFirst(t, from);
    forall x | 0 <= x && Occurs(t, from, x)
      ensures Occurs(s, into, x)
    {
      OccursShift(t, from, 1, x - 1);
      OccursShift(s, into, 1, x - 1);
    }
    forall i | 0 <= i < |t| && Free(t, from, i)
      ensures s[i] == t[i]
    {
      if i > 0 {
        FreeShift(t, from, 1, i - 1);
      }
    }
  }

  // ---------------------------------------------------------------- masking and unmasking the own hash

  const PLACEHOLDER: string := "eeeeeeeeeeeeeeeeeeeeeeeeeeeeeeee"

  function Pattern(dir: string, hash: string): string {
    dir + "/" + hash + "-"
  }

  /** MaskOut and UnmaskOut; without an own output hash they change nothing. */
  function SwapOutHash(dir: string, outHash: string, bytes: string, back: bool): string {
    if outHash == [] then bytes
    else if back then Swapped(bytes, Pattern(dir, PLACEHOLDER), Pattern(dir, outHash))
    else Swapped(bytes, Pattern(dir, outHash), Pattern(dir, PLACEHOLDER))
  }

  /** The start of a swapped text is that of the text, or an inserted piece has begun by then. */
  lemma {:induction false} SameUntilSwap(t: string, from: string, into: string, n: nat)
    requires from != [] && |from| == |into| && n <= |t|
    ensures |Swapped(t, from, into)| == |t|
    ensures Swapped(t, from, into)[..n] == t[..n] || exists j :: 0 <= j < n && Occurs(Swapped(t, from, into), into, j)
    decreases |t|
  {
    if t != [] {
      var s := Swapped(t, from, into);
      if from <= t {
        SameUntilSwap(t[|from|..], from, into, 0);
        OccursFirst(s, into);
        if n == 0 {
          assert s[..0] == t[..0];
        }
      } else if n > 0 {
        SameUntilSwap(t[1..], from, into, n - 1);
        var r := Swapped(t[1..], from, into);
        assert s[1..] == r;
        if r[..n - 1] == t[1..][..n - 1] {
          assert s[..n] == [t[0]] + r[..n - 1];
          assert t[..n] == [t[0]] + t[1..][..n - 1];
        } else {
          var j :| 0 <= j < n - 1 && Occurs(r, into, j);
          OccursShift(s, into, 1, j);
        }
      } else {
        SameUntilSwap(t[1..], from, into, 0);
        assert s[..0] == t[..0];
      }
    }
  }

  ghost predicate Absent(t: string, p: string) {
    forall x :: 0 <= x ==> !Occurs(t, p, x)
  }

  lemma AbsentTail(t: string, p: string, d: nat)
    requires Absent(t, p) && d <= |t|
    ensures Absent(t[d..], p)
  {
    forall x | 0 <= x
      ensures !Occurs(t[d..], p, x)
    {
      OccursShift(t, p, d, x);
    }
  }

  /** Swapping in a placeholder the text does not hold, and the placeholder for something else, is
      swapping for that directly. */
  lemma {:induction false} SwapTwice(t: string, a: string, b: string, c: string)
    requires |a| == |b| == |c| > 0 && NoBorder(b) && Absent(t, b)
    ensures Swapped(Swapped(t, a, b), b, c) == Swapped(t, a, c)
    decreases |t|
  {
    hide Occurs, Absent, NoBorder;
    if t != [] {
      if a <= t {
        AbsentTail(t, b, |a|);
        var r := Swapped(t[|a|..], a, b);
        assert (b + r)[|b|..] == r;
        SwapTwice(t[|a|..], a, b, c);
      } else {
        AbsentTail(t, b, 1);
        var r := Swapped(t[1..], a, b);
        NotSpurious(t, a, b);
        assert ([t[0]] + r)[1..] == r;
        SwapTwice(t[1..], a, b, c);
      }
    }
  }

  /** Behind a kept character the placeholder does not appear out of nowhere. */
  lemma NotSpurious(t: string, a: string, b: string)
    requires |a| == |b| > 0 && NoBorder(b) && Absent(t, b) && t != [] && !(a <= t)
    ensures !(b <= [t[0]] + Swapped(t[1..], a, b))
  {
    hide Absent, NoBorder;
    var s, n := [t[0]] + Swapped(t[1..], a, b), |b|;
    SameUntilSwap(t[1..], a, b, 0);
    if b <= s {
      OccursFirst(s, b);
      SameUntilSwap(t[1..], a, b, n - 1);
      var r := Swapped(t[1..], a, b);
      assert s[1..] == r;
      if r[..n - 1] == t[1..][..n - 1] {
        assert t[..n] == [t[0]] + t[1..][..n - 1] == s[..n];
        OccursFirst(t, b);
        Present(t, b);
      } else {
        var j :| 0 <= j < n - 1 && Occurs(r, b, j);
        OccursShift(s, b, 1, j);
        NoOverlap(s, b, 0, 1 + j);
      }
      assert false;
    }
  }

  lemma Present(t: string, b: string)
    requires Occurs(t, b, 0)
    ensures !Absent(t, b)
  {
  }

  lemma {:induction false} SwapSelf(t: string, a: string)
    requires a != []
    ensures Swapped(t, a, a) == t
    decreases |t|
  {
    if t != [] {
      if a <= t {
        SwapSelf(t[|a|..], a);
        assert t == a + t[|a|..];
      } else {
        SwapSelf(t[1..], a);
        assert t == [t[0]] + t[1..];
      }
    }
  }

  /** Masked under one build's output hash and unmasked under another's, exactly the occurrences of the
      first `<store>/<hash>-` become the second, the length stays; under the same hash nothing changed. */
  lemma MaskThenUnmask(dir: string, h1: string, h2: string, bytes: string)
    requires |h1| == |h2| == HASH_LENGTH && Absent(bytes, Pattern(dir, PLACEHOLDER))
    requires NoBorder(Pattern(dir, PLACEHOLDER)) && NoBorder(Pattern(dir, h1))
    ensures var out := SwapOutHash(dir, h2, SwapOutHash(dir, h1, bytes, false), true);
            Replaces(bytes, Pattern(dir, h1), Pattern(dir, h2), out) && (h1 == h2 ==> out == bytes)
  {
    hide Swapped, Absent, NoBorder, Replaces;
    var a, b, c := Pattern(dir, h1), Pattern(dir, PLACEHOLDER), Pattern(dir, h2);
    SwapTwice(bytes, a, b, c);
    SwappedReplaces(bytes, a, c);
    SwapSelf(bytes, a);
  }

  /** The patterns of the usual store directory never overlap themselves. */
  lemma NixStorePatterns(hash: string)
    requires |hash| == HASH_LENGTH && '/' !in hash
    ensures NoBorder(Pattern("/nix/store", hash))
  {
    var p := Pattern("/nix/store", hash);
    assert p[0] == '/' && p[1] == 'n' && p[4] == '/' && p[5] == 's' && p[10] == '/';
    forall k | 0 < k < |p|
      ensures p[k..] != p[..|p| - k]
    {
      if k == 4 {
        assert p[k..][1] == 's' && p[..|p| - k][1] == 'n';
      } else if k == 10 {
        assert p[k..][4] == hash[3] && p[..|p| - k][4] == '/';
      } else {
        assert p[k..][0] == p[k] && p[..|p| - k][0] == '/';
        NoSlash(hash, k);
      }
    }
  }

  lemma NoSlash(hash: string, k: nat)
    requires '/' !in hash && |hash| == HASH_LENGTH && k < |Pattern("/nix/store", hash)| && k != 0 && k != 4 && k != 10
    ensures Pattern("/nix/store", hash)[k] != '/'
  {
    var p := Pattern("/nix/store", hash);
    if k >= 11 {
      assert p[k] == (hash + "-")[k - 11];
    } else {
      assert p[k] == "/nix/store"[k];
    }
  }

  // ---------------------------------------------------------------- masking every store hash

  const BASE32: string := "0123456789abcdfghijklmnpqrsvwxyz"

  predicate IsStoreHash(s: string) {
    |s| == HASH_LENGTH && forall i :: 0 <= i < |s| ==> s[i] in BASE32
  }

  /** A hash and its dash stand at x. */
  predicate HashAt(t: string, x: nat) {
    |t| > x + HASH_LENGTH && t[x + HASH_LENGTH] == '-' && IsStoreHash(t[x..x + HASH_LENGTH])
  }

  /** What the scan makes of a text: behind each store prefix it meets, a hash becomes "*"; otherwise it
      goes on one character further. */
  function MaskHashes(prefix: string, t: string): string
    requires prefix != []
    decreases |t|, 1
  {
    var n := FindText(t, prefix);
    if n == |t| then t else MaskBehind(prefix, t, n + |prefix|)
  }

  /** The prefix ends at x. */
  function MaskBehind(prefix: string, t: string, x: nat): string
    requires prefix != [] && x <= |t|
    decreases |t|, 0
  {
    if HashAt(t, x) then t[..x] + "*" + MaskHashes(prefix, t[x + HASH_LENGTH..])
    else if x < |t| then t[..x + 1] + MaskHashes(prefix, t[x + 1..])
    else t
  }

  lemma HashShift(t: string, d: nat, x: nat)
    requires d + x <= |t|
    ensures HashAt(t[d..], x) <==> HashAt(t, d + x)
  {
    if d + x + HASH_LENGTH < |t| {
      var a, b := t[d..][x..x + HASH_LENGTH], t[d + x..d + x + HASH_LENGTH];
      assert forall i :: 0 <= i < HASH_LENGTH ==> a[i] == b[i];
      assert a == b;
    }
  }

  lemma FindIn(prefix: string, t: string, pos: nat, next: nat)
    requires prefix != [] && pos <= next <= |t|
    requires (next < |t| ==> Occurs(t, prefix, next)) && forall k :: pos <= k < next ==> !Occurs(t, prefix, k)
    ensures FindText(t[pos..], prefix) == next - pos
  {
    hide Occurs, FindFrom;
    var n := FindText(t[pos..], prefix);
    FindIs(t[pos..], prefix, 0);
    OccursShift(t, prefix, pos, n);
    OccursShift(t, prefix, pos, next - pos);
    assert pos + (next - pos) == next;
  }

  /** The ways a round of the loop goes: a hash behind the next prefix, or none. */
  lemma UnfoldHit(prefix: string, s: string, n: nat)
    requires prefix != [] && n == FindText(s, prefix) < |s| && HashAt(s, n + |prefix|)
    ensures n + |prefix| + HASH_LENGTH < |s|
    ensures MaskHashes(prefix, s) == s[..n + |prefix|] + "*" + MaskHashes(prefix, s[n + |prefix| + HASH_LENGTH..])
  {
    hide HashAt, Occurs, FindText;
    HashFits(s, n + |prefix|);
  }

  lemma UnfoldMiss(prefix: string, s: string, n: nat)
    requires prefix != [] && n == FindText(s, prefix) < |s| && !HashAt(s, n + |prefix|)
    ensures n + |prefix| <= |s|
    ensures MaskHashes(prefix, s) ==
              if n + |prefix| < |s| then s[..n + |prefix| + 1] + MaskHashes(prefix, s[n + |prefix| + 1..]) else s
  {
    hide HashAt, Occurs, FindText;
  }

  lemma OccursFits(t: string, p: string, x: nat)
    requires Occurs(t, p, x)
    ensures x + |p| <= |t|
  {
  }

  lemma MaskNone(prefix: string, t: string, pos: nat)
    requires prefix != [] && pos <= |t| && forall k :: pos <= k < |t| ==> !Occurs(t, prefix, k)
    ensures MaskHashes(prefix, t[pos..]) == t[pos..]
  {
    hide Occurs;
    FindIn(prefix, t, pos, |t|);
  }

  lemma MaskHit(prefix: string, t: string, pos: nat, next: nat)
    requires prefix != [] && pos <= next < |t| && Occurs(t, prefix, next)
    requires forall k :: pos <= k < next ==> !Occurs(t, prefix, k)
    requires HashAt(t, next + |prefix|)
    ensures next + |prefix| + HASH_LENGTH < |t|
    ensures MaskHashes(prefix, t[pos..]) ==
              t[pos..next + |prefix|] + "*" + MaskHashes(prefix, t[next + |prefix| + HASH_LENGTH..])
  {
    hide Occurs, HashAt, FindText, MaskHashes;
    HashFits(t, next + |prefix|);
    FindIn(prefix, t, pos, next);
    var x, s := next + |prefix|, t[pos..];
    HashShift(t, pos, x - pos);
    UnfoldHit(prefix, s, next - pos);
    SliceOfTail(t, pos, x);
    TailOfTail(t, pos, x + HASH_LENGTH);
  }

  lemma SliceOfTail(t: string, pos: nat, x: nat)
    requires pos <= x <= |t|
    ensures t[pos..][..x - pos] == t[pos..x]
  {
  }

  lemma TailOfTail(t: string, pos: nat, x: nat)
    requires pos <= x <= |t|
    ensures t[pos..][x - pos..] == t[x..]
  {
  }

  lemma MaskMiss(prefix: string, t: string, pos: nat, next: nat)
    requires prefix != [] && pos <= next < |t| && Occurs(t, prefix, next)
    requires forall k :: pos <= k < next ==> !Occurs(t, prefix, k)
    requires !HashAt(t, next + |prefix|)
    ensures next + |prefix| <= |t|
    ensures MaskHashes(prefix, t[pos..]) ==
              if next + |prefix| < |t|
              then t[pos..next + |prefix| + 1] + MaskHashes(prefix, t[next + |prefix| + 1..])
              else t[pos..]
  {
    hide Occurs, HashAt, FindText, MaskHashes;
    FindIn(prefix, t, pos, next);
    var x, s := next + |prefix|, t[pos..];
    OccursFits(t, prefix, next);
    HashShift(t, pos, x - pos);
    UnfoldMiss(prefix, s, next - pos);
    if x < |t| {
      assert s[..x - pos + 1] == t[pos..x + 1];
      assert s[x - pos + 1..] == t[x + 1..];
    }
  }

  // ---------------------------------------------------------------- masking twice

  lemma InTake(m: string, n: nat, i: nat)
    requires i < n <= |m|
    ensures m[i] in m[..n]
  {
    assert m[..n][i] == m[i];
  }

  /** If the first n characters of a masked text hold no slash, they and the one behind are unmasked. */
  lemma WindowKept(prefix: string, t: string, n: nat)
    requires prefix != [] && prefix[|prefix| - 1] == '/'
    requires |MaskHashes(prefix, t)| > n && '/' !in MaskHashes(prefix, t)[..n]
    ensures |t| > n && MaskHashes(prefix, t)[..n + 1] == t[..n + 1]
  {
    hide HashAt;
    var m, k := MaskHashes(prefix, t), FindText(t, prefix);
    if k < |t| {
      var x := k + |prefix|;
      MaskKeepsHead(prefix, t);
      FindIs(t, prefix, 0);
      assert t[x - 1] == t[k..x][|prefix| - 1] == '/';
      assert m[x - 1] == m[..x][x - 1] == '/';
      var y: nat := x - 1;
      if y < n {
        InTake(m, n, y);
        assert false;
      }
      assert m[..n + 1] == m[..x][..n + 1] && t[..n + 1] == t[..x][..n + 1];
    }
  }

  lemma MaskKeepsHead(prefix: string, t: string)
    requires prefix != [] && FindText(t, prefix) < |t|
    ensures var x := FindText(t, prefix) + |prefix|;
            x <= |t| && x <= |MaskHashes(prefix, t)| && MaskHashes(prefix, t)[..x] == t[..x]
  {
    hide IsStoreHash;
    var x := FindText(t, prefix) + |prefix|;
    if x < |t| {
      assert t[..x + 1][..x] == t[..x];
    }
  }

  lemma OccursBefore(t: string, p: string, w: nat, k: nat)
    requires k + |p| <= w <= |t|
    ensures Occurs(t[..w], p, k) <==> Occurs(t, p, k)
  {
    assert t[..w][k..k + |p|] == t[k..k + |p|];
  }

  /** The first store prefix of a text is still the first if everything up to its end is kept. */
  lemma SameFind(t: string, u: string, p: string)
    requires p != [] && FindText(t, p) < |t| && FindText(t, p) + |p| <= |u|
    requires u[..FindText(t, p) + |p|] == t[..FindText(t, p) + |p|]
    ensures FindText(u, p) == FindText(t, p)
  {
    hide Occurs, FindFrom;
    var n := FindText(t, p);
    FindIs(t, p, 0);
    FindIs(u, p, 0);
    forall k | 0 <= k <= n
      ensures Occurs(u, p, k) <==> Occurs(t, p, k)
    {
      OccursBefore(t, p, n + |p|, k);
      OccursBefore(u, p, n + |p|, k);
    }
  }

  lemma HashSame(t: string, u: string, x: nat)
    requires x + HASH_LENGTH < |t| && x + HASH_LENGTH < |u| && t[x..x + HASH_LENGTH + 1] == u[x..x + HASH_LENGTH + 1]
    ensures HashAt(t, x) <==> HashAt(u, x)
  {
    var a, b := t[x..x + HASH_LENGTH + 1], u[x..x + HASH_LENGTH + 1];
    assert a[HASH_LENGTH] == t[x + HASH_LENGTH] && b[HASH_LENGTH] == u[x + HASH_LENGTH];
    assert t[x..x + HASH_LENGTH] == a[..HASH_LENGTH] && u[x..x + HASH_LENGTH] == b[..HASH_LENGTH];
  }

  lemma HashNoSlash(t: string, x: nat, i: nat)
    requires HashAt(t, x) && x <= i < x + HASH_LENGTH
    ensures t[i] != '/'
  {
    assert t[x..x + HASH_LENGTH][i - x] == t[i];
  }

  /** What looks like a hash after the rest was masked was already there. */
  lemma HashWasThere(prefix: string, t: string, x: nat)
    requires prefix != [] && prefix[|prefix| - 1] == '/' && x < |t|
    requires HashAt(t[..x + 1] + MaskHashes(prefix, t[x + 1..]), x)
    ensures x + HASH_LENGTH < |t|
    ensures t[x..x + HASH_LENGTH + 1] == (t[..x + 1] + MaskHashes(prefix, t[x + 1..]))[x..x + HASH_LENGTH + 1]
  {
    hide MaskHashes, HashAt;
    var m, n := MaskHashes(prefix, t[x + 1..]), HASH_LENGTH - 1;
    var u := t[..x + 1] + m;
    HashFits(u, x);
    forall i | 0 <= i < n
      ensures m[i] != '/'
    {
      HashNoSlash(u, x, x + 1 + i);
    }
    WindowKept(prefix, t[x + 1..], n);
    assert u[x..x + HASH_LENGTH + 1] == [t[x]] + m[..n + 1];
    assert t[x..x + HASH_LENGTH + 1] == [t[x]] + t[x + 1..][..n + 1];
  }

  /** A place that held no hash holds none after what follows it was masked. */
  lemma StillNoHash(prefix: string, t: string, x: nat)
    requires prefix != [] && prefix[|prefix| - 1] == '/' && x < |t| && !HashAt(t, x)
    ensures !HashAt(t[..x + 1] + MaskHashes(prefix, t[x + 1..]), x)
  {
    hide MaskHashes, HashAt;
    var u := t[..x + 1] + MaskHashes(prefix, t[x + 1..]);
    if HashAt(u, x) {
      HashWasThere(prefix, t, x);
      HashFits(u, x);
      HashSame(t, u, x);
      assert false;
    }
  }

  /** Masking is idempotent on every text, although the scan skips positions and its replacements
      shrink the text. */
  lemma {:induction false} MaskIdempotent(prefix: string, t: string)
    requires prefix != [] && prefix[|prefix| - 1] == '/'
    ensures MaskHashes(prefix, MaskHashes(prefix, t)) == MaskHashes(prefix, t)
    decreases |t|
  {
    hide HashAt, FindText, MaskBehind;
    var n, m := FindText(t, prefix), MaskHashes(prefix, t);
    if n < |t| {
      hide MaskHashes;
      var x := n + |prefix|;
      if HashAt(t, x) {
        UnfoldHit(prefix, t, n);
        MaskIdempotent(prefix, t[x + HASH_LENGTH..]);
        AgainAfterHash(prefix, t, n, m);
      } else {
        UnfoldMiss(prefix, t, n);
        if x < |t| {
          MaskIdempotent(prefix, t[x + 1..]);
          AgainAfterMiss(prefix, t, n, m);
        }
      }
    }
  }

  lemma AgainAfterHash(prefix: string, t: string, n: nat, m: string)
    requires prefix != [] && n == FindText(t, prefix) < |t| && n + |prefix| + HASH_LENGTH < |t|
    requires m == t[..n + |prefix|] + "*" + MaskHashes(prefix, t[n + |prefix| + HASH_LENGTH..])
    requires var r := MaskHashes(prefix, t[n + |prefix| + HASH_LENGTH..]); MaskHashes(prefix, r) == r
    ensures MaskHashes(prefix, m) == m
  {
    hide HashAt, FindText, MaskHashes;
    var x := n + |prefix|;
    var r := MaskHashes(prefix, t[x + HASH_LENGTH..]);
    assert m[..x] == t[..x] && m[..x + 1] == t[..x] + "*" && m[x + 1..] == r;
    SameFind(t, m, prefix);
    StarIsNoHash(m, x);
    UnfoldMiss(prefix, m, n);
  }

  lemma AgainAfterMiss(prefix: string, t: string, n: nat, m: string)
    requires prefix != [] && prefix[|prefix| - 1] == '/' && n == FindText(t, prefix) < |t| && n + |prefix| < |t|
    requires !HashAt(t, n + |prefix|) && m == t[..n + |prefix| + 1] + MaskHashes(prefix, t[n + |prefix| + 1..])
    requires var r := MaskHashes(prefix, t[n + |prefix| + 1..]); MaskHashes(prefix, r) == r
    ensures MaskHashes(prefix, m) == m
  {
    hide HashAt, FindText, MaskHashes;
    var x := n + |prefix|;
    var r := MaskHashes(prefix, t[x + 1..]);
    assert m[..x] == t[..x] && m[..x + 1] == t[..x + 1] && m[x + 1..] == r;
    SameFind(t, m, prefix);
    StillNoHash(prefix, t, x);
    UnfoldMiss(prefix, m, n);
  }

  lemma HashFits(t: string, x: nat)
    requires HashAt(t, x)
    ensures x + HASH_LENGTH < |t|
  {
  }

  lemma StarIsNoHash(t: string, x: nat)
    requires x < |t| && t[x] == '*'
    ensures !HashAt(t, x)
  {
    if |t| > x + HASH_LENGTH {
      assert t[x..x + HASH_LENGTH][0] == '*';
    }
  }

  // ---------------------------------------------------------------- resolving a masked path

  /** <store>/<hash-name>, what a declared root is cut to. */
  function RootOf(dir: string, root: string): string {
    if |dir| + 1 <= |root| then root[..FindFrom(root, "/", |dir| + 1)] else root
  }

  /** The first of the declared roots with a masked name. */
  function MaskedToReal(dir: string, roots: seq<string>): map<string, string>
    decreases |roots|
  {
    if roots == [] then map[]
    else
      var before, root := MaskedToReal(dir, roots[..|roots| - 1]), RootOf(dir, roots[|roots| - 1]);
      var masked := MaskHashes(dir + "/", root);
      if masked != root && masked !in before then before[masked := root] else before
  }

  function Resolve(dir: string, roots: map<string, string>, path: string): Option<string> {
    if !(dir + "/*-" <= path) then Some(path)
    else
      var slash := FindFrom(path, "/", |dir| + 3);
      if path[..slash] in roots then Some(roots[path[..slash]] + path[slash..]) else None
  }

  lemma {:induction false} UniqueRoot(dir: string, roots: seq<string>, root: string)
    requires root in roots && MaskHashes(dir + "/", RootOf(dir, root)) != RootOf(dir, root)
    requires forall r :: r in roots ==>
               MaskHashes(dir + "/", RootOf(dir, r)) == MaskHashes(dir + "/", RootOf(dir, root)) ==>
                 RootOf(dir, r) == RootOf(dir, root)
    ensures var masked := MaskHashes(dir + "/", RootOf(dir, root));
            masked in MaskedToReal(dir, roots) && MaskedToReal(dir, roots)[masked] == RootOf(dir, root)
    decreases |roots|
  {
    hide MaskHashes, RootOf;
    var front, last := roots[..|roots| - 1], roots[|roots| - 1];
    assert last in roots && forall r :: r in front ==> r in roots;
    if root in front {
      UniqueRoot(dir, front, root);
    } else {
      assert root == last;
      ComesFrom(dir, front, MaskHashes(dir + "/", RootOf(dir, root)));
    }
  }

  lemma {:induction false} ComesFrom(dir: string, roots: seq<string>, masked: string)
    ensures masked in MaskedToReal(dir, roots) ==>
              exists r :: r in roots && MaskHashes(dir + "/", RootOf(dir, r)) == masked
                && MaskedToReal(dir, roots)[masked] == RootOf(dir, r)
    decreases |roots|
  {
    hide MaskHashes, RootOf;
    if roots != [] {
      ComesFrom(dir, roots[..|roots| - 1], masked);
      assert roots[|roots| - 1] in roots;
    }
  }

  /** A store path: its root's hash and name, and the rest below it. */
  ghost predicate StorePath(dir: string, hash: string, name: string, rest: string) {
    && IsStoreHash(hash) && '/' !in name && (rest != [] ==> rest[0] == '/')
    && Absent("-" + name + rest, dir + "/")
  }

  /** Only the root's hash is masked when no other store path follows. */
  lemma MaskedPath(dir: string, hash: string, tail: string)
    requires IsStoreHash(hash) && tail != [] && tail[0] == '-' && Absent(tail, dir + "/")
    ensures MaskHashes(dir + "/", dir + "/" + hash + tail) == dir + "/*" + tail
  {
    hide IsStoreHash, Absent, HashAt;
    HashLong(hash);
    var p := dir + "/";
    var t := p + hash + tail;
    assert t == dir + "/" + hash + tail;
    OccursFirst(t, p);
    assert p <= t;
    assert FindText(t, p) == 0;
    IsHashAt(p, hash, tail);
    UnfoldHit(p, t, 0);
    assert t[|p| + HASH_LENGTH..] == tail;
    MaskAbsent(p, tail);
    assert t[..|p|] == p;
    assert p + "*" + tail == dir + "/*" + tail;
  }

  lemma IsHashAt(p: string, hash: string, tail: string)
    requires IsStoreHash(hash) && tail != [] && tail[0] == '-'
    ensures HashAt(p + hash + tail, |p|)
  {
    hide IsStoreHash;
    HashLong(hash);
    var t := p + hash + tail;
    assert t[|p|..|p| + HASH_LENGTH] == hash;
    assert t[|p| + HASH_LENGTH] == tail[0];
  }

  lemma HashLong(hash: string)
    requires IsStoreHash(hash)
    ensures |hash| == HASH_LENGTH
  {
  }

  lemma MaskAbsent(p: string, t: string)
    requires p != [] && Absent(t, p)
    ensures MaskHashes(p, t) == t
  {
    FindIs(t, p, 0);
  }

  lemma OccursPart(t: string, p: string, n: nat, x: nat)
    requires n <= |t|
    ensures Occurs(t[..n], p, x) ==> Occurs(t, p, x)
  {
    if x + |p| <= n {
      assert t[..n][x..x + |p|] == t[x..x + |p|];
    }
  }

  lemma AbsentPart(t: string, p: string, n: nat)
    requires Absent(t, p) && n <= |t|
    ensures Absent(t[..n], p)
  {
    forall x | 0 <= x
      ensures !Occurs(t[..n], p, x)
    {
      OccursPart(t, p, n, x);
    }
  }

  /** Under a declared root whose masked name is unique, resolving a masked path gives the path back. */
  lemma ResolveMasked(dir: string, roots: seq<string>, hash: string, name: string, rest: string)
    requires StorePath(dir, hash, name, rest)
    requires dir + "/" + hash + "-" + name in roots
    requires forall r :: r in roots && MaskHashes(dir + "/", RootOf(dir, r)) == dir + "/*-" + name ==>
               RootOf(dir, r) == dir + "/" + hash + "-" + name
    ensures var path := dir + "/" + hash + "-" + name + rest;
            Resolve(dir, MaskedToReal(dir, roots), MaskHashes(dir + "/", path)) == Some(path)
  {
    hide IsStoreHash, Absent, MaskHashes, MaskedToReal, FindFrom;
    var root, tail := dir + "/" + hash + "-" + name, "-" + name + rest;
    var path, masked := root + rest, dir + "/*-" + name;
    assert path == dir + "/" + hash + tail;
    MaskedPath(dir, hash, tail);
    assert dir + "/*" + tail == masked + rest;
    AbsentPart(tail, dir + "/", 1 + |name|);
    assert tail[..1 + |name|] == "-" + name;
    MaskedPath(dir, hash, "-" + name);
    assert dir + "/" + hash + ("-" + name) == root;
    assert dir + "/*" + ("-" + name) == masked;
    WholeRoot(dir, hash, name);
    StarIsNew(dir, hash, name);
    UniqueRoot(dir, roots, root);
    SlashAfter(dir, name, rest);
    assert (masked + rest)[..|masked|] == masked && (masked + rest)[|masked|..] == rest;
  }

  lemma StarIsNew(dir: string, hash: string, name: string)
    requires IsStoreHash(hash)
    ensures dir + "/*-" + name != dir + "/" + hash + "-" + name
  {
    assert |dir + "/*-" + name| < |dir + "/" + hash + "-" + name|;
  }

  /** The first place that fits is the one found. */
  lemma FindUnique(t: string, p: string, pos: nat, m: nat)
    requires p != [] && pos <= m <= |t| && (m < |t| ==> Occurs(t, p, m))
    requires forall k :: pos <= k < m ==> !Occurs(t, p, k)
    ensures FindFrom(t, p, pos) == m
  {
    hide Occurs, FindFrom;
    FindIs(t, p, pos);
  }

  lemma SlashOccurs(t: string, k: nat)
    requires k < |t|
    ensures Occurs(t, "/", k) <==> t[k] == '/'
  {
    assert t[k..k + 1] == [t[k]];
  }

  lemma WholeRoot(dir: string, hash: string, name: string)
    requires IsStoreHash(hash) && '/' !in name
    ensures RootOf(dir, dir + "/" + hash + "-" + name) == dir + "/" + hash + "-" + name
  {
    hide IsStoreHash, Occurs;
    var root := dir + "/" + hash + "-" + name;
    forall k | |dir| + 1 <= k < |root|
      ensures !Occurs(root, "/", k)
    {
      SlashOccurs(root, k);
      assert root[k] == (hash + "-" + name)[k - |dir| - 1];
      HashChars(hash, name, k - |dir| - 1);
    }
    FindUnique(root, "/", |dir| + 1, |root|);
  }

  lemma HashChars(hash: string, name: string, k: nat)
    requires IsStoreHash(hash) && '/' !in name && k < |hash + "-" + name|
    ensures (hash + "-" + name)[k] != '/'
  {
    if k < HASH_LENGTH {
      assert hash[k] in BASE32;
    } else if k > HASH_LENGTH {
      assert (hash + "-" + name)[k] == name[k - HASH_LENGTH - 1];
    }
  }

  lemma SlashAfter(dir: string, name: string, rest: string)
    requires '/' !in name && (rest != [] ==> rest[0] == '/')
    ensures FindFrom(dir + "/*-" + name + rest, "/", |dir| + 3) == |dir + "/*-" + name|
  {
    hide Occurs;
    var t := dir + "/*-" + name + rest;
    var m := |dir| + 3 + |name|;
    if rest != [] {
      assert t[m] == rest[0];
      SlashOccurs(t, m);
    }
    forall k | |dir| + 3 <= k < m
      ensures !Occurs(t, "/", k)
    {
      SlashOccurs(t, k);
      assert t[k] == name[k - |dir| - 3];
    }
    FindUnique(t, "/", |dir| + 3, m);
  }
}

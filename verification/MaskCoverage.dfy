/** Which store hashes MaskHashes (store.cc) masks. The scan looks at the first store prefix from where it
    stands and goes on behind it, so a prefix that starts within the one before is not looked at. What
    the scan makes of a text is said here without the scan's own recursion: by the places it looks at,
    all of them places of the original text. */
module MaskCoverage {
  import opened StoreNames

  // ---------------------------------------------------------------- the places looked at

  /** Where the scan goes on after the prefix at x: behind the hash it replaced, or one character behind
      the prefix. */
  function Resume(p: string, t: string, x: nat): nat {
    if HashAt(t, x + |p|) then x + |p| + HASH_LENGTH else x + |p| + 1
  }

  /** The prefixes a scan from pos on looks at. */
  ghost function VisitedFrom(p: string, t: string, pos: nat): set<nat>
    requires p != []
    decreases |t| - pos
  {
    if pos > |t| || FindFrom(t, p, pos) == |t| then {}
    else {FindFrom(t, p, pos)} + VisitedFrom(p, t, Resume(p, t, FindFrom(t, p, pos)))
  }

  /** The hashes behind them. */
  ghost function MaskedFrom(p: string, t: string, pos: nat): set<nat>
    requires p != []
  {
    set x | x in VisitedFrom(p, t, pos) && HashAt(t, x + |p|) :: x + |p|
  }

  ghost function Masked(p: string, t: string): set<nat>
    requires p != []
  {
    MaskedFrom(p, t, 0)
  }

  lemma {:induction false} VisitedAre(p: string, t: string, pos: nat)
    requires p != []
    ensures forall y :: y in VisitedFrom(p, t, pos) ==> pos <= y < |t| && Occurs(t, p, y)
    decreases |t| - pos
  {
    hide Occurs, HashAt, FindFrom;
    if pos <= |t| && FindFrom(t, p, pos) < |t| {
      FindIs(t, p, pos);
      VisitedAre(p, t, Resume(p, t, FindFrom(t, p, pos)));
    }
  }

  lemma FindBelow(p: string, t: string, pos: nat, y: nat)
    requires p != [] && pos <= y && Occurs(t, p, y)
    ensures y < |t| && FindFrom(t, p, pos) <= y
  {
    hide FindFrom;
    FindIs(t, p, pos);
  }

  /** An occurrence is looked at unless it starts before the scan goes on from one that was. */
  lemma {:induction false} VisitedIff(p: string, t: string, pos: nat, y: nat)
    requires p != [] && pos <= y && Occurs(t, p, y)
    ensures y in VisitedFrom(p, t, pos) <==> !exists x: nat :: x in VisitedFrom(p, t, pos) && x < y < Resume(p, t, x)
    decreases |t| - pos
  {
    hide Occurs, Resume, FindFrom;
    FindBelow(p, t, pos, y);
    var n := FindFrom(t, p, pos);
    var next := Resume(p, t, n);
    ResumeAfter(p, t, n);
    VisitedAre(p, t, next);
    assert VisitedFrom(p, t, pos) == {n} + VisitedFrom(p, t, next);
    if n < y {
      if y < next {
        assert n in VisitedFrom(p, t, pos);
      } else {
        VisitedIff(p, t, next, y);
      }
    }
  }

  lemma ResumeAfter(p: string, t: string, x: nat)
    ensures Resume(p, t, x) > x + |p|
  {
  }

  // ---------------------------------------------------------------- a text with hashes replaced

  /** t from lo to hi, each hash that starts at a place in m replaced by "*". */
  ghost function Stars(t: string, m: set<nat>, lo: nat, hi: nat): string
    decreases hi - lo
  {
    if lo >= hi || lo >= |t| then ""
    else if lo in m then "*" + Stars(t, m, lo + HASH_LENGTH, hi)
    else [t[lo]] + Stars(t, m, lo + 1, hi)
  }

  lemma {:induction false} StarsNone(t: string, m: set<nat>, lo: nat, hi: nat)
    requires lo <= hi <= |t| && forall i :: lo <= i < hi ==> i !in m
    ensures Stars(t, m, lo, hi) == t[lo..hi]
    decreases hi - lo
  {
    if lo < hi {
      StarsNone(t, m, lo + 1, hi);
    }
  }

  lemma {:induction false} StarsSame(t: string, m: set<nat>, n: set<nat>, lo: nat, hi: nat)
    requires forall i :: lo <= i < hi ==> (i in m <==> i in n)
    ensures Stars(t, m, lo, hi) == Stars(t, n, lo, hi)
    decreases hi - lo
  {
    if lo < hi {
      StarsSame(t, m, n, lo + 1, hi);
      StarsSame(t, m, n, lo + HASH_LENGTH, hi);
    }
  }

  /** No hash of m has x strictly inside. */
  ghost predicate Between(m: set<nat>, x: nat) {
    forall z :: z in m ==> !(z < x < z + HASH_LENGTH)
  }

  lemma {:induction false} StarsSplit(t: string, m: set<nat>, lo: nat, mid: nat, hi: nat)
    requires lo <= mid <= hi <= |t| && Between(m, mid)
    ensures Stars(t, m, lo, hi) == Stars(t, m, lo, mid) + Stars(t, m, mid, hi)
    decreases mid - lo
  {
    if lo < mid {
      if lo in m {
        StarsSplit(t, m, lo + HASH_LENGTH, mid, hi);
      } else {
        StarsSplit(t, m, lo + 1, mid, hi);
      }
    }
  }

  // ---------------------------------------------------------------- what the scan makes of a text

  lemma MaskedAre(p: string, t: string, pos: nat)
    requires p != []
    ensures forall z :: z in MaskedFrom(p, t, pos) ==> pos + |p| <= z && HashAt(t, z) && Occurs(t, p, z - |p|)
  {
    hide Occurs, HashAt, VisitedFrom;
    VisitedAre(p, t, pos);
  }

  lemma MaskedHit(p: string, t: string, pos: nat, n: nat)
    requires p != [] && pos <= |t| && n == FindFrom(t, p, pos) < |t| && HashAt(t, n + |p|)
    ensures MaskedFrom(p, t, pos) == {n + |p|} + MaskedFrom(p, t, n + |p| + HASH_LENGTH)
  {
    hide Occurs, HashAt, FindFrom;
    var rest := VisitedFrom(p, t, n + |p| + HASH_LENGTH);
    assert VisitedFrom(p, t, pos) == {n} + rest;
    assert n in VisitedFrom(p, t, pos) && forall x :: x in rest ==> x in VisitedFrom(p, t, pos);
  }

  lemma MaskedMiss(p: string, t: string, pos: nat, n: nat)
    requires p != [] && pos <= |t| && n == FindFrom(t, p, pos) < |t| && !HashAt(t, n + |p|)
    ensures MaskedFrom(p, t, pos) == MaskedFrom(p, t, n + |p| + 1)
  {
    hide Occurs, HashAt, FindFrom;
    var rest := VisitedFrom(p, t, n + |p| + 1);
    assert VisitedFrom(p, t, pos) == {n} + rest;
    assert forall x :: x in rest ==> x in VisitedFrom(p, t, pos);
  }

  /** Exactly the hashes behind the prefixes looked at are replaced, and nothing else changes. */
  lemma {:induction false} MaskIs(p: string, t: string, pos: nat)
    requires p != [] && pos <= |t|
    ensures MaskHashes(p, t[pos..]) == Stars(t, MaskedFrom(p, t, pos), pos, |t|)
    decreases |t| - pos
  {
    hide Occurs, HashAt, FindFrom, MaskHashes, MaskedFrom, Stars;
    var n := FindFrom(t, p, pos);
    FindIs(t, p, pos);
    if n == |t| {
      MaskNone(p, t, pos);
      MaskedNone(p, t, pos);
      StarsNone(t, MaskedFrom(p, t, pos), pos, |t|);
    } else {
      var x := n + |p|;
      if HashAt(t, x) {
        MaskHit(p, t, pos, n);
        MaskIs(p, t, x + HASH_LENGTH);
        StarsHit(p, t, pos, n);
      } else {
        MaskMiss(p, t, pos, n);
        StarsMiss(p, t, pos, n);
        if x < |t| {
          MaskIs(p, t, x + 1);
        }
      }
    }
  }

  lemma MaskedNone(p: string, t: string, pos: nat)
    requires p != [] && pos <= |t| && FindFrom(t, p, pos) == |t|
    ensures MaskedFrom(p, t, pos) == {}
  {
  }

  lemma StarsHit(p: string, t: string, pos: nat, n: nat)
    requires p != [] && pos <= |t| && n == FindFrom(t, p, pos) < |t| && HashAt(t, n + |p|)
    ensures var x := n + |p|;
            && pos <= x && x + HASH_LENGTH < |t|
            && Stars(t, MaskedFrom(p, t, pos), pos, |t|)
               == t[pos..x] + "*" + Stars(t, MaskedFrom(p, t, x + HASH_LENGTH), x + HASH_LENGTH, |t|)
  {
    hide Occurs, HashAt, FindFrom, MaskedFrom;
    var x, m, rest := n + |p|, MaskedFrom(p, t, pos), MaskedFrom(p, t, n + |p| + HASH_LENGTH);
    HashFits(t, x);
    MaskedHit(p, t, pos, n);
    MaskedAre(p, t, x + HASH_LENGTH);
    StarsSplit(t, m, pos, x, |t|);
    StarsNone(t, m, pos, x);
    StarsSame(t, m, rest, x + HASH_LENGTH, |t|);
    assert Stars(t, m, x, |t|) == "*" + Stars(t, m, x + HASH_LENGTH, |t|);
  }

  lemma StarsMiss(p: string, t: string, pos: nat, n: nat)
    requires p != [] && pos <= |t| && n == FindFrom(t, p, pos) < |t| && !HashAt(t, n + |p|)
    ensures var x := n + |p|;
            && x <= |t|
            && Stars(t, MaskedFrom(p, t, pos), pos, |t|)
               == if x < |t| then t[pos..x + 1] + Stars(t, MaskedFrom(p, t, x + 1), x + 1, |t|) else t[pos..]
  {
    hide Occurs, HashAt, FindFrom, MaskedFrom, Stars;
    var x, m := n + |p|, MaskedFrom(p, t, pos);
    MaskedMiss(p, t, pos, n);
    MaskedAre(p, t, x + 1);
    if x < |t| {
      StarsSplit(t, m, pos, x + 1, |t|);
      StarsNone(t, m, pos, x + 1);
    } else {
      StarsNone(t, m, pos, |t|);
    }
  }

  // ---------------------------------------------------------------- which hashes survive

  /** The scan has looked at a prefix before y and goes on behind y. */
  ghost predicate Skipped(p: string, t: string, y: nat)
    requires p != []
  {
    exists x: nat :: PassedBy(p, t, x, y)
  }

  ghost predicate PassedBy(p: string, t: string, x: nat, y: nat)
    requires p != []
  {
    x in VisitedFrom(p, t, 0) && x < y < Resume(p, t, x)
  }

  ghost predicate Prefix(p: string) {
    p != [] && p[|p| - 1] == '/'
  }

  /** A slash stands before a hash behind a prefix. */
  lemma SlashBefore(p: string, t: string, z: nat)
    requires Prefix(p) && z >= |p| && Occurs(t, p, z - |p|)
    ensures 0 < z <= |t| && t[z - 1] == '/'
  {
    assert t[z - |p|..z][|p| - 1] == t[z - 1];
  }

  /** So two hashes behind prefixes are the same or do not overlap. */
  lemma HashesApart(p: string, t: string, y: nat, z: nat)
    requires Prefix(p) && |p| <= y && |p| <= z && Occurs(t, p, y - |p|) && Occurs(t, p, z - |p|) && HashAt(t, y)
    requires HashAt(t, z)
    ensures y == z || y + HASH_LENGTH < z || z + HASH_LENGTH < y
  {
    hide Occurs, HashAt;
    SlashBefore(p, t, y);
    SlashBefore(p, t, z);
    if y < z <= y + HASH_LENGTH {
      HashNoSlash(t, y, z - 1);
      assert false;
    }
    if z < y <= z + HASH_LENGTH {
      HashNoSlash(t, z, y - 1);
      assert false;
    }
  }

  /** A hash behind a prefix stays, dash and all, if that prefix is skipped, and becomes "*" otherwise.
      What stands before and behind it is what is made of those parts of the text. */
  lemma SurvivesIff(p: string, t: string, y: nat)
    requires Prefix(p) && Occurs(t, p, y) && HashAt(t, y + |p|)
    ensures var z, m := y + |p|, Masked(p, t);
            && z + HASH_LENGTH + 1 <= |t|
            && MaskHashes(p, t) == Stars(t, m, 0, z)
                                   + (if Skipped(p, t, y) then t[z..z + HASH_LENGTH + 1] else "*-")
                                   + Stars(t, m, z + HASH_LENGTH + 1, |t|)
  {
    hide Occurs, HashAt, MaskHashes, Stars, Skipped, Between, Masked;
    MaskedIff(p, t, y);
    SplitAtHash(p, t, y + |p|);
    HashStars(p, t, y + |p|);
  }

  lemma SplitAtHash(p: string, t: string, z: nat)
    requires Prefix(p) && z >= |p| && Occurs(t, p, z - |p|) && HashAt(t, z)
    ensures z + HASH_LENGTH + 1 <= |t|
    ensures MaskHashes(p, t) == Stars(t, Masked(p, t), 0, z) + Stars(t, Masked(p, t), z, z + HASH_LENGTH + 1)
                                + Stars(t, Masked(p, t), z + HASH_LENGTH + 1, |t|)
  {
    hide Occurs, HashAt, MaskHashes, Stars, Between, Masked;
    HashFits(t, z);
    MaskIsAll(p, t);
    HashBounds(p, t, z);
    StarsThree(t, Masked(p, t), z, z + HASH_LENGTH + 1);
  }

  lemma MaskIsAll(p: string, t: string)
    requires p != []
    ensures MaskHashes(p, t) == Stars(t, Masked(p, t), 0, |t|)
  {
    hide MaskHashes, Stars, MaskedFrom;
    MaskIs(p, t, 0);
    assert t[0..] == t;
  }

  lemma StarsThree(t: string, m: set<nat>, lo: nat, hi: nat)
    requires lo <= hi <= |t| && Between(m, lo) && Between(m, hi)
    ensures Stars(t, m, 0, |t|) == Stars(t, m, 0, lo) + Stars(t, m, lo, hi) + Stars(t, m, hi, |t|)
  {
    hide Stars, Between;
    StarsSplit(t, m, 0, lo, |t|);
    StarsSplit(t, m, lo, hi, |t|);
    Regroup(Stars(t, m, 0, lo), Stars(t, m, lo, hi), Stars(t, m, hi, |t|));
  }

  lemma MaskedIff(p: string, t: string, y: nat)
    requires p != [] && Occurs(t, p, y) && HashAt(t, y + |p|)
    ensures y + |p| in Masked(p, t) <==> !Skipped(p, t, y)
  {
    hide Occurs, HashAt, VisitedFrom;
    VisitedIff(p, t, 0, y);
    if x: nat :| x in VisitedFrom(p, t, 0) && x < y < Resume(p, t, x) {
      assert PassedBy(p, t, x, y);
    }
  }

  lemma HashBounds(p: string, t: string, z: nat)
    requires Prefix(p) && z >= |p| && Occurs(t, p, z - |p|) && HashAt(t, z)
    ensures Between(Masked(p, t), z) && Between(Masked(p, t), z + HASH_LENGTH + 1)
    ensures forall i :: z < i <= z + HASH_LENGTH ==> i !in Masked(p, t)
  {
    hide Occurs, HashAt, Masked;
    MaskedAll(p, t);
    forall x | x in Masked(p, t)
      ensures x == z || x + HASH_LENGTH < z || z + HASH_LENGTH < x
    {
      HashesApart(p, t, x, z);
    }
  }

  lemma MaskedAll(p: string, t: string)
    requires p != []
    ensures forall z :: z in Masked(p, t) ==> |p| <= z && HashAt(t, z) && Occurs(t, p, z - |p|)
  {
    hide Occurs, HashAt, MaskedFrom;
    MaskedAre(p, t, 0);
  }

  lemma HashStars(p: string, t: string, z: nat)
    requires Prefix(p) && z >= |p| && Occurs(t, p, z - |p|) && HashAt(t, z)
    ensures z + HASH_LENGTH + 1 <= |t|
    ensures Stars(t, Masked(p, t), z, z + HASH_LENGTH + 1)
         == if z in Masked(p, t) then "*-" else t[z..z + HASH_LENGTH + 1]
  {
    hide Occurs, IsStoreHash, Masked;
    var m, dash := Masked(p, t), z + HASH_LENGTH;
    HashBounds(p, t, z);
    StarsNone(t, m, dash, dash + 1);
    assert t[dash..dash + 1] == "-";
    if z !in m {
      StarsNone(t, m, z, dash + 1);
    }
  }

  /** y starts within the prefix looked at at x or right behind it. */
  ghost predicate Near(p: string, t: string, x: nat, y: nat)
    requires p != []
  {
    x in VisitedFrom(p, t, 0) && x < y <= x + |p|
  }

  lemma NearIsPassed(p: string, t: string, x: nat, y: nat)
    requires Prefix(p) && p[0] == '/' && Occurs(t, p, y)
    ensures PassedBy(p, t, x, y) <==> Near(p, t, x, y)
  {
    hide HashAt, VisitedFrom;
    assert t[y] == t[y..y + |p|][0] == '/';
    if HashAt(t, x + |p|) && x + |p| <= y < x + |p| + HASH_LENGTH {
      HashNoSlash(t, x + |p|, y);
      assert false;
    }
  }

  /** Below an absolute store directory that is what being skipped means. */
  lemma SkippedNear(p: string, t: string, y: nat)
    requires Prefix(p) && p[0] == '/' && Occurs(t, p, y)
    ensures Skipped(p, t, y) <==> exists x: nat :: Near(p, t, x, y)
  {
    hide Near, PassedBy, Occurs;
    forall x: nat
      ensures PassedBy(p, t, x, y) <==> Near(p, t, x, y)
    {
      NearIsPassed(p, t, x, y);
    }
    if x: nat :| Near(p, t, x, y) {
      assert PassedBy(p, t, x, y);
    }
  }

  // ---------------------------------------------------------------- texts where every hash is masked

  /** No prefix starts within another one or right behind it. */
  ghost predicate Sparse(p: string, t: string) {
    forall x, y :: 0 <= x < y && Occurs(t, p, x) && Occurs(t, p, y) ==> x + |p| < y
  }

  /** Every hash behind a prefix. */
  ghost function AllHashes(p: string, t: string): set<nat> {
    set z | |p| <= z < |t| && Occurs(t, p, z - |p|) && HashAt(t, z)
  }

  /** Every hash behind a prefix is masked exactly if none of those prefixes is skipped. */
  lemma AllMaskedIff(p: string, t: string)
    requires p != []
    ensures Masked(p, t) == AllHashes(p, t) <==>
              forall y :: 0 <= y && Occurs(t, p, y) && HashAt(t, y + |p|) ==> !Skipped(p, t, y)
  {
    hide Occurs, HashAt, Masked, Skipped;
    MaskedAll(p, t);
    forall z | z in Masked(p, t)
      ensures z in AllHashes(p, t)
    {
      HashFits(t, z);
    }
    forall y | 0 <= y && Occurs(t, p, y) && HashAt(t, y + |p|)
      ensures y + |p| in AllHashes(p, t) && (y + |p| in Masked(p, t) <==> !Skipped(p, t, y))
    {
      InAllHashes(p, t, y);
      MaskedIff(p, t, y);
    }
  }

  lemma SparseVisitsAll(p: string, t: string)
    requires Prefix(p) && p[0] == '/' && Sparse(p, t)
    ensures Masked(p, t) == AllHashes(p, t)
  {
    hide Occurs, HashAt, VisitedFrom, Masked, AllHashes, Skipped;
    AllMaskedIff(p, t);
    VisitedAre(p, t, 0);
    forall y | 0 <= y && Occurs(t, p, y)
      ensures !Skipped(p, t, y)
    {
      SkippedNear(p, t, y);
    }
  }

  /** What stands at k of a starred text stood at some place of the text, and so did what follows. */
  lemma {:induction false} SourceOf(t: string, m: set<nat>, lo: nat, k: nat) returns (i: nat)
    requires k <= |Stars(t, m, lo, |t|)|
    ensures Stars(t, m, lo, |t|)[k..] == Stars(t, m, i, |t|)
    decreases k
  {
    if k == 0 {
      i := lo;
    } else if lo in m {
      i := SourceOf(t, m, lo + HASH_LENGTH, k - 1);
    } else {
      i := SourceOf(t, m, lo + 1, k - 1);
    }
  }

  /** A stretch without a star was not touched. */
  lemma {:induction false} Untouched(t: string, m: set<nat>, i: nat, n: nat)
    requires n <= |Stars(t, m, i, |t|)| && '*' !in Stars(t, m, i, |t|)[..n]
    ensures n > 0 ==> i + n <= |t| && t[i..i + n] == Stars(t, m, i, |t|)[..n]
    ensures forall j :: i <= j < i + n ==> j !in m
    decreases n
  {
    var s := Stars(t, m, i, |t|);
    if n > 0 {
      assert s[0] in s[..n];
      var r := Stars(t, m, i + 1, |t|);
      assert s == [t[i]] + r;
      assert forall c :: c in r[..n - 1] ==> c in s[..n] by {
        assert s[..n] == [t[i]] + r[..n - 1];
      }
      Untouched(t, m, i + 1, n - 1);
      assert t[i..i + n] == [t[i]] + t[i + 1..i + n];
    }
  }

  /** Where no prefix starts within another one or right behind it, every hash is masked: nothing but
      hashes behind prefixes changes, and the result has no prefix with a hash behind it. */
  lemma SparseMasksAll(p: string, t: string)
    requires Prefix(p) && p[0] == '/' && '*' !in p && Sparse(p, t)
    ensures MaskHashes(p, t) == Stars(t, AllHashes(p, t), 0, |t|)
    ensures forall y :: 0 <= y ==> !(Occurs(MaskHashes(p, t), p, y) && HashAt(MaskHashes(p, t), y + |p|))
  {
    hide Occurs, HashAt, MaskHashes, Masked, AllHashes, Stars, Sparse;
    MaskIsAll(p, t);
    SparseVisitsAll(p, t);
    forall y | 0 <= y
      ensures !(Occurs(MaskHashes(p, t), p, y) && HashAt(MaskHashes(p, t), y + |p|))
    {
      NothingLeft(p, t, y);
    }
  }

  lemma HashNoStar(s: string, x: nat, i: nat)
    requires HashAt(s, x) && x <= i <= x + HASH_LENGTH
    ensures i < |s| && s[i] != '*'
  {
    if i < x + HASH_LENGTH {
      assert s[x..x + HASH_LENGTH][i - x] == s[i];
    }
  }

  lemma NoStar(s: string, p: string, y: nat)
    requires '*' !in p && Occurs(s, p, y) && HashAt(s, y + |p|)
    ensures y + |p| + HASH_LENGTH + 1 <= |s| && '*' !in s[y..y + |p| + HASH_LENGTH + 1]
  {
    hide HashAt;
    HashFits(s, y + |p|);
    var n := |p| + HASH_LENGTH + 1;
    var w := s[y..y + n];
    forall i | 0 <= i < n
      ensures w[i] != '*'
    {
      if i < |p| {
        assert s[y..y + |p|][i] == s[y + i];
      } else {
        HashNoStar(s, y + |p|, y + i);
      }
    }
  }

  lemma NothingLeft(p: string, t: string, y: nat)
    requires p != [] && '*' !in p
    ensures var s := Stars(t, AllHashes(p, t), 0, |t|); !(Occurs(s, p, y) && HashAt(s, y + |p|))
  {
    hide Stars, HashAt, Occurs, AllHashes;
    var m, n := AllHashes(p, t), |p| + HASH_LENGTH + 1;
    var s := Stars(t, m, 0, |t|);
    if Occurs(s, p, y) && HashAt(s, y + |p|) {
      NoStar(s, p, y);
      var i := SourceOf(t, m, 0, y);
      assert s[y..][..n] == s[y..y + n];
      Untouched(t, m, i, n);
      StoodThere(p, s, t, y, i);
      InAllHashes(p, t, i);
      assert false;
    }
  }

  lemma InAllHashes(p: string, t: string, i: nat)
    requires Occurs(t, p, i) && HashAt(t, i + |p|)
    ensures i + |p| in AllHashes(p, t)
  {
    hide Occurs, HashAt;
    HashFits(t, i + |p|);
  }

  /** The same stretch of two texts is a prefix with a hash behind it in both. */
  lemma StoodThere(p: string, s: string, t: string, y: nat, i: nat)
    requires Occurs(s, p, y) && HashAt(s, y + |p|)
    requires y + |p| + HASH_LENGTH + 1 <= |s| && i + |p| + HASH_LENGTH + 1 <= |t|
    requires t[i..i + (|p| + HASH_LENGTH + 1)] == s[y..y + |p| + HASH_LENGTH + 1]
    ensures Occurs(t, p, i) && HashAt(t, i + |p|)
  {
    hide HashAt;
    var n := |p| + HASH_LENGTH + 1;
    assert t[i..i + |p|] == t[i..i + n][..|p|] == s[y..y + n][..|p|] == s[y..y + |p|];
    SameHash(s, t, y, i, |p|);
  }

  lemma SameHash(s: string, t: string, y: nat, i: nat, d: nat)
    requires HashAt(s, y + d) && y + d + HASH_LENGTH + 1 <= |s| && i + d + HASH_LENGTH + 1 <= |t|
    requires t[i..i + d + HASH_LENGTH + 1] == s[y..y + d + HASH_LENGTH + 1]
    ensures HashAt(t, i + d)
  {
    var n := d + HASH_LENGTH + 1;
    assert t[i..i + n][n - 1] == t[i + n - 1] && s[y..y + n][n - 1] == s[y + n - 1];
    var a, b := t[i + d..i + d + HASH_LENGTH], s[y + d..y + d + HASH_LENGTH];
    forall k | 0 <= k < HASH_LENGTH
      ensures a[k] == b[k]
    {
      assert t[i..i + n][d + k] == s[y..y + n][d + k];
    }
    assert a == b;
  }

  /** Both ways a hash is missed in the usual store: its prefix shares a slash with the one before, or
      starts right behind it. */
  lemma MissedInNixStore(head: string, hash: string)
    requires IsStoreHash(hash) && (head == "/nix/store/nix/store/" || head == "/nix/store//nix/store/")
    ensures var p, t, y := "/nix/store/", head + hash + "-x", |head| - 11;
            Occurs(t, p, y) && HashAt(t, y + |p|) && MaskHashes(p, t) == t
  {
    hide IsStoreHash, HashAt, MaskHashes;
    if head == "/nix/store/nix/store/" {
      MissedBehind(head, hash, 14);
    } else {
      MissedBehind(head, hash, 11);
    }
  }

  lemma MissedBehind(head: string, hash: string, slash: nat)
    requires IsStoreHash(hash) && 12 <= |head| <= 22 && 11 <= slash < |head| && head[slash] == '/'
    requires head[..11] == "/nix/store/" && head[|head| - 11..] == "/nix/store/"
    ensures var p, t, y := "/nix/store/", head + hash + "-x", |head| - 11;
            Occurs(t, p, y) && HashAt(t, y + |p|) && MaskHashes(p, t) == t
  {
    hide IsStoreHash, HashAt, MaskHashes;
    var p, t, y := "/nix/store/", head + hash + "-x", |head| - 11;
    assert t[..11] == head[..11] && t[y..y + 11] == head[y..];
    assert Occurs(t, p, 0) && Occurs(t, p, y);
    IsHashAt(head, hash, "-x");
    assert FindText(t, p) == 0;
    assert t[slash] == head[slash];
    SlashIsNoHash(t, 11, slash);
    UnfoldMiss(p, t, 0);
    var rest := head[12..];
    assert t[12..] == rest + hash + "-x";
    NoPrefixBehind(rest, hash);
    MaskAbsent(p, rest + hash + "-x");
    assert t == t[..12] + t[12..];
  }

  lemma SlashIsNoHash(t: string, x: nat, i: nat)
    requires x <= i < x + HASH_LENGTH && i < |t| && t[i] == '/'
    ensures !HashAt(t, x)
  {
    hide HashAt;
    if HashAt(t, x) {
      HashNoSlash(t, x, i);
      assert false;
    }
  }

  lemma NoPrefixBehind(rest: string, hash: string)
    requires IsStoreHash(hash) && |rest| <= 10
    ensures Absent(rest + hash + "-x", "/nix/store/")
  {
    hide IsStoreHash;
    var s := rest + hash + "-x";
    forall n | 0 <= n
      ensures !Occurs(s, "/nix/store/", n)
    {
      if n + 11 <= |s| {
        assert s[n..n + 11][10] == s[n + 10];
        var i := n + 10 - |rest|;
        assert hash + "-x" == hash + "-" + "x";
        assert s[n + 10] == (hash + "-x")[i];
        HashChars(hash, "x", i);
      }
    }
  }

  // ---------------------------------------------------------------- the scan

  lemma HitRound(prefix: string, t: string, pos: nat, next: nat)
    requires prefix != [] && pos <= next < |t| && Occurs(t, prefix, next)
    requires forall k :: pos <= k < next ==> !Occurs(t, prefix, k)
    requires HashAt(t, next + |prefix|)
    ensures var x := next + |prefix|;
            && x + HASH_LENGTH < |t|
            && var u := t[..x] + "*" + t[x + HASH_LENGTH..];
               u[..x + 1] + MaskHashes(prefix, u[x + 1..]) == t[..pos] + MaskHashes(prefix, t[pos..])
  {
    hide MaskHashes, HashAt, Occurs;
    MaskHit(prefix, t, pos, next);
    var x := next + |prefix|;
    var u := t[..x] + "*" + t[x + HASH_LENGTH..];
    Starred(t, pos, x);
    Glued(u[..x + 1], t[..pos], t[pos..x] + "*", MaskHashes(prefix, u[x + 1..]), MaskHashes(prefix, t[pos..]));
  }

  lemma Glued(head: string, p: string, q: string, r: string, m: string)
    requires head == p + q && m == q + r
    ensures head + r == p + m
  {
  }

  /** The text with the hash at x replaced: up to the star, and behind it. */
  lemma Starred(t: string, pos: nat, x: nat)
    requires pos <= x && x + HASH_LENGTH <= |t|
    ensures var u := t[..x] + "*" + t[x + HASH_LENGTH..];
            |u| > x && u[..x + 1] == t[..pos] + (t[pos..x] + "*") && u[x + 1..] == t[x + HASH_LENGTH..]
  {
    var a, b := t[..x] + "*", t[x + HASH_LENGTH..];
    assert (a + b)[..x + 1] == a && (a + b)[x + 1..] == b;
    assert t[..x] == t[..pos] + t[pos..x];
  }

  lemma MissRound(prefix: string, t: string, pos: nat, next: nat)
    requires prefix != [] && pos <= next < |t| && Occurs(t, prefix, next)
    requires forall k :: pos <= k < next ==> !Occurs(t, prefix, k)
    requires !HashAt(t, next + |prefix|)
    ensures var x := next + |prefix|;
            && x <= |t|
            && (x < |t| ==> t[..x + 1] + MaskHashes(prefix, t[x + 1..]) == t[..pos] + MaskHashes(prefix, t[pos..]))
            && (x == |t| ==> t == t[..pos] + MaskHashes(prefix, t[pos..]))
  {
    hide MaskHashes, HashAt, Occurs;
    MaskMiss(prefix, t, pos, next);
    var x := next + |prefix|;
    if x < |t| {
      assert t[..x + 1] == t[..pos] + t[pos..x + 1];
      Glued(t[..x + 1], t[..pos], t[pos..x + 1], MaskHashes(prefix, t[x + 1..]), MaskHashes(prefix, t[pos..]));
    } else {
      assert t[..pos] + t[pos..] == t;
    }
  }

  /** The loop of MaskHashes, in place: exactly the hashes behind the prefixes the scan looks at become "*". */
  method MaskText(prefix: string, text: string) returns (t: string)
    requires prefix != []
    ensures t == MaskHashes(prefix, text) == Stars(text, Masked(prefix, text), 0, |text|)
  {
    hide MaskHashes, HashAt, Occurs, FindFrom, MaskedFrom, Stars;
    t := text;
    var pos := 0;
    assert text[0..] == text && t[..0] == "";
    MaskIs(prefix, text, 0);
    while pos <= |t|
      invariant 0 <= pos
      invariant pos <= |t| ==> t[..pos] + MaskHashes(prefix, t[pos..]) == MaskHashes(prefix, text)
      invariant pos > |t| ==> t == MaskHashes(prefix, text)
      decreases if pos <= |t| then |t| - pos + 1 else 0
    {
      var next := FindFrom(t, prefix, pos);
      FindIs(t, prefix, pos);
      if next == |t| {
        MaskNone(prefix, t, pos);
        assert t[..pos] + t[pos..] == t;
        return;
      }
      var x := next + |prefix|;
      if HashAt(t, x) {
        HitRound(prefix, t, pos, next);
        t := t[..x] + "*" + t[x + HASH_LENGTH..];
      } else {
        MissRound(prefix, t, pos, next);
      }
      pos := x + 1;
    }
  }
}

/** Where the dynamic linker finds a library before and after FixRunpath (elf_fixup.cc): a name with a slash
    is opened as it is, any other is looked for in the RUNPATH's directories in order. */
module ElfSearch {
  import opened Bytes
  import opened Options
  import opened ElfFixup

  /** The directory spelled that way has the library. */
  predicate Serves(dirs: seq<RunpathDir>, entry: Bytes, name: Bytes) {
    exists j :: 0 <= j < |dirs| && dirs[j].entry == entry && name in dirs[j].libs
  }

  /** The first of these entries whose directory has the library. */
  function Searched(dirs: seq<RunpathDir>, entries: seq<Bytes>, name: Bytes): Option<Bytes>
    decreases |entries|
  {
    if entries == [] then None
    else
      var front, last := Searched(dirs, entries[..|entries| - 1], name), entries[|entries| - 1];
      if front.Some? then front else if Serves(dirs, last, name) then Some(last) else None
  }

  /** One spelling, one directory. */
  ghost predicate OneDirectory(dirs: seq<RunpathDir>) {
    forall i, j :: 0 <= i < |dirs| && 0 <= j < |dirs| && dirs[i].entry == dirs[j].entry ==>
      dirs[i].libs == dirs[j].libs && dirs[i].libc == dirs[j].libc
  }

  /** The package's own directories, which do not stay, come behind those of the old RUNPATH. */
  ghost predicate OwnLast(dirs: seq<RunpathDir>) {
    forall i, j :: 0 <= i < j < |dirs| && dirs[j].keep ==> dirs[i].keep
  }

  /** All directories in order. */
  function Entries(dirs: seq<RunpathDir>): (es: seq<Bytes>)
    ensures |es| == |dirs| && forall i :: 0 <= i < |dirs| ==> es[i] == dirs[i].entry
  {
    seq(|dirs|, i requires 0 <= i < |dirs| => dirs[i].entry)
  }

  /** The entries of the new RUNPATH. */
  function KeptAfter(dirs: seq<RunpathDir>, needed: seq<Needed>, room: nat): seq<Bytes> {
    var deps := Direct(dirs, needed);
    var without := Kept(dirs, Staying(dirs) - Used(deps));
    if |Blob(Join(without), Targets(dirs, deps))| <= room then without else Kept(dirs, Staying(dirs) + Used(deps))
  }

  lemma RunpathIsKept(dirs: seq<RunpathDir>, needed: seq<Needed>, room: nat)
    ensures PlanOf(dirs, needed, room).runpath == Join(KeptAfter(dirs, needed, room))
  {
  }

  /** Where a library is found after FixRunpath: in the directory of its path, or by the new RUNPATH. */
  function FoundAfter(dirs: seq<RunpathDir>, needed: seq<Needed>, room: nat, lib: Needed): Option<Bytes> {
    var i := Provider(dirs, lib.name);
    if i < |dirs| && Dep(lib, i) in PlanOf(dirs, needed, room).deps then Some(dirs[i].entry)
    else Searched(dirs, KeptAfter(dirs, needed, room), lib.name)
  }

  // ---------------------------------------------------------------- searching the kept entries

  /** The first of the first n directories that stays and has the library, |dirs| if none. */
  function FirstIn(dirs: seq<RunpathDir>, keep: set<nat>, name: Bytes, n: nat): (i: nat)
    requires n <= |dirs|
    ensures i < n || i == |dirs|
    ensures i < n ==> i in keep && name in dirs[i].libs
    ensures forall j :: 0 <= j < n && j < i && j in keep ==> name !in dirs[j].libs
  {
    if n == 0 then |dirs|
    else
      var i := FirstIn(dirs, keep, name, n - 1);
      if i < |dirs| then i else if n - 1 in keep && name in dirs[n - 1].libs then n - 1 else |dirs|
  }

  lemma {:induction false} SearchedIn(dirs: seq<RunpathDir>, entries: seq<Bytes>, name: Bytes, e: Bytes)
    requires e in entries && Serves(dirs, e, name)
    ensures Searched(dirs, entries, name).Some?
    decreases |entries|
  {
    if entries[|entries| - 1] != e {
      SearchedIn(dirs, entries[..|entries| - 1], name, e);
    }
  }

  /** The new RUNPATH finds what the first staying directory that has it finds. */
  lemma {:induction false} KeptFinds(dirs: seq<RunpathDir>, keep: set<nat>, name: Bytes, n: nat)
    requires n <= |dirs| && OneDirectory(dirs)
    ensures var i := FirstIn(dirs, keep, name, n);
            Searched(dirs, Kept(dirs[..n], keep), name) == if i < |dirs| then Some(dirs[i].entry) else None
    decreases n
  {
    hide FirstIn, Searched;
    if n == 0 {
      NoneKept(dirs, keep, name);
    } else {
      KeptFinds(dirs, keep, name, n - 1);
      var d, front := dirs[n - 1], Kept(dirs[..n - 1], keep);
      assert dirs[..n][..n - 1] == dirs[..n - 1] && dirs[..n][n - 1] == d;
      assert Serves(dirs, d.entry, name) <==> name in d.libs;
      FirstNext(dirs, keep, name, n);
      if n - 1 in keep {
        if d.entry in front {
          if name in d.libs {
            SearchedIn(dirs, front, name, d.entry);
          }
        } else {
          SearchedNext(dirs, front, name, d.entry);
        }
      }
    }
  }

  lemma NoneKept(dirs: seq<RunpathDir>, keep: set<nat>, name: Bytes)
    ensures FirstIn(dirs, keep, name, 0) == |dirs| && Searched(dirs, Kept(dirs[..0], keep), name) == None
  {
  }

  lemma FirstNext(dirs: seq<RunpathDir>, keep: set<nat>, name: Bytes, n: nat)
    requires 0 < n <= |dirs|
    ensures var i := FirstIn(dirs, keep, name, n - 1);
            FirstIn(dirs, keep, name, n)
            == if i < |dirs| then i else if n - 1 in keep && name in dirs[n - 1].libs then n - 1 else |dirs|
  {
  }

  lemma SearchedNext(dirs: seq<RunpathDir>, front: seq<Bytes>, name: Bytes, e: Bytes)
    ensures var f := Searched(dirs, front, name);
            Searched(dirs, front + [e], name) == if f.Some? then f else if Serves(dirs, e, name) then Some(e) else None
  {
    assert (front + [e])[..|front|] == front;
  }

  lemma {:induction false} ProviderIs(dirs: seq<RunpathDir>, name: Bytes)
    ensures var i := Provider(dirs, name);
            (i < |dirs| ==> name in dirs[i].libs) && forall j :: 0 <= j < i ==> name !in dirs[j].libs
    decreases |dirs|
  {
    if dirs != [] && name !in dirs[0].libs {
      ProviderIs(dirs[1..], name);
      assert forall j :: 0 < j < |dirs| ==> dirs[j] == dirs[1..][j - 1];
    }
  }

  /** Before, the first directory that has a library is where it is found. */
  lemma {:induction false} FoundBefore(dirs: seq<RunpathDir>, n: nat, name: Bytes)
    requires n <= |dirs| && OneDirectory(dirs)
    ensures var i := Provider(dirs, name);
            Searched(dirs, Entries(dirs)[..n], name) == if i < n then Some(dirs[i].entry) else None
    decreases n
  {
    hide Provider, Searched;
    ProviderIs(dirs, name);
    if n == 0 {
      assert Entries(dirs)[..0] == [];
      NoneSearched(dirs, name);
    } else {
      FoundBefore(dirs, n - 1, name);
      assert Entries(dirs)[..n] == Entries(dirs)[..n - 1] + [dirs[n - 1].entry];
      SearchedNext(dirs, Entries(dirs)[..n - 1], name, dirs[n - 1].entry);
      assert Serves(dirs, dirs[n - 1].entry, name) <==> name in dirs[n - 1].libs;
    }
  }

  lemma NoneSearched(dirs: seq<RunpathDir>, name: Bytes)
    ensures Searched(dirs, [], name) == None
  {
  }

  // ---------------------------------------------------------------- the same directory again

  /** The first staying directory that has the library is the one that had it before, exactly if that stays. */
  lemma {:induction false} KeptSame(dirs: seq<RunpathDir>, keep: set<nat>, name: Bytes)
    requires OneDirectory(dirs) && Provider(dirs, name) < |dirs|
    requires forall j :: 0 <= j < |dirs| && j in keep && dirs[j].entry == dirs[Provider(dirs, name)].entry ==>
               Provider(dirs, name) in keep
    ensures Searched(dirs, Kept(dirs, keep), name) == Some(dirs[Provider(dirs, name)].entry) <==>
              Provider(dirs, name) in keep
  {
    hide Provider, Searched, Kept, FirstIn;
    ProviderIs(dirs, name);
    KeptFinds(dirs, keep, name, |dirs|);
    assert dirs[..|dirs|] == dirs;
  }

  lemma {:induction false} LibcNotUsed(dirs: seq<RunpathDir>, needed: seq<Needed>)
    ensures forall i :: i in Used(Direct(dirs, needed)) ==> i < |dirs| && !dirs[i].libc
  {
    hide Provider, Direct;
    DirectIs(dirs, needed);
  }

  /** A needed library that some directory has is found in the same directory afterwards, by its path or by
      the RUNPATH, if and only if that is not libc's directory or is one of the old RUNPATH. */
  lemma {:induction false} FoundAgainIff(dirs: seq<RunpathDir>, needed: seq<Needed>, room: nat, lib: Needed)
    requires OneDirectory(dirs) && OwnLast(dirs)
    requires lib in needed && !Skipped(lib.name) && Provider(dirs, lib.name) < |dirs|
    ensures PlanOf(dirs, needed, room).runpath == Join(KeptAfter(dirs, needed, room))
    ensures var i := Provider(dirs, lib.name);
            && Searched(dirs, Entries(dirs), lib.name) == Some(dirs[i].entry)
            && (FoundAfter(dirs, needed, room, lib) == Some(dirs[i].entry) <==> !dirs[i].libc || dirs[i].keep)
  {
    hide Provider, Searched, Kept, Direct, Blob, Targets, Join;
    var i, deps := Provider(dirs, lib.name), Direct(dirs, needed);
    RunpathIsKept(dirs, needed, room);
    FoundBefore(dirs, |dirs|, lib.name);
    assert Entries(dirs)[..|dirs|] == Entries(dirs);
    DirectIs(dirs, needed);
    ProviderIs(dirs, lib.name);
    LibcNotUsed(dirs, needed);
    forall j | 0 <= j < |dirs| && dirs[j].entry == dirs[i].entry
      ensures i <= j && dirs[j].libc == dirs[i].libc && (dirs[j].keep ==> dirs[i].keep)
    {
    }
    if dirs[i].libc {
      KeptSame(dirs, Staying(dirs) - Used(deps), lib.name);
      KeptSame(dirs, Staying(dirs) + Used(deps), lib.name);
    } else {
      assert Dep(lib, i) in deps;
      KeptSame(dirs, Staying(dirs) + Used(deps), lib.name);
    }
  }

  /** A library beside a libc in the package's own directory is lost. */
  lemma {:induction false} OwnLibcIsLost(d: RunpathDir, lib: Needed, room: nat)
    requires d.libc && !d.keep && lib.name in d.libs && !Skipped(lib.name)
    ensures FoundAfter([d], [lib], room, lib) == None
  {
    var dirs := [d];
    assert Provider(dirs, lib.name) == 0;
    DirectIs(dirs, [lib]);
    assert Direct(dirs, [lib]) == [];
    assert dirs[..0] == [];
    assert Kept(dirs, {}) == [];
    var none: set<nat> := {};
    assert Staying(dirs) == none && Used([]) == none;
    assert Staying(dirs) - Used(Direct(dirs, [lib])) == none && Staying(dirs) + Used(Direct(dirs, [lib])) == none;
    assert KeptAfter(dirs, [lib], room) == [];
  }
}

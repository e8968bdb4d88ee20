/** Relocating Mach-O images (macho_fixup.cc): dylib and rpath commands are respelled,
    which may grow them into the padding after the load commands. What each should say is given. */
module MachOFixup {
  import opened Bytes
  import opened Options
  import opened BinaryImage

  const HEADER: nat := 32
  const MAGIC: nat := 0xfeed_facf
  const NCMDS: nat := 16
  const SIZEOFCMDS: nat := 20
  const ALIGN: nat := 8
  const REQ_DYLD: nat := 0x8000_0000
  const LOAD_DYLIB: nat := 0xc
  const ID_DYLIB: nat := 0xd
  const LOAD_WEAK_DYLIB: nat := 0x18 + REQ_DYLD
  const RPATH: nat := 0x1c + REQ_DYLD
  const REEXPORT_DYLIB: nat := 0x1f + REQ_DYLD
  const LOAD_UPWARD_DYLIB: nat := 0x23 + REQ_DYLD
  const SEGMENT_64: nat := 0x19

  predicate IsPathCommand(cmd: nat) {
    cmd == LOAD_DYLIB || cmd == LOAD_WEAK_DYLIB || cmd == REEXPORT_DYLIB || cmd == LOAD_UPWARD_DYLIB
      || cmd == ID_DYLIB || cmd == RPATH
  }

  /** A load command: its bytes, and where in them its string starts (0: it has none). */
  datatype Command = Command(cmd: nat, bytes: Bytes, pathOff: nat)

  function Path(c: Command): Bytes {
    if c.pathOff == 0 then [] else CString(c.bytes, c.pathOff)
  }

  function Word(b: Bytes, off: nat, width: nat): nat {
    if off + width <= |b| then UnLe(b[off..off + width]) else 0
  }

  // ---------------------------------------------------------------- SetPath

  function RoundUp(n: nat): (m: nat)
    ensures m % ALIGN == 0 && n < m <= n + ALIGN
  {
    (n + ALIGN) / ALIGN * ALIGN
  }

  function Resized(b: Bytes, n: nat): Bytes {
    if n <= |b| then b[..n] else b + Zeros(n - |b|)
  }

  function SetPath(c: Command, path: Bytes): (d: Command)
    ensures |d.bytes| == RoundUp(c.pathOff + |path|) && d.cmd == c.cmd && d.pathOff == c.pathOff
  {
    var b := Resized(c.bytes, c.pathOff) + path;
    var padded := Resized(b, RoundUp(|b|));
    c.(bytes := Patch(padded, Edit(4, Le(|padded| % U32, 4))))
  }

  /** The command says what its header says. */
  predicate Proper(c: Command) {
    && 8 <= |c.bytes| < U32
    && Word(c.bytes, 0, 4) == c.cmd && Word(c.bytes, 4, 4) == |c.bytes|
    && (if IsPathCommand(c.cmd) then 12 <= |c.bytes| && c.pathOff == PathOffset(c.bytes) else c.pathOff == 0)
  }

  function PathOffset(b: Bytes): nat {
    if Word(b, 8, 4) < |b| then Word(b, 8, 4) else 0
  }

  lemma PatchSize(head: Bytes, rest: Bytes, n: nat)
    requires |head| >= 8
    ensures Patch(head + rest, Edit(4, Le(n, 4))) == head[..4] + Le(n, 4) + head[8..] + rest
  {
    var b := head + rest;
    assert b[..4] == head[..4];
    assert b[8..] == head[8..] + rest;
  }

  /** The bytes of the new command: the head with the new size, the path, padding. */
  lemma SetPathBytes(c: Command, path: Bytes)
    requires 12 <= c.pathOff <= |c.bytes| && RoundUp(c.pathOff + |path|) < U32
    ensures var d, n := SetPath(c, path).bytes, RoundUp(c.pathOff + |path|);
            && d == c.bytes[..4] + Le(n, 4) + c.bytes[8..c.pathOff] + (path + Zeros(n - c.pathOff - |path|))
  {
    hide Patch, Le, RoundUp, Zeros;
    var head := c.bytes[..c.pathOff];
    var n := RoundUp(|head + path|);
    var rest := path + Zeros(n - |head + path|);
    assert head + path + Zeros(n - |head + path|) == head + rest;
    PatchSize(head, rest, n);
    assert head[..4] == c.bytes[..4] && head[8..] == c.bytes[8..c.pathOff];
  }

  lemma HeadWords(c: Command, path: Bytes)
    requires 12 <= c.pathOff <= |c.bytes| && RoundUp(c.pathOff + |path|) < U32
    ensures var d := SetPath(c, path).bytes;
            Word(d, 0, 4) == Word(c.bytes, 0, 4) && Word(d, 4, 4) == |d| && Word(d, 8, 4) == Word(c.bytes, 8, 4)
  {
    hide SetPath, UnLe, Le;
    var d, n := SetPath(c, path).bytes, RoundUp(c.pathOff + |path|);
    SetPathBytes(c, path);
    assert d[0..4] == c.bytes[0..4];
    assert d[4..8] == Le(n, 4);
    var m := c.bytes[8..c.pathOff];
    assert d[8..12] == m[..4] == c.bytes[8..12];
    Widths();
    LeRoundTrip(n, 4);
  }

  lemma TailPath(c: Command, path: Bytes)
    requires 12 <= c.pathOff <= |c.bytes| && RoundUp(c.pathOff + |path|) < U32 && 0 !in path
    ensures CString(SetPath(c, path).bytes, c.pathOff) == path
  {
    hide SetPath, Le;
    var d := SetPath(c, path).bytes;
    SetPathBytes(c, path);
    assert d[c.pathOff..c.pathOff + |path|] == path;
    CStringIs(d, c.pathOff, path);
  }

  /** The new command is whole, aligned, and carries the new path. */
  lemma SetPathIs(c: Command, path: Bytes)
    requires Proper(c) && c.pathOff >= 12 && 0 !in path && RoundUp(c.pathOff + |path|) < U32
    ensures Proper(SetPath(c, path)) && Path(SetPath(c, path)) == path
    ensures |SetPath(c, path).bytes| % ALIGN == 0
  {
    hide SetPath, Word, CString;
    HeadWords(c, path);
    TailPath(c, path);
  }

  // ---------------------------------------------------------------- the command list

  /** A whole command starts at off. */
  predicate CommandThere(b: Bytes, off: nat) {
    off + 8 <= |b| && Word(b, off + 4, 4) >= 8 && off + Word(b, off + 4, 4) <= |b|
  }

  function CommandAt(b: Bytes, off: nat): Command
    requires CommandThere(b, off)
  {
    var size := Word(b, off + 4, 4);
    var path := Word(b, off + 8, 4);
    Command(Word(b, off, 4), b[off..off + size],
            if IsPathCommand(Word(b, off, 4)) && path < size then path else 0)
  }

  /** Up to n commands from off on. */
  function Commands(b: Bytes, off: nat, n: nat): seq<Command>
    decreases n
  {
    if n == 0 || !CommandThere(b, off) then []
    else [CommandAt(b, off)] + Commands(b, off + Word(b, off + 4, 4), n - 1)
  }

  function Concat(cs: seq<Command>): Bytes
    decreases |cs|
  {
    if cs == [] then [] else cs[0].bytes + Concat(cs[1..])
  }

  ghost predicate AllProper(cs: seq<Command>) {
    forall i :: 0 <= i < |cs| ==> Proper(cs[i])
  }

  lemma WordInside(b: Bytes, off: nat, size: nat, x: nat, width: nat)
    requires off + size <= |b| && x + width <= size
    ensures Word(b[off..off + size], x, width) == Word(b, off + x, width)
  {
    var s, t := b[off..off + size][x..x + width], b[off + x..off + x + width];
    forall i | 0 <= i < width
      ensures s[i] == t[i]
    {
    }
    assert s == t;
  }

  /** A proper command is recognised where its bytes stand. */
  lemma CommandHere(b: Bytes, off: nat, c: Command)
    requires Proper(c) && off + |c.bytes| <= |b| && b[off..off + |c.bytes|] == c.bytes
    ensures CommandThere(b, off) && Word(b, off + 4, 4) == |c.bytes| && CommandAt(b, off) == c
  {
    hide Word;
    var size := |c.bytes|;
    WordInside(b, off, size, 0, 4);
    WordInside(b, off, size, 4, 4);
    if IsPathCommand(c.cmd) {
      WordInside(b, off, size, 8, 4);
    }
  }

  lemma HeadAndRest(b: Bytes, off: nat, head: Bytes, rest: Bytes)
    requires off + |head + rest| <= |b| && b[off..off + |head + rest|] == head + rest
    ensures b[off..off + |head|] == head && b[off + |head|..off + |head| + |rest|] == rest
  {
    var all := b[off..off + |head + rest|];
    assert b[off..off + |head|] == all[..|head|];
    assert b[off + |head|..off + |head| + |rest|] == all[|head|..];
  }

  /** Commands laid out one after another are read back as they are. */
  lemma {:induction false} CommandsReadBack(b: Bytes, off: nat, cs: seq<Command>)
    requires AllProper(cs) && off + |Concat(cs)| <= |b| && b[off..off + |Concat(cs)|] == Concat(cs)
    ensures Commands(b, off, |cs|) == cs
    decreases |cs|
  {
    hide Word, CommandThere, CommandAt, Proper;
    if cs != [] {
      HeadAndRest(b, off, cs[0].bytes, Concat(cs[1..]));
      CommandHere(b, off, cs[0]);
      CommandsReadBack(b, off + |cs[0].bytes|, cs[1..]);
    }
  }

  /** Every path command is long enough to hold its string's offset. */
  ghost predicate RoomForOffsets(cs: seq<Command>) {
    forall i :: 0 <= i < |cs| && IsPathCommand(cs[i].cmd) ==> 12 <= |cs[i].bytes|
  }

  lemma CommandProper(b: Bytes, off: nat)
    requires CommandThere(b, off) && (IsPathCommand(CommandAt(b, off).cmd) ==> 12 <= |CommandAt(b, off).bytes|)
    ensures Proper(CommandAt(b, off))
  {
    hide UnLe;
    var c, size := CommandAt(b, off), Word(b, off + 4, 4);
    UnLeBound(b[off + 4..off + 8]);
    Widths();
    WordInside(b, off, size, 0, 4);
    WordInside(b, off, size, 4, 4);
    if IsPathCommand(c.cmd) {
      WordInside(b, off, size, 8, 4);
    }
  }

  lemma {:induction false} CommandsProper(b: Bytes, off: nat, n: nat)
    requires RoomForOffsets(Commands(b, off, n))
    ensures AllProper(Commands(b, off, n))
    decreases n
  {
    hide Word, Proper;
    var cs := Commands(b, off, n);
    if cs != [] {
      assert cs[0] == CommandAt(b, off);
      CommandProper(b, off);
      var rest := Commands(b, off + Word(b, off + 4, 4), n - 1);
      assert cs == [cs[0]] + rest;
      forall i | 0 <= i < |rest| && IsPathCommand(rest[i].cmd)
        ensures 12 <= |rest[i].bytes|
      {
        assert cs[i + 1] == rest[i];
      }
      CommandsProper(b, off + Word(b, off + 4, 4), n - 1);
    }
  }

  // ---------------------------------------------------------------- FixMachO

  /** What a command's path should be, by its kind and its path now; None leaves it. */
  type Speller = (nat, Bytes) -> Option<Bytes>

  predicate Changes(spell: Speller, c: Command) {
    c.pathOff != 0 && spell(c.cmd, Path(c)).Some? && spell(c.cmd, Path(c)).value != Path(c)
  }

  function Respelled(spell: Speller, c: Command): Command {
    if Changes(spell, c) then SetPath(c, spell(c.cmd, Path(c)).value) else c
  }

  function RespellAll(spell: Speller, cs: seq<Command>): (ds: seq<Command>)
    ensures |ds| == |cs| && forall i :: 0 <= i < |cs| ==> ds[i] == Respelled(spell, cs[i])
  {
    seq(|cs|, i requires 0 <= i < |cs| => Respelled(spell, cs[i]))
  }

  /** Room after a bound at file offset x; a bound inside the header wraps around and bounds nothing. */
  function Bounded(room: nat, x: nat): nat {
    if x >= HEADER && x - HEADER < room then x - HEADER else room
  }

  /** The first n sections of the __TEXT segment at off. */
  function SectionRoom(b: Bytes, off: nat, n: nat, room: nat): nat
    decreases n
  {
    if n == 0 then room
    else
      var x := Word(b, off + 72 + (n - 1) * 80 + 48, 4);
      var before := SectionRoom(b, off, n - 1, room);
      if x != 0 then Bounded(before, x) else before
  }

  function SegmentRoom(b: Bytes, off: nat, room: nat): nat {
    var fileoff, filesize := Word(b, off + 40, 8), Word(b, off + 48, 8);
    if Word(b, off, 4) != SEGMENT_64 || filesize == 0 then room
    else if fileoff == 0 then SectionRoom(b, off, Word(b, off + 64, 4), room)
    else Bounded(room, fileoff)
  }

  /** Bytes between the header and the first content, as far as n commands from off on tell. */
  function RoomFrom(b: Bytes, off: nat, n: nat, room: nat): nat
    decreases n
  {
    if n == 0 || !CommandThere(b, off) then room
    else RoomFrom(b, off + Word(b, off + 4, 4), n - 1, SegmentRoom(b, off, room))
  }

  lemma {:induction false} SectionRoomShrinks(b: Bytes, off: nat, n: nat, room: nat)
    ensures SectionRoom(b, off, n, room) <= room
  {
    hide Word;
    if n > 0 {
      SectionRoomShrinks(b, off, n - 1, room);
    }
  }

  lemma {:induction false} RoomShrinks(b: Bytes, off: nat, n: nat, room: nat)
    ensures RoomFrom(b, off, n, room) <= room
    decreases n
  {
    hide Word, SectionRoom;
    if n > 0 && CommandThere(b, off) {
      SectionRoomShrinks(b, off, Word(b, off + 64, 4), room);
      RoomShrinks(b, off + Word(b, off + 4, 4), n - 1, SegmentRoom(b, off, room));
    }
  }

  predicate IsMachO(b: Bytes) {
    |b| >= HEADER && Word(b, 0, 4) == MAGIC
  }

  function CommandsOf(b: Bytes): seq<Command> {
    Commands(b, HEADER, Word(b, NCMDS, 4))
  }

  function RoomOf(b: Bytes): (room: nat)
    requires |b| >= HEADER
    ensures room <= |b| - HEADER
  {
    RoomShrinks(b, HEADER, Word(b, NCMDS, 4), |b| - HEADER);
    RoomFrom(b, HEADER, Word(b, NCMDS, 4), |b| - HEADER)
  }

  /** The loops of ReadLoadCommands. */
  method ReadLoadCommands(b: Bytes) returns (cs: seq<Command>, room: nat)
    requires |b| >= HEADER
    ensures cs == CommandsOf(b) && room == RoomOf(b)
  {
    hide Word, SegmentRoom, CommandAt;
    cs, room := [], |b| - HEADER;
    var off: nat, n: nat := HEADER, Word(b, NCMDS, 4);
    while n > 0 && CommandThere(b, off)
      invariant cs + Commands(b, off, n) == CommandsOf(b)
      invariant RoomFrom(b, off, n, room) == RoomOf(b)
      decreases n
    {
      cs := cs + [CommandAt(b, off)];
      room := RoomAfter(b, off, room);
      off := off + Word(b, off + 4, 4);
      n := n - 1;
    }
  }

  method RoomAfter(b: Bytes, off: nat, before: nat) returns (room: nat)
    ensures room == SegmentRoom(b, off, before)
  {
    hide UnLe;
    room := before;
    if Word(b, off, 4) != SEGMENT_64 {
      return;
    }
    var fileoff, filesize := Word(b, off + 40, 8), Word(b, off + 48, 8);
    if filesize != 0 && fileoff == 0 {
      var nsects, sect := Word(b, off + 64, 4), 0;
      while sect < nsects
        invariant sect <= nsects && room == SectionRoom(b, off, sect, before)
      {
        var x := Word(b, off + 72 + sect * 80 + 48, 4);
        if x != 0 {
          room := Bounded(room, x);
        }
        sect := sect + 1;
      }
    } else if filesize != 0 {
      room := Bounded(room, fileoff);
    }
  }

  /** The rewritten header: the new total size, then the commands, zero up to the end of the room. */
  function HeaderEdits(cmds: Bytes, room: nat): seq<Edit>
    requires |cmds| <= room
  {
    [Edit(SIZEOFCMDS, Le(|cmds| % U32, 4)), Edit(HEADER, cmds + Zeros(room - |cmds|))]
  }

  predicate AnyChange(spell: Speller, cs: seq<Command>) {
    exists i :: 0 <= i < |cs| && Changes(spell, cs[i])
  }

  /** What FixMachO makes of the header; None leaves the image alone: nothing to respell, or no room. */
  function NewHeader(spell: Speller, b: Bytes): Option<seq<Edit>>
    requires IsMachO(b)
  {
    var cs := CommandsOf(b);
    var cmds := Concat(RespellAll(spell, cs));
    if !AnyChange(spell, cs) || |cmds| > RoomOf(b) then None else Some(HeaderEdits(cmds, RoomOf(b)))
  }

  /** Every command is there, names its string properly, and grows to less than 4 GiB; the new paths
      are C strings. */
  ghost predicate WellFormed(spell: Speller, b: Bytes) {
    && IsMachO(b)
    && |CommandsOf(b)| == Word(b, NCMDS, 4) && RoomForOffsets(CommandsOf(b))
    && forall i :: 0 <= i < |CommandsOf(b)| && Changes(spell, CommandsOf(b)[i]) ==>
         var c := CommandsOf(b)[i];
         var path := spell(c.cmd, Path(c)).value;
         c.pathOff >= 12 && 0 !in path && RoundUp(c.pathOff + |path|) < U32
  }

  /** The same commands, but for the intended paths: a respelled command says its new path and is a multiple
      of 8 long. */
  ghost predicate Intended(spell: Speller, cs: seq<Command>, ds: seq<Command>) {
    && |ds| == |cs|
    && forall i :: 0 <= i < |cs| ==>
         if Changes(spell, cs[i])
         then ds[i].cmd == cs[i].cmd && Path(ds[i]) == spell(cs[i].cmd, Path(cs[i])).value
              && |ds[i].bytes| % ALIGN == 0
         else ds[i] == cs[i]
  }

  lemma RespelledProper(spell: Speller, b: Bytes)
    requires WellFormed(spell, b)
    ensures AllProper(RespellAll(spell, CommandsOf(b)))
    ensures Intended(spell, CommandsOf(b), RespellAll(spell, CommandsOf(b)))
  {
    hide Word, Proper, SetPath, Path, Commands, RoomForOffsets;
    var cs := CommandsOf(b);
    CommandsProper(b, HEADER, Word(b, NCMDS, 4));
    forall i | 0 <= i < |cs|
      ensures Proper(Respelled(spell, cs[i]))
      ensures Changes(spell, cs[i]) ==> Path(Respelled(spell, cs[i])) == spell(cs[i].cmd, Path(cs[i])).value
      ensures Changes(spell, cs[i]) ==> |Respelled(spell, cs[i]).bytes| % ALIGN == 0
    {
      if Changes(spell, cs[i]) {
        SetPathIs(cs[i], spell(cs[i].cmd, Path(cs[i])).value);
      }
    }
  }

  lemma HeaderFits(b: Bytes, cmds: Bytes, room: nat)
    requires |b| >= HEADER && |cmds| <= room <= |b| - HEADER
    ensures AllFit(HeaderEdits(cmds, room), |b|)
  {
  }

  /** The rewritten image: what lies where. */
  lemma HeaderPatched(b: Bytes, cmds: Bytes, room: nat)
    requires |b| >= HEADER && |cmds| <= room <= |b| - HEADER
    ensures AllFit(HeaderEdits(cmds, room), |b|)
    ensures var c := PatchAll(b, HeaderEdits(cmds, room));
            && |c| == |b|
            && c[..SIZEOFCMDS] == b[..SIZEOFCMDS] && c[24..HEADER] == b[24..HEADER]
              && c[HEADER + room..] == b[HEADER + room..]
            && c[HEADER..HEADER + |cmds|] == cmds
            && Word(c, SIZEOFCMDS, 4) == |cmds| % U32
  {
    hide PatchAll, UnLe, Le, Word;
    HeaderFits(b, cmds, room);
    var es := HeaderEdits(cmds, room);
    var size, body := es[0], es[1];
    assert forall e :: e in es ==> e == size || e == body;
    assert Coherent(es);
    AllMiss(b, es, 0, SIZEOFCMDS);
    AllMiss(b, es, 24, 8);
    AllMiss(b, es, HEADER + room, |b| - HEADER - room);
    CoherentLands(b, es, size);
    CoherentLands(b, es, body);
    var c := PatchAll(b, es);
    assert c[HEADER..HEADER + |cmds|] == c[HEADER..HEADER + room][..|cmds|];
    SizeWord(c, |cmds| % U32);
  }

  lemma SizeWord(c: Bytes, n: nat)
    requires n < U32 && |c| >= HEADER && c[SIZEOFCMDS..SIZEOFCMDS + 4] == Le(n, 4)
    ensures Word(c, SIZEOFCMDS, 4) == n
  {
    Widths();
    LeRoundTrip(n, 4);
  }

  /** Re-reading the load commands gives the original list with exactly the intended paths replaced, and
      the header's size field is their total; nothing outside the header room and that field has changed. */
  lemma HeaderReadsBack(spell: Speller, b: Bytes, es: seq<Edit>)
    requires WellFormed(spell, b) && NewHeader(spell, b) == Some(es)
    ensures AllFit(es, |b|)
    ensures var c, cs := PatchAll(b, es), CommandsOf(b);
            && |c| == |b| && IsMachO(c)
            && CommandsOf(c) == RespellAll(spell, cs) && Intended(spell, cs, CommandsOf(c)) && |cs| == Word(c, NCMDS, 4)
            && Word(c, SIZEOFCMDS, 4) == |Concat(RespellAll(spell, cs))| % U32
            && c[..SIZEOFCMDS] == b[..SIZEOFCMDS] && c[24..HEADER] == b[24..HEADER]
            && c[HEADER + RoomOf(b)..] == b[HEADER + RoomOf(b)..]
  {
    hide PatchAll, Word, Commands, RespellAll, Concat, HeaderEdits, RoomFrom, AllProper, RoomForOffsets, AnyChange,
         Intended;
    var ds := RespellAll(spell, CommandsOf(b));
    RespelledProper(spell, b);
    HeaderPatched(b, Concat(ds), RoomOf(b));
    var c := PatchAll(b, es);
    SameWord(b, c, 0);
    SameWord(b, c, NCMDS);
    CommandsReadBack(c, HEADER, ds);
  }

  lemma SameWord(b: Bytes, c: Bytes, x: nat)
    requires |b| == |c| >= HEADER && c[..SIZEOFCMDS] == b[..SIZEOFCMDS] && x + 4 <= SIZEOFCMDS
    ensures Word(c, x, 4) == Word(b, x, 4)
  {
    assert c[x..x + 4] == c[..SIZEOFCMDS][x..x + 4];
    assert b[x..x + 4] == b[..SIZEOFCMDS][x..x + 4];
  }
}

/** The manifest of a compile (manifest.cc), with store files identified by path: one line per input
    with its identity, one "!" line per path that was missed. The result key hashes the
    request key and these lines; validating a stored manifest recomputes it if every line still holds. */
module Manifest {
  import opened HashFields
  import opened Options
  import opened Texts

  /** Files by path. What is not there does not exist. */
  type Env = map<string, string>

  /** The store directory, the hash, the spelling a path takes inside keys (Store::Key), and which paths
      carry no random name that this spelling would mask. */
  datatype World = World(dir: string, hash: string -> string, key: string -> string, plain: string -> bool)

  ghost predicate GoodWorld(w: World) {
    && (forall a, b :: w.hash(a) == w.hash(b) ==> a == b)
    && (forall a :: '\n' !in w.hash(a) && '\t' !in w.hash(a))
  }

  /** A key names the same file as the path it is made of, and the empty path names none. */
  ghost predicate GoodEnv(w: World, env: Env) {
    "" !in env && forall p :: w.plain(p) ==> Look(env, p) == Look(env, w.key(p))
  }

  function Look(env: Env, p: string): Option<string> {
    if p in env then Some(env[p]) else None
  }

  predicate IsStorePath(w: World, p: string) {
    |p| > |w.dir| && w.dir <= p && p[|w.dir|] == '/'
  }

  /** Resolve without declared roots: a masked store path names nothing, any other path itself. */
  function Target(w: World, p: string): string {
    if w.dir + "/*-" <= p then "" else p
  }

  function InputId(w: World, env: Env, p: string): Option<string> {
    if IsStorePath(w, p) then Some("S:" + p)
    else if p in env then Some("C:" + w.hash(env[p]))
    else None
  }

  // ---------------------------------------------------------------- text and lines

  /** The non-empty pieces between separators. */
  function Split(text: string, sep: char): (lines: seq<string>)
    ensures forall l :: l in lines ==> sep !in l && l != []
    decreases |text|
  {
    if text == [] then []
    else
      var n := Find(text, sep);
      (if n > 0 then [text[..n]] else []) + (if n < |text| then Split(text[n + 1..], sep) else [])
  }

  /** What is left of the text from `start` on; nothing once the end has been passed. */
  function SplitFrom(text: string, start: nat, sep: char): seq<string> {
    if start <= |text| then Split(text[start..], sep) else []
  }

  lemma SplitStep(text: string, start: nat, sep: char)
    requires start <= |text|
    ensures var end := start + Find(text[start..], sep);
            && end <= |text|
            && SplitFrom(text, start, sep)
               == (if end > start then [text[start..end]] else []) + SplitFrom(text, end + 1, sep)
  {
    hide Find;
    var rest := text[start..];
    var end := start + Find(rest, sep);
    assert text[start..end] == rest[..end - start];
    if end < |text| {
      assert text[end + 1..] == rest[end - start + 1..];
    }
  }

  /** The loop of Split in base.cc. */
  method SplitText(text: string, sep: char) returns (out: seq<string>)
    ensures out == Split(text, sep)
  {
    hide Split, SplitFrom;
    out := [];
    var start := 0;
    Starts(text, sep);
    while start <= |text|
      invariant 0 <= start <= |text| + 1
      invariant out + SplitFrom(text, start, sep) == Split(text, sep)
      decreases |text| + 1 - start
    {
      SplitStep(text, start, sep);
      var end := start + Find(text[start..], sep);
      if end > start {
        out := out + [text[start..end]];
      }
      start := end + 1;
    }
    Ends(text, start, sep);
  }

  lemma Starts(text: string, sep: char)
    ensures SplitFrom(text, 0, sep) == Split(text, sep)
  {
    assert text[0..] == text;
  }

  lemma Ends(text: string, start: nat, sep: char)
    requires start > |text|
    ensures SplitFrom(text, start, sep) == []
  {
  }

  predicate Bang(line: string) {
    line != [] && line[0] == '!'
  }

  /** ParseManifest keeps "!" lines and lines with a tab. */
  predicate Kept(line: string) {
    Bang(line) || '\t' in line
  }

  function Entries(lines: seq<string>): (es: seq<string>)
    ensures forall e :: e in es ==> e in lines && Kept(e)
    decreases |lines|
  {
    if lines == [] then [] else (if Kept(lines[0]) then [lines[0]] else []) + Entries(lines[1..])
  }

  /** An absent path is still absent, an input still has its identity. */
  predicate Holds(w: World, env: Env, line: string)
    requires Kept(line)
  {
    if Bang(line) then Target(w, line[1..]) !in env
    else
      var tab := Find(line, '\t');
      tab < |line| && InputId(w, env, Target(w, line[..tab])) == Some(line[tab + 1..])
  }

  ghost predicate AllHold(w: World, env: Env, lines: seq<string>) {
    forall l :: l in lines ==> Kept(l) && Holds(w, env, l)
  }

  function ResultKey(w: World, k1: string, lines: seq<string>): string {
    w.hash(Fields([k1] + lines))
  }

  lemma ResultKeyInjective(w: World, k: string, ls: seq<string>, m: string, ms: seq<string>)
    requires GoodWorld(w) && ResultKey(w, k, ls) == ResultKey(w, m, ms)
    ensures k == m && ls == ms
  {
    FieldsInjective([k] + ls, [m] + ms);
    assert ([k] + ls)[0] == k && ([m] + ms)[0] == m;
    assert ([k] + ls)[1..] == ls && ([m] + ms)[1..] == ms;
  }

  // ---------------------------------------------------------------- validation

  datatype Verdict = Fresh(key: string) | Appeared(path: string) | Changed(path: string)

  function Broken(line: string): Verdict {
    if Bang(line) then Appeared(line[1..]) else Changed(line[..Find(line, '\t')])
  }

  /** How many lines hold before the first that does not. */
  function HoldUpTo(w: World, env: Env, lines: seq<string>): (n: nat)
    requires forall l :: l in lines ==> Kept(l)
    ensures n <= |lines|
    decreases |lines|
  {
    if lines == [] || !Holds(w, env, lines[0]) then 0 else 1 + HoldUpTo(w, env, lines[1..])
  }

  lemma {:induction false} HoldUpToIs(w: World, env: Env, lines: seq<string>, i: nat)
    requires forall l :: l in lines ==> Kept(l)
    ensures i < HoldUpTo(w, env, lines) ==> Holds(w, env, lines[i])
    ensures i == HoldUpTo(w, env, lines) < |lines| ==> !Holds(w, env, lines[i])
    decreases |lines|
  {
    if lines != [] && Holds(w, env, lines[0]) && i > 0 {
      HoldUpToIs(w, env, lines[1..], i - 1);
    }
  }

  /** The result key if every line holds, else the first one that does not. */
  function Validated(w: World, env: Env, k1: string, text: string): Verdict {
    var lines := Entries(Split(text, '\n'));
    var n := HoldUpTo(w, env, lines);
    if n < |lines| then Broken(lines[n]) else Fresh(ResultKey(w, k1, lines))
  }

  /** A key comes out exactly if all lines hold, and it is the key of those lines. */
  lemma ValidatedIff(w: World, env: Env, k1: string, text: string)
    ensures Validated(w, env, k1, text).Fresh? <==> AllHold(w, env, Entries(Split(text, '\n')))
    ensures Validated(w, env, k1, text).Fresh? ==>
              Validated(w, env, k1, text).key == ResultKey(w, k1, Entries(Split(text, '\n')))
  {
    hide Split, Entries, Holds, Kept, ResultKey;
    var lines := Entries(Split(text, '\n'));
    forall i | 0 <= i <= |lines|
      ensures i < HoldUpTo(w, env, lines) ==> Holds(w, env, lines[i])
      ensures i == HoldUpTo(w, env, lines) < |lines| ==> !Holds(w, env, lines[i])
    {
      HoldUpToIs(w, env, lines, i);
    }
    forall l | l in lines && HoldUpTo(w, env, lines) == |lines|
      ensures Holds(w, env, l)
    {
      var i :| 0 <= i < |lines| && lines[i] == l;
    }
  }

  /** ValidateManifest */
  method ValidateManifest(w: World, env: Env, k1: string, text: string) returns (v: Verdict)
    ensures v == Validated(w, env, k1, text)
  {
    hide Split, Entries, Holds, ResultKey, Broken, Fields, Find;
    var pieces := SplitText(text, '\n');
    var lines := KeepEntries(pieces);
    var hasher := new Hasher();
    hasher.Add(k1);
    var i := 0;
    while i < |lines|
      invariant i <= |lines| && hasher.Valid() && hasher.fields == [k1] + lines[..i]
      invariant i <= HoldUpTo(w, env, lines)
    {
      var line := lines[i];
      HoldUpToIs(w, env, lines, i);
      if !Holds(w, env, line) {
        return Broken(line);
      }
      assert [k1] + lines[..i] + [line] == [k1] + lines[..i + 1];
      hasher.Add(line);
      i := i + 1;
    }
    assert lines[..i] == lines;
    KeyIsHash(w, k1, lines);
    v := Fresh(w.hash(hasher.fed));
  }

  lemma KeyIsHash(w: World, k1: string, lines: seq<string>)
    ensures ResultKey(w, k1, lines) == w.hash(Fields([k1] + lines))
  {
  }

  method KeepEntries(pieces: seq<string>) returns (es: seq<string>)
    ensures es == Entries(pieces)
  {
    es := [];
    var i := 0;
    while i < |pieces|
      invariant i <= |pieces| && es + Entries(pieces[i..]) == Entries(pieces)
    {
      if Kept(pieces[i]) {
        es := es + [pieces[i]];
      }
      i := i + 1;
    }
  }

  // ---------------------------------------------------------------- building

  function InputLine(w: World, env: Env, p: string): string
    requires InputId(w, env, p).Some?
  {
    w.key(p) + "\t" + InputId(w, env, p).value
  }

  predicate Listed(w: World, env: Env, src: string, p: string) {
    p != src && InputId(w, env, p).Some?
  }

  function InputLines(w: World, env: Env, src: string, inputs: seq<string>): seq<string>
    decreases |inputs|
  {
    if inputs == [] then []
    else
      var p, ls := inputs[|inputs| - 1], InputLines(w, env, src, inputs[..|inputs| - 1]);
      if Listed(w, env, src, p) then ls + [InputLine(w, env, p)] else ls
  }

  /** A missed path worth a line: not below the store, and nothing is there after the compile either. */
  predicate Noted(w: World, env: Env, p: string) {
    p != "" && !IsStorePath(w, p) && p !in env
  }

  function AbsentLines(w: World, env: Env, absent: seq<string>): seq<string>
    decreases |absent|
  {
    if absent == [] then []
    else
      var p, ls := absent[|absent| - 1], AbsentLines(w, env, absent[..|absent| - 1]);
      if Noted(w, env, p) && "!" + w.key(p) !in ls then ls + ["!" + w.key(p)] else ls
  }

  function Lines(w: World, env: Env, src: string, inputs: seq<string>, absent: seq<string>): seq<string> {
    InputLines(w, env, src, inputs) + AbsentLines(w, env, absent)
  }

  /** One line goes to the text and to the hash. */
  method AddLine(hasher: Hasher, text: string, ghost k1: string, ghost lines: seq<string>,
                 line: string) returns (more: string)
    requires text == Text(lines) && hasher.Valid() && hasher.fields == [k1] + lines
    modifies hasher
    ensures more == Text(lines + [line]) && hasher.Valid() && hasher.fields == [k1] + (lines + [line])
  {
    TextAppend(lines, line);
    assert [k1] + lines + [line] == [k1] + (lines + [line]);
    more := text + line + "\n";
    hasher.Add(line);
  }

  method AddInputs(w: World, env: Env, hasher: Hasher, ghost k1: string, src: string,
                   inputs: seq<string>) returns (text: string)
    requires hasher.Valid() && hasher.fields == [k1]
    modifies hasher
    ensures text == Text(InputLines(w, env, src, inputs))
    ensures hasher.Valid() && hasher.fields == [k1] + InputLines(w, env, src, inputs)
  {
    hide Text, Fields, InputLine;
    text := "";
    var i := 0;
    NoText();
    assert [k1] + [] == [k1];
    assert inputs[..0] == [];
    while i < |inputs|
      invariant i <= |inputs|
      invariant text == Text(InputLines(w, env, src, inputs[..i]))
      invariant hasher.Valid() && hasher.fields == [k1] + InputLines(w, env, src, inputs[..i])
    {
      var p := inputs[i];
      assert inputs[..i + 1][..i] == inputs[..i];
      if Listed(w, env, src, p) {
        text := AddLine(hasher, text, k1, InputLines(w, env, src, inputs[..i]), InputLine(w, env, p));
      }
      i := i + 1;
    }
    assert inputs[..i] == inputs;
  }

  method AddAbsent(w: World, env: Env, hasher: Hasher, before: string, ghost k1: string, ghost ls: seq<string>,
                   absent: seq<string>)
    returns (text: string)
    requires before == Text(ls) && hasher.Valid() && hasher.fields == [k1] + ls
    modifies hasher
    ensures text == Text(ls + AbsentLines(w, env, absent))
    ensures hasher.Valid() && hasher.fields == [k1] + (ls + AbsentLines(w, env, absent))
  {
    hide Text, Fields, Noted;
    text := before;
    var seen: set<string> := {};
    var i := 0;
    assert absent[..0] == [] && ls + [] == ls;
    while i < |absent|
      invariant i <= |absent|
      invariant forall l :: l in seen <==> l in AbsentLines(w, env, absent[..i])
      invariant text == Text(ls + AbsentLines(w, env, absent[..i]))
      invariant hasher.Valid() && hasher.fields == [k1] + (ls + AbsentLines(w, env, absent[..i]))
    {
      var p := absent[i];
      ghost var sofar := AbsentLines(w, env, absent[..i]);
      assert absent[..i + 1][..i] == absent[..i];
      if Noted(w, env, p) && "!" + w.key(p) !in seen {
        seen := seen + {"!" + w.key(p)};
        text := AddLine(hasher, text, k1, ls + sofar, "!" + w.key(p));
        assert ls + sofar + ["!" + w.key(p)] == ls + (sofar + ["!" + w.key(p)]);
      }
      i := i + 1;
    }
    assert absent[..i] == absent;
  }

  /** BuildManifest: the text and the result key of what a compile read and missed. */
  method BuildManifest(w: World, env: Env, k1: string, src: string, inputs: seq<string>, absent: seq<string>)
    returns (text: string, k2: string)
    ensures text == Text(Lines(w, env, src, inputs, absent))
    ensures k2 == ResultKey(w, k1, Lines(w, env, src, inputs, absent))
  {
    var hasher := new Hasher();
    hasher.Add(k1);
    text := AddInputs(w, env, hasher, k1, src, inputs);
    text := AddAbsent(w, env, hasher, text, k1, InputLines(w, env, src, inputs), absent);
    k2 := w.hash(hasher.fed);
  }

  // ---------------------------------------------------------------- round trip

  lemma {:induction false} InputLinesAre(w: World, env: Env, src: string, inputs: seq<string>, l: string)
    ensures l in InputLines(w, env, src, inputs) <==>
            exists p :: p in inputs && Listed(w, env, src, p) && l == InputLine(w, env, p)
    decreases |inputs|
  {
    if inputs != [] {
      InputLinesAre(w, env, src, inputs[..|inputs| - 1], l);
      assert forall p :: p in inputs <==> p in inputs[..|inputs| - 1] || p == inputs[|inputs| - 1];
    }
  }

  lemma {:induction false} AbsentLinesAre(w: World, env: Env, absent: seq<string>, l: string)
    ensures l in AbsentLines(w, env, absent) <==> exists p :: p in absent && Noted(w, env, p) && l == "!" + w.key(p)
    decreases |absent|
  {
    if absent != [] {
      AbsentLinesAre(w, env, absent[..|absent| - 1], l);
      assert forall p :: p in absent <==> p in absent[..|absent| - 1] || p == absent[|absent| - 1];
    }
  }

  lemma SplitLine(l: string, rest: string)
    requires l != [] && '\n' !in l
    ensures Split(l + "\n" + rest, '\n') == [l] + Split(rest, '\n')
  {
    hide Find;
    var t := l + "\n" + rest;
    FindEnd(l, '\n', rest);
    assert t[..|l|] == l && t[|l| + 1..] == rest;
  }

  lemma NoPieces()
    ensures Split("", '\n') == []
  {
  }

  lemma {:induction false} SplitOfText(lines: seq<string>)
    requires forall l :: l in lines ==> l != [] && '\n' !in l
    ensures Split(Text(lines), '\n') == lines
    decreases |lines|
  {
    hide Split;
    if lines == [] {
      NoPieces();
    } else {
      assert lines[0] in lines && forall m :: m in lines[1..] ==> m in lines;
      SplitOfText(lines[1..]);
      SplitLine(lines[0], Text(lines[1..]));
    }
  }

  lemma {:induction false} EntriesAll(lines: seq<string>)
    requires forall l :: l in lines ==> Kept(l)
    ensures Entries(lines) == lines
    decreases |lines|
  {
    if lines != [] {
      assert lines[0] in lines;
      EntriesAll(lines[1..]);
    }
  }

  lemma LinesKept(w: World, env: Env, src: string, inputs: seq<string>, absent: seq<string>)
    ensures forall l :: l in Lines(w, env, src, inputs, absent) ==> Kept(l) && l != []
  {
    forall l | l in Lines(w, env, src, inputs, absent)
      ensures Kept(l)
    {
      InputLinesAre(w, env, src, inputs, l);
      AbsentLinesAre(w, env, absent, l);
      if l in InputLines(w, env, src, inputs) {
        var p :| p in inputs && Listed(w, env, src, p) && l == InputLine(w, env, p);
        assert l[|w.key(p)|] == '\t';
      }
    }
  }

  /** A manifest validates to its own result key iff its lines are whole lines that hold. */
  lemma ValidatesIff(w: World, env: Env, k1: string, lines: seq<string>)
    requires GoodWorld(w) && forall l :: l in lines ==> Kept(l) && l != []
    ensures Validated(w, env, k1, Text(lines)) == Fresh(ResultKey(w, k1, lines))
       <==> forall l :: l in lines ==> '\n' !in l && Holds(w, env, l)
  {
    hide Validated, Text, Split, Entries, Holds, Kept, ResultKey;
    var es := Entries(Split(Text(lines), '\n'));
    ValidatedIff(w, env, k1, Text(lines));
    if forall l :: l in lines ==> '\n' !in l && Holds(w, env, l) {
      SplitOfText(lines);
      EntriesAll(lines);
    } else if Validated(w, env, k1, Text(lines)) == Fresh(ResultKey(w, k1, lines)) {
      ResultKeyInjective(w, k1, es, k1, lines);
      assert false;
    }
  }

  lemma TabFree(w: World, env: Env, p: string)
    requires GoodWorld(w) && InputId(w, env, p).Some? && '\t' !in p
    ensures '\t' !in InputId(w, env, p).value
  {
  }

  /** How an input must be spelled for its line to hold in the environment it was made in. A key with a
      leading "!" makes a line that is read as the rest of it, which must not name a file. A store path
      must be its own key; any other path's key must lie outside the store and name the same contents. */
  predicate Lasting(w: World, env: Env, p: string)
    requires InputId(w, env, p).Some?
  {
    if Bang(w.key(p)) then
      var rest := w.key(p)[1..] + "\t" + InputId(w, env, p).value;
      w.dir + "/*-" <= rest || rest !in env
    else if IsStorePath(w, p) then '\t' !in p && w.key(p) == p && !(w.dir + "/*-" <= p)
    else '\t' !in w.key(p) && !IsStorePath(w, w.key(p)) && Look(env, w.key(p)) == Look(env, p)
  }

  /** Of a plain path outside the store only the spelling of its key counts. */
  lemma PlainLasting(w: World, env: Env, p: string)
    requires GoodEnv(w, env) && w.plain(p) && InputId(w, env, p).Some? && !IsStorePath(w, p) && !Bang(w.key(p))
    ensures Lasting(w, env, p) <==> '\t' !in w.key(p) && !IsStorePath(w, w.key(p))
  {
  }

  /** Where the key has no tab, the line's path has the input's identity exactly under that condition. */
  lemma SameIdentity(w: World, env: Env, p: string)
    requires GoodWorld(w) && GoodEnv(w, env) && InputId(w, env, p).Some? && !Bang(w.key(p)) && '\t' !in w.key(p)
    ensures InputId(w, env, Target(w, w.key(p))) == InputId(w, env, p) <==> Lasting(w, env, p)
  {
    var k, q := w.key(p), Target(w, w.key(p));
    if InputId(w, env, q) == InputId(w, env, p) {
      KindOf(w, env, p);
      KindOf(w, env, q);
    }
    if w.dir + "/*-" <= k {
      assert IsStorePath(w, k) by {
        assert (w.dir + "/*-")[|w.dir|] == '/' && w.dir <= w.dir + "/*-";
      }
    }
  }

  /** An identity tells a store path from a file, and which path or what contents. */
  lemma KindOf(w: World, env: Env, p: string)
    requires InputId(w, env, p).Some?
    ensures var id := InputId(w, env, p).value;
            if IsStorePath(w, p) then id[0] == 'S' && id[2..] == p
              else id[0] == 'C' && p in env && id[2..] == w.hash(env[p])
  {
  }

  lemma InputLineHolds(w: World, env: Env, p: string)
    requires GoodWorld(w) && GoodEnv(w, env) && InputId(w, env, p).Some?
    ensures Kept(InputLine(w, env, p)) && (Holds(w, env, InputLine(w, env, p)) <==> Lasting(w, env, p))
  {
    var k, id := w.key(p), InputId(w, env, p).value;
    var l := InputLine(w, env, p);
    var tab := Find(l, '\t');
    assert l[|k|] == '\t';
    if Bang(k) {
      assert l[1..] == k[1..] + "\t" + id;
    } else {
      FoundBy(l, '\t', |k|);
      assert l[..tab] == k[..tab];
      if tab == |k| {
        assert k[..tab] == k;
        assert l[tab + 1..] == id;
        SameIdentity(w, env, p);
      } else {
        assert k[tab] == '\t';
        assert l[tab + 1..][|k| - tab - 1] == '\t';
        Untabbed(w, env, k[..tab], l[tab + 1..]);
      }
    }
  }

  /** No identity contains a tab unless its path does. */
  lemma Untabbed(w: World, env: Env, k: string, id: string)
    requires GoodWorld(w) && '\t' !in k && '\t' in id
    ensures InputId(w, env, Target(w, k)) != Some(id)
  {
    if InputId(w, env, Target(w, k)).Some? {
      TabFree(w, env, Target(w, k));
    }
  }

  lemma AbsentLineHolds(w: World, env: Env, p: string)
    requires GoodEnv(w, env) && w.plain(p) && p !in env
    ensures Kept("!" + w.key(p)) && Holds(w, env, "!" + w.key(p))
  {
    var l := "!" + w.key(p);
    assert l[1..] == w.key(p);
    assert Look(env, p) == Look(env, w.key(p));
  }

  /** In an unchanged environment ValidateManifest returns exactly BuildManifest's result key, if and
      only if no line is torn by a newline and each listed input is spelled to last. */
  lemma RoundTripIff(w: World, env: Env, k1: string, src: string, inputs: seq<string>, absent: seq<string>)
    requires GoodWorld(w) && GoodEnv(w, env) && forall p :: p in absent ==> w.plain(p)
    ensures Validated(w, env, k1, Text(Lines(w, env, src, inputs, absent)))
         == Fresh(ResultKey(w, k1, Lines(w, env, src, inputs, absent)))
       <==> && (forall p :: p in inputs && Listed(w, env, src, p) ==>
                  '\n' !in InputLine(w, env, p) && Lasting(w, env, p))
            && (forall p :: p in absent && Noted(w, env, p) ==> '\n' !in w.key(p))
  {
    hide Validated, Text, ResultKey, Lines, Listed, Noted, InputLine, Lasting, Holds, Kept, GoodWorld, GoodEnv,
         InputLines, AbsentLines;
    var lines := Lines(w, env, src, inputs, absent);
    LinesKept(w, env, src, inputs, absent);
    ValidatesIff(w, env, k1, lines);
    LinesHoldIff(w, env, src, inputs, absent);
  }

  /** The line of a store path that is not its own normal form holds in no environment. */
  lemma UnnormalisedNeverHolds(w: World, a: Env, b: Env, p: string)
    requires GoodWorld(w) && IsStorePath(w, p) && w.key(p) != p && !Bang(w.key(p))
    ensures Kept(InputLine(w, a, p)) && !Holds(w, b, InputLine(w, a, p))
  {
    var k, l := w.key(p), InputLine(w, a, p);
    var tab := Find(l, '\t');
    assert l[|k|] == '\t';
    FoundBy(l, '\t', |k|);
    assert l[..tab] == k[..tab];
    if tab == |k| {
      assert k[..tab] == k && l[tab + 1..] == "S:" + p;
      if InputId(w, b, Target(w, k)) == Some("S:" + p) {
        KindOf(w, b, Target(w, k));
        assert false;
      }
    } else {
      assert l[tab + 1..][|k| - tab - 1] == '\t';
      Untabbed(w, b, k[..tab], l[tab + 1..]);
    }
  }

  /** Such a path listed as an input: wherever the manifest is looked at later, it does not lead to its result,
      and unless a newline tears it, to none. */
  lemma UnnormalisedNeverHits(w: World, a: Env, b: Env, k1: string, src: string, inputs: seq<string>,
                              absent: seq<string>, p: string)
    requires GoodWorld(w) && p in inputs && p != src && IsStorePath(w, p) && w.key(p) != p && !Bang(w.key(p))
    ensures var lines := Lines(w, a, src, inputs, absent);
            && Validated(w, b, k1, Text(lines)) != Fresh(ResultKey(w, k1, lines))
            && ((forall l :: l in lines ==> '\n' !in l) ==> !Validated(w, b, k1, Text(lines)).Fresh?)
  {
    hide Validated, Text, ResultKey, GoodWorld, Holds, Kept, InputLine, InputLines, AbsentLines, Split, Entries;
    var lines, l := Lines(w, a, src, inputs, absent), InputLine(w, a, p);
    InputLinesAre(w, a, src, inputs, l);
    UnnormalisedNeverHolds(w, a, b, p);
    assert l in lines;
    LinesKept(w, a, src, inputs, absent);
    ValidatesIff(w, b, k1, lines);
    ValidatedIff(w, b, k1, Text(lines));
    if forall l :: l in lines ==> '\n' !in l {
      SplitOfText(lines);
      EntriesAll(lines);
    }
  }

  lemma LinesHoldIff(w: World, env: Env, src: string, inputs: seq<string>, absent: seq<string>)
    requires GoodWorld(w) && GoodEnv(w, env) && forall p :: p in absent ==> w.plain(p)
    requires forall l :: l in Lines(w, env, src, inputs, absent) ==> Kept(l)
    ensures (forall l :: l in Lines(w, env, src, inputs, absent) ==> '\n' !in l && Holds(w, env, l))
       <==> && (forall p :: p in inputs && Listed(w, env, src, p) ==>
                  '\n' !in InputLine(w, env, p) && Lasting(w, env, p))
            && (forall p :: p in absent && Noted(w, env, p) ==> '\n' !in w.key(p))
  {
    hide InputLine, Lasting, Holds, Kept, GoodWorld, GoodEnv, InputLines, AbsentLines;
    forall p | p in inputs && Listed(w, env, src, p)
      ensures InputLine(w, env, p) in Lines(w, env, src, inputs, absent)
      ensures Kept(InputLine(w, env, p)) && (Holds(w, env, InputLine(w, env, p)) <==> Lasting(w, env, p))
    {
      InputLinesAre(w, env, src, inputs, InputLine(w, env, p));
      InputLineHolds(w, env, p);
    }
    forall p | p in absent && Noted(w, env, p)
      ensures "!" + w.key(p) in Lines(w, env, src, inputs, absent)
      ensures Kept("!" + w.key(p)) && Holds(w, env, "!" + w.key(p))
    {
      AbsentLinesAre(w, env, absent, "!" + w.key(p));
      AbsentLineHolds(w, env, p);
    }
    forall l | l in Lines(w, env, src, inputs, absent)
      ensures (exists p :: p in inputs && Listed(w, env, src, p) && l == InputLine(w, env, p))
           || (exists p :: p in absent && Noted(w, env, p) && l == "!" + w.key(p))
    {
      InputLinesAre(w, env, src, inputs, l);
      AbsentLinesAre(w, env, absent, l);
    }
  }
}

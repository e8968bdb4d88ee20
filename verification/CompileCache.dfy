/** The two-key compile cache over whole runs (cc_mode.cc on manifest.cc): compiles that store what they
    learned, in full or in part, an environment that changes between them, a daemon that may lose
    anything. A hit is what a real compile would give now. */
module CompileCache {
  import opened Decimal
  import opened Options
  import opened HashFields
  import opened Manifest
  import opened Texts

  // ---------------------------------------------------------------- the compiler

  /** A request in normal form: what the request key is made of. */
  datatype Request = Request(tool: string, cwd: string, src: string, args: seq<string>, toolchain: string, text: string)

  datatype Result = Result(status: nat, obj: string, depfile: string, stderr: string)

  /** One look at the environment: the path and what was there. */
  datatype Seen = Seen(path: string, saw: Option<string>)

  datatype Action = Ask(path: string) | Finish(result: Result)

  /** A deterministic compiler: what it has seen so far decides what it looks at next. */
  type Compiler = (Request, seq<Seen>) -> Action

  ghost predicate Steps(cc: Compiler, req: Request, env: Env, tr: seq<Seen>) {
    forall i :: 0 <= i < |tr| ==> cc(req, tr[..i]) == Ask(tr[i].path) && tr[i].saw == Look(env, tr[i].path)
  }

  ghost predicate Compiles(cc: Compiler, req: Request, env: Env, tr: seq<Seen>, res: Result) {
    Steps(cc, req, env, tr) && cc(req, tr) == Finish(res)
  }

  lemma {:induction false} SameSteps(cc: Compiler, req: Request, env: Env, tr: seq<Seen>, us: seq<Seen>, n: nat)
    requires Steps(cc, req, env, tr) && Steps(cc, req, env, us) && n <= |tr| && n <= |us|
    ensures tr[..n] == us[..n]
    decreases n
  {
    if n > 0 {
      SameSteps(cc, req, env, tr, us, n - 1);
      var a, b := tr[n - 1], us[n - 1];
      assert tr[..n] == tr[..n - 1] + [a] && us[..n] == us[..n - 1] + [b];
    }
  }

  /** One environment, one result. */
  lemma Deterministic(cc: Compiler, req: Request, env: Env, tr: seq<Seen>, res: Result, us: seq<Seen>, other: Result)
    requires Compiles(cc, req, env, tr, res) && Compiles(cc, req, env, us, other)
    ensures tr == us && res == other
  {
    var n := if |tr| < |us| then |tr| else |us|;
    SameSteps(cc, req, env, tr, us, n);
    assert tr[..|tr|] == tr && us[..|us|] == us;
  }

  // ---------------------------------------------------------------- the request key

  function RequestFields(req: Request): seq<string> {
    ["cc=" + req.tool, "cwd=" + req.cwd, "src=" + req.src, "mode=compile"] + req.args
    + [req.text + "\ntoolchain=" + req.toolchain]
  }

  function RequestKey(w: World, req: Request): string {
    w.hash(Fields(RequestFields(req)))
  }

  ghost predicate GoodRequest(req: Request) {
    '\n' !in req.toolchain
  }

  lemma LastLine(a: string, b: string, c: string, d: string)
    requires '\n' !in b && '\n' !in d && a + "\ntoolchain=" + b == c + "\ntoolchain=" + d
    ensures a == c && b == d
  {
    var t, m := a + "\ntoolchain=" + b, "\ntoolchain=";
    assert t == c + m + d;
    assert t[|a|] == '\n' && t[|c|] == '\n';
    assert |a| == |c|;
    assert a == t[..|a|] && c == t[..|c|];
    assert b == t[|a| + |m|..] && d == t[|c| + |m|..];
  }

  /** The request key tells requests apart, source text and toolchain included. */
  lemma RequestKeyInjective(w: World, a: Request, b: Request)
    requires GoodWorld(w) && GoodRequest(a) && GoodRequest(b) && RequestKey(w, a) == RequestKey(w, b)
    ensures a == b
  {
    var f, g := RequestFields(a), RequestFields(b);
    FieldsInjective(f, g);
    assert f[0] == "cc=" + a.tool && f[1] == "cwd=" + a.cwd && f[2] == "src=" + a.src;
    assert g[0] == "cc=" + b.tool && g[1] == "cwd=" + b.cwd && g[2] == "src=" + b.src;
    assert f[4..|f| - 1] == a.args && g[4..|g| - 1] == b.args;
    assert f[0][3..] == a.tool && g[0][3..] == b.tool;
    assert f[1][4..] == a.cwd && g[1][4..] == b.cwd;
    assert f[2][4..] == a.src && g[2][4..] == b.src;
    assert f[|f| - 1] == a.text + "\ntoolchain=" + a.toolchain && g[|g| - 1] == b.text + "\ntoolchain=" + b.toolchain;
    LastLine(a.text, a.toolchain, b.text, b.toolchain);
  }

  // ---------------------------------------------------------------- what a manifest's lines guarantee

  /** The request was made in this environment. */
  ghost predicate Current(req: Request, env: Env) {
    Look(env, req.src) == Some(req.text)
  }

  /** Store paths neither change nor appear nor vanish. */
  ghost predicate SameStore(w: World, a: Env, b: Env) {
    forall p :: IsStorePath(w, p) ==> Look(a, p) == Look(b, p)
  }

  ghost predicate AllPlain(w: World, paths: seq<string>) {
    forall p :: p in paths ==> w.plain(p)
  }

  /** The compile told everything it read and everything it missed; more does no harm. */
  ghost predicate Observed(tr: seq<Seen>, inputs: seq<string>, absent: seq<string>) {
    forall i :: 0 <= i < |tr| ==> if tr[i].saw.Some? then tr[i].path in inputs else tr[i].path in absent
  }

  /** An input whose key starts with "!" gets a line that is read as an absent path. That does no harm to a
      store path, which never changes, to the source, which gets no line, and where a newline tears the
      line, so that the manifest never leads to this result. */
  ghost predicate Watched(w: World, env: Env, src: string, inputs: seq<string>) {
    forall p :: p in inputs && Listed(w, env, src, p) && Bang(w.key(p)) ==>
      IsStorePath(w, p) || '\n' in InputLine(w, env, p)
  }

  ghost predicate Whole(lines: seq<string>) {
    forall l :: l in lines ==> '\n' !in l
  }

  /** An input whose line still holds still has its contents. */
  lemma InputStays(w: World, a: Env, b: Env, p: string)
    requires GoodWorld(w) && GoodEnv(w, a) && GoodEnv(w, b) && SameStore(w, a, b)
    requires p in a && w.plain(p) && !Bang(w.key(p))
    requires Kept(InputLine(w, a, p)) && Holds(w, b, InputLine(w, a, p))
    ensures Look(b, p) == Look(a, p)
  {
    var k, id := w.key(p), InputId(w, a, p).value;
    var l := InputLine(w, a, p);
    var tab := Find(l, '\t');
    assert l[|k|] == '\t';
    FoundBy(l, '\t', |k|);
    assert l[..tab] == k[..tab];
    if tab < |k| {
      assert l[tab + 1..][|k| - tab - 1] == '\t';
      Untabbed(w, b, k[..tab], l[tab + 1..]);
      assert false;
    }
    assert k[..tab] == k && l[tab + 1..] == id;
    SameId(w, a, b, p);
  }

  lemma SameId(w: World, a: Env, b: Env, p: string)
    requires GoodWorld(w) && GoodEnv(w, b) && SameStore(w, a, b) && p in a && w.plain(p)
    requires InputId(w, b, Target(w, w.key(p))) == InputId(w, a, p)
    ensures Look(b, p) == Look(a, p)
  {
    var k := Target(w, w.key(p));
    assert Look(b, p) == Look(b, w.key(p));
    if IsStorePath(w, p) {
      assert IsStorePath(w, k) by {
        assert InputId(w, b, k).value[0] == 'S';
      }
    } else {
      var id := InputId(w, a, p).value;
      assert id[0] == 'C' && id[2..] == w.hash(a[p]);
      assert InputId(w, b, k).value == id;
      assert id[2..] == w.hash(b[k]);
    }
  }

  lemma StorePathStays(w: World, a: Env, b: Env, p: string)
    requires SameStore(w, a, b) && IsStorePath(w, p)
    ensures Look(b, p) == Look(a, p)
  {
  }

  /** A miss whose line still holds is still a miss. */
  lemma AbsentStays(w: World, a: Env, b: Env, p: string)
    requires GoodEnv(w, a) && GoodEnv(w, b) && SameStore(w, a, b) && p !in a && w.plain(p)
    requires !IsStorePath(w, p) ==> Holds(w, b, "!" + w.key(p))
    ensures p !in b
  {
    var k, l := w.key(p), "!" + w.key(p);
    assert Look(a, p) == None && Look(a, p) == Look(a, k) && Look(b, p) == Look(b, k);
    assert l[1..] == k;
    if IsStorePath(w, p) {
      assert Look(b, p) == Look(a, p);
    } else if w.dir + "/*-" <= k {
      assert k[|w.dir|] == (w.dir + "/*-")[|w.dir|] == '/';
      assert w.dir == (w.dir + "/*-")[..|w.dir|] == k[..|w.dir|];
      assert IsStorePath(w, k);
    }
  }

  /** In any environment where the lines of a compile still hold, the compiler does the same again. */
  lemma LinesJustify(w: World, cc: Compiler, req: Request, a: Env, b: Env, tr: seq<Seen>, res: Result,
                     inputs: seq<string>, absent: seq<string>)
    requires GoodWorld(w) && GoodEnv(w, a) && GoodEnv(w, b) && SameStore(w, a, b) && Current(req, a) && Current(req, b)
    requires Compiles(cc, req, a, tr, res) && Observed(tr, inputs, absent)
    requires AllPlain(w, inputs) && AllPlain(w, absent) && Watched(w, a, req.src, inputs)
    requires Whole(Lines(w, a, req.src, inputs, absent)) && AllHold(w, b, Lines(w, a, req.src, inputs, absent))
    ensures Compiles(cc, req, b, tr, res)
  {
    forall i | 0 <= i < |tr|
      ensures tr[i].saw == Look(b, tr[i].path)
    {
      LookStays(w, req, a, b, tr[i], inputs, absent);
    }
  }

  lemma LookStays(w: World, req: Request, a: Env, b: Env, seen: Seen, inputs: seq<string>, absent: seq<string>)
    requires GoodWorld(w) && GoodEnv(w, a) && GoodEnv(w, b) && SameStore(w, a, b) && Current(req, a) && Current(req, b)
    requires seen.saw == Look(a, seen.path) && if seen.saw.Some? then seen.path in inputs else seen.path in absent
    requires AllPlain(w, inputs) && AllPlain(w, absent) && Watched(w, a, req.src, inputs)
    requires Whole(Lines(w, a, req.src, inputs, absent)) && AllHold(w, b, Lines(w, a, req.src, inputs, absent))
    ensures seen.saw == Look(b, seen.path)
  {
    hide GoodWorld, GoodEnv, SameStore, Holds, Kept, InputLine, InputLines, AbsentLines;
    var p := seen.path;
    if p == req.src {
    } else if seen.saw.Some? {
      InputLinesAre(w, a, req.src, inputs, InputLine(w, a, p));
      assert InputLine(w, a, p) in Lines(w, a, req.src, inputs, absent);
      if Bang(w.key(p)) {
        StorePathStays(w, a, b, p);
      } else {
        InputStays(w, a, b, p);
      }
    } else if p == "" {
      EmptyPath(w, b);
    } else {
      AbsentLinesAre(w, a, absent, "!" + w.key(p));
      assert !IsStorePath(w, p) ==> "!" + w.key(p) in Lines(w, a, req.src, inputs, absent);
      AbsentStays(w, a, b, p);
    }
  }

  lemma EmptyPath(w: World, env: Env)
    requires GoodEnv(w, env)
    ensures "" !in env
  {
  }

  // ---------------------------------------------------------------- slots and numbers

  function ManifestSlot(k1: string): string { "m/" + k1 }
  function ObjectSlot(k2: string): string { "o/" + k2 }
  function DepfileSlot(k2: string): string { "d/" + k2 }
  function StatusSlot(k2: string): string { "r/" + k2 }
  function StderrSlot(k2: string): string { "e/" + k2 }

  lemma SlotsApart(k: string, m: string)
    ensures StatusSlot(k) == StatusSlot(m) ==> k == m
    ensures ObjectSlot(k) == ObjectSlot(m) ==> k == m
    ensures DepfileSlot(k) == DepfileSlot(m) ==> k == m
    ensures StderrSlot(k) == StderrSlot(m) ==> k == m
    ensures StatusSlot(k) != ObjectSlot(m) && StatusSlot(k) != DepfileSlot(m) && ObjectSlot(k) != DepfileSlot(m)
    ensures StderrSlot(k) != StatusSlot(m) && StderrSlot(k) != ObjectSlot(m) && StderrSlot(k) != DepfileSlot(m)
    ensures StatusSlot(k) != ManifestSlot(m) && ObjectSlot(k) != ManifestSlot(m) && DepfileSlot(k) != ManifestSlot(m)
    ensures StderrSlot(k) != ManifestSlot(m)
  {
    assert StatusSlot(k)[2..] == k && StatusSlot(m)[2..] == m;
    assert ObjectSlot(k)[2..] == k && ObjectSlot(m)[2..] == m;
    assert DepfileSlot(k)[2..] == k && DepfileSlot(m)[2..] == m;
    assert StderrSlot(k)[2..] == k && StderrSlot(m)[2..] == m;
    assert StatusSlot(k)[0] == 'r' && ObjectSlot(k)[0] == 'o' && DepfileSlot(k)[0] == 'd' && StderrSlot(k)[0] == 'e';
    assert StatusSlot(m)[0] == 'r' && ObjectSlot(m)[0] == 'o' && DepfileSlot(m)[0] == 'd' && ManifestSlot(m)[0] == 'm';
  }

  /** Conversion of a 64-bit unsigned number to a 32-bit int. */
  function AsInt(n: nat): int {
    var v := n % 0x1_0000_0000;
    if v < 0x8000_0000 then v else v - 0x1_0000_0000
  }

  lemma StatusRoundTrip(n: nat)
    requires n < 256
    ensures ParseUint(Digits(n)) == Some(n) && AsInt(n) == n
  {
    ParseDigits(n);
  }

  // ---------------------------------------------------------------- the system

  /** What one stored compile is about. */
  datatype Fact = Fact(req: Request, lines: seq<string>, tr: seq<Seen>, res: Result)

  /** A value the daemon was given, and by which compile. */
  datatype Stored = Stored(slot: string, value: string, fact: Fact)

  datatype State = State(env: Env, stored: set<Stored>)

  datatype Event =
    | Change(env: Env)
    | Compile(req: Request, tr: seq<Seen>, res: Result, inputs: seq<string>, absent: seq<string>, wants: bool,
              sent: set<nat>)

  /** The puts of CompileAndStore, in order. */
  function Puts(w: World, f: Fact, wants: bool): seq<Stored> {
    var k1 := RequestKey(w, f.req);
    var k2 := ResultKey(w, k1, f.lines);
    [Stored(ManifestSlot(k1), Text(f.lines), f)] +
    (if f.res.status != 0 then [Stored(StatusSlot(k2), Digits(f.res.status), f)]
     else [Stored(ObjectSlot(k2), f.res.obj, f)]) +
    [Stored(StderrSlot(k2), f.res.stderr, f)] +
    if f.res.status == 0 && wants then [Stored(DepfileSlot(k2), f.res.depfile, f)] else []
  }

  function FactOf(w: World, env: Env, e: Event): Fact
    requires e.Compile?
  {
    Fact(e.req, Lines(w, env, e.req.src, e.inputs, e.absent), e.tr, e.res)
  }

  ghost predicate Can(w: World, cc: Compiler, s: State, e: Event) {
    match e
    case Change(env) => GoodEnv(w, env) && SameStore(w, s.env, env)
    case Compile(req, _, _, inputs, _, _, _) => Reports(w, cc, s, e) && Watched(w, s.env, req.src, inputs)
  }

  /** A compile in the current environment that tells what it looked at. */
  ghost predicate Reports(w: World, cc: Compiler, s: State, e: Event)
    requires e.Compile?
  {
    && GoodRequest(e.req) && Current(e.req, s.env) && Compiles(cc, e.req, s.env, e.tr, e.res) && e.res.status < 256
    && Observed(e.tr, e.inputs, e.absent) && AllPlain(w, e.inputs) && AllPlain(w, e.absent)
  }

  /** Any part of the puts may fail to arrive. */
  function Next(w: World, s: State, e: Event): State {
    match e
    case Change(env) => s.(env := env)
    case Compile(_, _, _, _, _, wants, sent) =>
      var puts := Puts(w, FactOf(w, s.env, e), wants);
      s.(stored := s.stored + (set i | i in sent && i < |puts| :: puts[i]))
  }

  // ---------------------------------------------------------------- lookup

  datatype Hit = Hit(status: int, obj: Option<string>, depfile: Option<string>, stderr: string)

  /** What the daemon answered to the gets of a lookup. */
  datatype Answers = Answers(manifest: Option<string>, status: Option<string>, obj: Option<string>,
                             depfile: Option<string>, stderr: Option<string>)

  function StatusOf(a: Answers): int {
    if a.status.None? then 0
    else
      var n := ParseUint(a.status.value);
      if n.Some? then AsInt(n.value) else 1
  }

  function Lookup(w: World, env: Env, req: Request, wants: bool, a: Answers): Option<Hit> {
    if a.manifest.None? || !Validated(w, env, RequestKey(w, req), a.manifest.value).Fresh? then None
    else if StatusOf(a) != 0 then Some(Hit(StatusOf(a), None, None, StderrOf(a)))
    else if a.obj.None? || (wants && a.depfile.None?) then None
    else Some(Hit(0, a.obj, if wants then a.depfile else None, StderrOf(a)))
  }

  /** A lost message is replayed as none. */
  function StderrOf(a: Answers): string {
    if a.stderr.Some? then a.stderr.value else ""
  }

  /** Anything ever put under the slot, or a miss. */
  ghost predicate MayAnswer(stored: set<Stored>, slot: string, a: Option<string>) {
    a.Some? ==> exists s :: s in stored && s.slot == slot && s.value == a.value
  }

  ghost predicate Answered(w: World, s: State, req: Request, a: Answers) {
    && MayAnswer(s.stored, ManifestSlot(RequestKey(w, req)), a.manifest)
    && (a.manifest.Some? && Validated(w, s.env, RequestKey(w, req), a.manifest.value).Fresh? ==>
          var k2 := Validated(w, s.env, RequestKey(w, req), a.manifest.value).key;
          && MayAnswer(s.stored, StatusSlot(k2), a.status)
          && MayAnswer(s.stored, ObjectSlot(k2), a.obj)
          && MayAnswer(s.stored, DepfileSlot(k2), a.depfile)
          && MayAnswer(s.stored, StderrSlot(k2), a.stderr))
  }

  // ---------------------------------------------------------------- what every stored value means

  /** Wherever the lines hold, compiling the request gives this result. */
  ghost predicate Justified(w: World, cc: Compiler, base: Env, f: Fact) {
    && GoodRequest(f.req) && f.res.status < 256
    && (Whole(f.lines) ==>
          forall env ::
            Current(f.req, env) && GoodEnv(w, env) && SameStore(w, base, env) && AllHold(w, env, f.lines) ==>
            Compiles(cc, f.req, env, f.tr, f.res))
  }

  predicate IsPut(w: World, s: Stored) {
    var k1 := RequestKey(w, s.fact.req);
    var k2 := ResultKey(w, k1, s.fact.lines);
    || (s.slot == ManifestSlot(k1) && s.value == Text(s.fact.lines))
    || (s.fact.res.status != 0 && s.slot == StatusSlot(k2) && s.value == Digits(s.fact.res.status))
    || (s.fact.res.status == 0 && s.slot == ObjectSlot(k2) && s.value == s.fact.res.obj)
    || (s.fact.res.status == 0 && s.slot == DepfileSlot(k2) && s.value == s.fact.res.depfile)
    || (s.slot == StderrSlot(k2) && s.value == s.fact.res.stderr)
  }

  ghost predicate Inv(w: World, cc: Compiler, base: Env, s: State) {
    && GoodEnv(w, s.env) && SameStore(w, base, s.env)
    && forall x :: x in s.stored ==> IsPut(w, x) && Justified(w, cc, base, x.fact)
  }

  lemma SameStoreChain(w: World, a: Env, b: Env, c: Env)
    requires SameStore(w, a, b) && SameStore(w, b, c)
    ensures SameStore(w, a, c) && SameStore(w, b, a)
  {
    forall p | IsStorePath(w, p)
      ensures Look(a, p) == Look(c, p)
    {
      assert Look(a, p) == Look(b, p);
    }
  }

  lemma CompileJustified(w: World, cc: Compiler, base: Env, s: State, e: Event)
    requires GoodWorld(w) && GoodEnv(w, s.env) && SameStore(w, base, s.env) && e.Compile? && Can(w, cc, s, e)
    ensures Justified(w, cc, base, FactOf(w, s.env, e))
  {
    hide GoodWorld, GoodEnv, SameStore, AllHold, Compiles, Current, Observed, AllPlain, Watched, Lines, Whole;
    var f := FactOf(w, s.env, e);
    forall env | Whole(f.lines) && Current(f.req, env) && GoodEnv(w, env) && SameStore(w, base, env)
      && AllHold(w, env, f.lines)
      ensures Compiles(cc, f.req, env, f.tr, f.res)
    {
      SameStoreSelf(w, s.env);
      SameStoreChain(w, base, s.env, s.env);
      SameStoreChain(w, s.env, base, env);
      LinesJustify(w, cc, e.req, s.env, env, e.tr, e.res, e.inputs, e.absent);
    }
  }

  lemma SameStoreSelf(w: World, a: Env)
    ensures SameStore(w, a, a)
  {
  }

  lemma StepKeepsInv(w: World, cc: Compiler, base: Env, s: State, e: Event)
    requires GoodWorld(w) && Inv(w, cc, base, s) && Can(w, cc, s, e)
    ensures Inv(w, cc, base, Next(w, s, e))
  {
    hide GoodWorld, GoodEnv, SameStore, Justified;
    if e.Change? {
      SameStoreChain(w, base, s.env, e.env);
    } else {
      CompileJustified(w, cc, base, s, e);
      forall x | x in Next(w, s, e).stored && x !in s.stored
        ensures IsPut(w, x) && Justified(w, cc, base, x.fact)
      {
        PutsArePuts(w, FactOf(w, s.env, e), e.wants, x);
      }
    }
  }

  lemma PutsArePuts(w: World, f: Fact, wants: bool, x: Stored)
    requires x in Puts(w, f, wants)
    ensures IsPut(w, x) && x.fact == f
  {
  }

  // ---------------------------------------------------------------- soundness

  /** A value found under a result key comes from a compile of this request that saw these lines. */
  lemma StoredUnder(w: World, cc: Compiler, base: Env, s: State, req: Request, lines: seq<string>, x: Stored)
    requires GoodWorld(w) && Inv(w, cc, base, s) && GoodRequest(req) && Current(req, s.env) && x in s.stored
    requires Whole(lines) && AllHold(w, s.env, lines)
    requires var k2 := ResultKey(w, RequestKey(w, req), lines);
             x.slot == StatusSlot(k2) || x.slot == ObjectSlot(k2) || x.slot == DepfileSlot(k2)
               || x.slot == StderrSlot(k2)
    ensures x.fact.req == req && x.fact.res.status < 256
    ensures Compiles(cc, req, s.env, x.fact.tr, x.fact.res)
    ensures x.slot == StatusSlot(ResultKey(w, RequestKey(w, req), lines)) ==>
              x.fact.res.status != 0 && x.value == Digits(x.fact.res.status)
    ensures x.slot == ObjectSlot(ResultKey(w, RequestKey(w, req), lines)) ==>
              x.fact.res.status == 0 && x.value == x.fact.res.obj
    ensures x.slot == DepfileSlot(ResultKey(w, RequestKey(w, req), lines)) ==>
              x.fact.res.status == 0 && x.value == x.fact.res.depfile
    ensures x.slot == StderrSlot(ResultKey(w, RequestKey(w, req), lines)) ==> x.value == x.fact.res.stderr
  {
    hide GoodWorld, GoodEnv, SameStore, AllHold, Compiles, Current, ResultKey, RequestKey, StatusSlot, ObjectSlot,
         DepfileSlot, StderrSlot, ManifestSlot, GoodRequest;
    var k1, j1 := RequestKey(w, req), RequestKey(w, x.fact.req);
    var k2, j2 := ResultKey(w, k1, lines), ResultKey(w, j1, x.fact.lines);
    assert IsPut(w, x) && Justified(w, cc, base, x.fact);
    SlotsApart(k2, j2);
    SlotsApart(k2, j1);
    SlotsApart(j2, k2);
    assert j2 == k2;
    ResultKeyInjective(w, k1, lines, j1, x.fact.lines);
    RequestKeyInjective(w, req, x.fact.req);
  }

  /** What a hit promises: the exit status, for a success the object and the depfile asked for, and the
      messages, unless they alone were lost. */
  ghost predicate Replays(h: Hit, wants: bool, a: Answers, res: Result) {
    && h.status == res.status
    && h.stderr == (if a.stderr.Some? then res.stderr else "")
    && (res.status == 0 ==> h.obj == Some(res.obj) && (wants ==> h.depfile == Some(res.depfile)))
  }

  /** A hit is what a real compile gives in the current environment. */
  lemma HitIsCompile(w: World, cc: Compiler, base: Env, s: State, req: Request, wants: bool, a: Answers)
    returns (tr: seq<Seen>, res: Result)
    requires GoodWorld(w) && Inv(w, cc, base, s) && GoodRequest(req) && Current(req, s.env) && Answered(w, s, req, a)
    requires Lookup(w, s.env, req, wants, a).Some?
    ensures Compiles(cc, req, s.env, tr, res) && Replays(Lookup(w, s.env, req, wants, a).value, wants, a, res)
  {
    hide GoodWorld, Inv, Current, Validated, ResultKey, RequestKey, StatusSlot, ObjectSlot, DepfileSlot, StderrSlot,
         ManifestSlot, AllHold, Compiles, ParseUint, AsInt, Digits, GoodRequest;
    var k1 := RequestKey(w, req);
    var lines := Entries(Split(a.manifest.value, '\n'));
    ValidatedIff(w, s.env, k1, a.manifest.value);
    var k2 := ResultKey(w, k1, lines);
    if a.status.Some? {
      var x :| x in s.stored && x.slot == StatusSlot(k2) && x.value == a.status.value;
      StoredUnder(w, cc, base, s, req, lines, x);
      StatusRoundTrip(x.fact.res.status);
      tr, res := x.fact.tr, x.fact.res;
    } else {
      var x :| x in s.stored && x.slot == ObjectSlot(k2) && x.value == a.obj.value;
      StoredUnder(w, cc, base, s, req, lines, x);
      tr, res := x.fact.tr, x.fact.res;
      if wants {
        var y :| y in s.stored && y.slot == DepfileSlot(k2) && y.value == a.depfile.value;
        StoredUnder(w, cc, base, s, req, lines, y);
        Deterministic(cc, req, s.env, tr, res, y.fact.tr, y.fact.res);
      }
    }
    if a.stderr.Some? {
      var z :| z in s.stored && z.slot == StderrSlot(k2) && z.value == a.stderr.value;
      StoredUnder(w, cc, base, s, req, lines, z);
      Deterministic(cc, req, s.env, tr, res, z.fact.tr, z.fact.res);
    }
  }

  /** What the daemon answers when everything one compile stored is still there. */
  function Stocked(f: Fact, wants: bool): Answers {
    Answers(Some(Text(f.lines)), if f.res.status != 0 then Some(Digits(f.res.status)) else None,
            if f.res.status == 0 then Some(f.res.obj) else None,
            if f.res.status == 0 && wants then Some(f.res.depfile) else None, Some(f.res.stderr))
  }

  /** Nothing changed and nothing lost: the lookup hits and replays the compile, under exactly the
      conditions on paths of RoundTripIff. */
  lemma WarmHit(w: World, env: Env, req: Request, tr: seq<Seen>, res: Result, inputs: seq<string>,
                absent: seq<string>, wants: bool)
    requires GoodWorld(w) && GoodEnv(w, env) && AllPlain(w, absent) && res.status < 256
    requires forall p :: p in inputs && Listed(w, env, req.src, p) ==>
             '\n' !in InputLine(w, env, p) && Lasting(w, env, p)
    requires forall p :: p in absent && Noted(w, env, p) ==> '\n' !in w.key(p)
    ensures var a := Stocked(Fact(req, Lines(w, env, req.src, inputs, absent), tr, res), wants);
            Lookup(w, env, req, wants, a).Some? && Replays(Lookup(w, env, req, wants, a).value, wants, a, res)
  {
    hide Validated, Text, ParseUint, AsInt, Digits, RequestKey, ResultKey, Lines;
    RoundTripIff(w, env, RequestKey(w, req), req.src, inputs, absent);
    StatusRoundTrip(res.status);
  }

  ghost predicate Feasible(w: World, cc: Compiler, s: State, es: seq<Event>)
    decreases |es|
  {
    es == [] || (Can(w, cc, s, es[0]) && Feasible(w, cc, Next(w, s, es[0]), es[1..]))
  }

  function Run(w: World, s: State, es: seq<Event>): State
    decreases |es|
  {
    if es == [] then s else Run(w, Next(w, s, es[0]), es[1..])
  }

  lemma {:induction false} RunKeepsInv(w: World, cc: Compiler, base: Env, s: State, es: seq<Event>)
    requires GoodWorld(w) && Inv(w, cc, base, s) && Feasible(w, cc, s, es)
    ensures Inv(w, cc, base, Run(w, s, es))
    decreases |es|
  {
    hide GoodWorld, Inv, Can;
    if es != [] {
      StepKeepsInv(w, cc, base, s, es[0]);
      RunKeepsInv(w, cc, base, Next(w, s, es[0]), es[1..]);
    }
  }

  /** Cache soundness: after any run of compiles storing any part of what they learned, environment
      changes and losses, whatever a lookup finds usable is exactly what compiling now would give. */
  lemma CacheSound(w: World, cc: Compiler, base: Env, es: seq<Event>, req: Request, wants: bool, a: Answers)
    returns (tr: seq<Seen>, res: Result)
    requires GoodWorld(w) && GoodEnv(w, base) && Feasible(w, cc, State(base, {}), es)
    requires var s := Run(w, State(base, {}), es);
             && GoodRequest(req) && Current(req, s.env) && Answered(w, s, req, a)
             && Lookup(w, s.env, req, wants, a).Some?
    ensures var s := Run(w, State(base, {}), es);
            Compiles(cc, req, s.env, tr, res) && Replays(Lookup(w, s.env, req, wants, a).value, wants, a, res)
  {
    hide GoodWorld, GoodEnv, SameStore, Feasible, Run, Answered, Lookup, Current, GoodRequest, Compiles, Replays;
    SameStoreSelf(w, base);
    RunKeepsInv(w, cc, base, State(base, {}), es);
    tr, res := HitIsCompile(w, cc, base, Run(w, State(base, {}), es), req, wants, a);
  }

  // ---------------------------------------------------------------- inputs nothing watches

  /** A compiler whose object is the contents of one file. */
  function Copier(p: string): Compiler {
    (req: Request, tr: seq<Seen>) =>
      if tr == [] then Ask(p)
      else if tr[0].saw.Some? then Finish(Result(0, tr[0].saw.value, "", ""))
      else Finish(Result(1, "", "", ""))
  }

  lemma Copies(req: Request, env: Env, p: string)
    requires p in env
    ensures Compiles(Copier(p), req, env, [Seen(p, Some(env[p]))], Result(0, env[p], "", ""))
  {
    var tr := [Seen(p, Some(env[p]))];
    assert tr[..0] == [];
  }

  lemma OneLine(w: World, env: Env, src: string, p: string)
    requires p != src && InputId(w, env, p).Some?
    ensures Lines(w, env, src, [p], []) == [InputLine(w, env, p)]
  {
    assert [p][..0] == [];
    assert InputLines(w, env, src, [p]) == InputLines(w, env, src, []) + [InputLine(w, env, p)];
    assert AbsentLines(w, env, []) == [];
  }

  /** An input that has changed between two environments: the manifest of a compile that listed it still
      leads to that compile's result if and only if its key starts with "!", no newline tears its line,
      and what the line is read as is absent. */
  lemma ChangedInputIff(w: World, k1: string, src: string, a: Env, b: Env, p: string)
    requires GoodWorld(w) && GoodEnv(w, a) && GoodEnv(w, b) && SameStore(w, a, b)
    requires w.plain(p) && p != src && p in a && Look(b, p) != Look(a, p)
    ensures Validated(w, b, k1, Text(Lines(w, a, src, [p], []))) == Fresh(ResultKey(w, k1, Lines(w, a, src, [p], [])))
       <==> && Bang(w.key(p)) && '\n' !in InputLine(w, a, p)
            && Target(w, InputLine(w, a, p)[1..]) !in b
  {
    hide Validated, Text, ResultKey, GoodWorld, Lines;
    var lines, l := Lines(w, a, src, [p], []), InputLine(w, a, p);
    OneLine(w, a, src, p);
    LinesKept(w, a, src, [p], []);
    assert l in lines;
    ValidatesIff(w, b, k1, lines);
    if Bang(w.key(p)) {
      assert Bang(l);
    } else if Holds(w, b, l) {
      InputStays(w, a, b, p);
    }
  }

  /** So there is a run, allowed but for such an input, after which a result is replayed that compiling would
      not give: for every plain path outside the store with a "!" key and an untorn line, and every way it
      may change. */
  lemma BangReplaysStale(w: World, req: Request, a: Env, b: Env, p: string)
    requires GoodWorld(w) && GoodEnv(w, a) && GoodEnv(w, b) && SameStore(w, a, b) && GoodRequest(req)
    requires Current(req, a) && Current(req, b) && w.plain(p) && p in a && p in b && a[p] != b[p] && p != req.src
    requires Bang(w.key(p)) && '\n' !in InputLine(w, a, p) && Target(w, InputLine(w, a, p)[1..]) !in b
    ensures var e := Compile(req, [Seen(p, Some(a[p]))], Result(0, a[p], "", ""), [p], [], false, {0, 1});
            var s := Next(w, State(a, {}), e);
            var t := Next(w, s, Change(b));
            var got := Answers(Some(Text(Lines(w, a, req.src, [p], []))), None, Some(a[p]), None, None);
            && Reports(w, Copier(p), State(a, {}), e) && Can(w, Copier(p), s, Change(b))
            && !Watched(w, a, req.src, [p])
            && Answered(w, t, req, got)
            && Lookup(w, t.env, req, false, got) == Some(Hit(0, Some(a[p]), None, ""))
            && Compiles(Copier(p), req, t.env, [Seen(p, Some(b[p]))], Result(0, b[p], "", ""))
  {
    hide RequestKey, ResultKey, Text, GoodWorld, Validated, Compiles, GoodEnv, Lines;
    var e := Compile(req, [Seen(p, Some(a[p]))], Result(0, a[p], "", ""), [p], [], false, {0, 1});
    ChangedInputIff(w, RequestKey(w, req), req.src, a, b, p);
    Copies(req, a, p);
    Copies(req, b, p);
    var puts := Puts(w, FactOf(w, a, e), false);
    assert puts[0] in Next(w, State(a, {}), e).stored;
    assert puts[1] in Next(w, State(a, {}), e).stored;
    assert Listed(w, a, req.src, p);
  }
}

/** The client's end of the daemon's socket (cache_client.cc): replies are lines, a value follows its
    line as that many raw bytes, and read(2) may cut the stream anywhere. */
module Wire {
  import opened Options
  import opened Decimal
  import opened Texts

  const MAX_OBJECT: nat := 0x8000_0000

  // ---------------------------------------------------------------- what the daemon writes

  datatype Reply = Miss | Value(data: string)

  function Encode(r: Reply): string {
    match r
    case Miss => "MISS\n"
    case Value(data) => "OK " + Digits(|data|) + "\n" + data
  }

  function EncodeAll(rs: seq<Reply>): string
    decreases |rs|
  {
    if rs == [] then "" else Encode(rs[0]) + EncodeAll(rs[1..])
  }

  predicate Sendable(r: Reply) {
    r.Value? ==> |r.data| <= MAX_OBJECT
  }

  /** What a reply is to the client; `decode` undoes the compression and may refuse. */
  function Meaning(decode: string -> Option<string>, r: Reply): Option<string> {
    if r.Miss? then None else decode(r.data)
  }

  function Flat(chunks: seq<string>): string
    decreases |chunks|
  {
    if chunks == [] then "" else chunks[0] + Flat(chunks[1..])
  }

  /** A connection: what has been read and not used, and what the reads to come will return. */
  class Connection {
    var pending: string
    var chunks: seq<string>
    var open: bool

    /** All that can still be read. */
    ghost function Stream(): string
      reads this
    {
      pending + Flat(chunks)
    }

    /** Nothing more will come, and no line is complete. */
    ghost predicate Dead()
      reads this
    {
      chunks == [] && '\n' !in pending
    }

    /** Read on. Nothing but what was pending is gone from the stream, and a connection that can be
        read on gets closer to its end; otherwise all there is, is pending already. */
    method Fill() returns (ok: bool)
      modifies `pending, `chunks
      ensures ok ==> old(Stream()) == old(pending) + Stream() && |chunks| < |old(chunks)|
      ensures !ok ==> Stream() == old(Stream()) == pending == old(pending) && chunks == []
    {
      ok := chunks != [];
      if ok {
        pending, chunks := chunks[0], chunks[1..];
      }
    }

    /** The next line, whole, wherever the reads were cut. */
    method RecvLine() returns (line: Option<string>)
      modifies `pending, `chunks
      ensures Find(old(Stream()), '\n') < |old(Stream())| ==>
                && line == Some(old(Stream())[..Find(old(Stream()), '\n')])
                && Stream() == old(Stream())[Find(old(Stream()), '\n') + 1..]
      ensures Find(old(Stream()), '\n') == |old(Stream())| ==> line.None? && Dead()
    {
      hide Find, Flat;
      var sofar := "";
      ghost var s := Stream();
      while true
        invariant '\n' !in sofar && sofar + Stream() == s
        decreases |chunks|
      {
        var n := Find(pending, '\n');
        if n < |pending| {
          LineFound(sofar, pending, Flat(chunks), n);
          line := Some(sofar + pending[..n]);
          pending := pending[n + 1..];
          return;
        }
        LineGoesOn(sofar, pending, chunks);
        sofar := sofar + pending;
        var ok := Fill();
        if !ok {
          line := None;
          NoMore(s, sofar);
          return;
        }
      }
    }

    /** Exactly that many bytes, or nothing if the stream ends first. */
    method RecvExactly(count: nat) returns (out: Option<string>)
      modifies `pending, `chunks
      ensures count <= |old(Stream())| ==> out == Some(old(Stream())[..count]) && Stream() == old(Stream())[count..]
      ensures count > |old(Stream())| ==> out.None? && Dead()
    {
      hide Flat;
      ghost var s := Stream();
      var got := "";
      while |got| < count
        invariant |got| <= count && got + Stream() == s
        decreases |chunks|, count - |got|
      {
        if pending == "" {
          Refill(chunks);
          var ok := Fill();
          if !ok {
            return None;
          }
        }
        var take := if |pending| < count - |got| then |pending| else count - |got|;
        Taken(got, pending, Flat(chunks), take);
        got := got + pending[..take];
        pending := pending[take..];
      }
      assert s[..count] == got && s[count..] == Stream();
      out := Some(got);
    }

    /** The reply to one GET. A length the client does not believe ends the connection. */
    method RecvValue(decode: string -> Option<string>) returns (value: Option<string>)
      modifies this
      ensures match OutcomeOf(old(Stream()))
              case Ends => value.None? && Dead() && open == old(open)
              case Skip(n) => value.None? && n <= |old(Stream())| && Stream() == old(Stream())[n..] && open == old(open)
              case Take(a, b) => a <= b <= |old(Stream())| && value == decode(old(Stream())[a..b]) &&
                                 Stream() == old(Stream())[b..] && open == old(open)
              case Drop => value.None? && !open
    {
      hide Find, ParseUint, Flat;
      ghost var s, n := Stream(), Find(Stream(), '\n');
      var line := RecvLine();
      if line.None? || !("OK " <= line.value) {
        return None;
      }
      assert line.value[3..] == s[3..n];
      var len := ParseUint(line.value[3..]);
      if len.None? || len.value > MAX_OBJECT {
        open, chunks := false, [];  // dropped: no further read returns anything
        return None;
      }
      ghost var t := Stream();
      assert len.value <= |t| ==>
             t[..len.value] == s[n + 1..n + 1 + len.value] && t[len.value..] == s[n + 1 + len.value..];
      var wire := RecvExactly(len.value);
      value := if wire.Some? then decode(wire.value) else None;
    }

    /** The replies to n pipelined GETs. If the daemon's replies are what comes, the i-th value is the
        i-th reply, misses and undecodable values in their places; if the stream stops early, a value is
        still the right one or missing. */
    method GetMany(n: nat, decode: string -> Option<string>, ghost rs: seq<Reply>) returns (values: seq<Option<string>>)
      requires |rs| == n && AllSendable(rs)
      modifies this
      ensures |values| == n
      ensures !old(open) ==> forall i :: 0 <= i < n ==> values[i].None?
      ensures old(open) && EncodeAll(rs) <= old(Stream()) ==>
                values == Meanings(decode, rs) && Stream() == old(Stream())[|EncodeAll(rs)|..] && open
      ensures old(Stream()) <= EncodeAll(rs) ==> forall i :: 0 <= i < n ==>
              values[i].None? || values[i] == Meaning(decode, rs[i])
    {
      hide Encode, EncodeAll, Meaning, Flat, OutcomeOf;
      values := [];
      if !open {
        values := seq(n, _ => None);
        return;
      }
      ghost var s := Stream();
      ghost var whole, cut := EncodeAll(rs) <= s, s <= EncodeAll(rs);
      assert rs[0..] == rs;
      while |values| < n
        invariant |values| <= n
        invariant whole ==> values == Meanings(decode, rs)[..|values|] && EncodeAll(rs[|values|..]) <= Stream() && open
        invariant whole ==> Stream()[|EncodeAll(rs[|values|..])|..] == s[|EncodeAll(rs)|..]
        invariant cut ==> Dead() || Stream() <= EncodeAll(rs[|values|..])
        invariant cut ==> forall i :: 0 <= i < |values| ==> values[i].None? || values[i] == Meaning(decode, rs[i])
        decreases n - |values|
      {
        ghost var k, now := |values|, Stream();
        NextReply(rs, k);
        CutOrWhole(now, Encode(rs[k]), EncodeAll(rs[k + 1..]));
        Whole(now, rs[k], decode);
        Cut(now, rs[k]);
        DeadOutcome(pending, chunks);
        var value := RecvValue(decode);
        values := values + [value];
      }
      NoReplies(rs);
      assert Meanings(decode, rs)[..n] == Meanings(decode, rs);
    }

    /** The lines that answer IDS, one per path, or nothing if the stream stops early. */
    method Identities(n: nat, ghost ids: seq<string>) returns (lines: seq<string>)
      requires |ids| == n && forall i :: 0 <= i < n ==> '\n' !in ids[i]
      modifies `pending, `chunks
      ensures open && Text(ids) <= old(Stream()) ==> lines == ids && Stream() == old(Stream())[|Text(ids)|..]
      ensures !open || old(Stream()) < Text(ids) ==> lines == []
      ensures lines == [] || |lines| == n
    {
      hide Find, Text, Flat;
      lines := [];
      if !open {
        return;
      }
      ghost var s := Stream();
      ghost var whole, cut := Text(ids) <= s, s < Text(ids);
      assert ids[0..] == ids && ids[..0] == [];
      while |lines| < n
        invariant |lines| <= n
        invariant whole ==> lines == ids[..|lines|] && Text(ids[|lines|..]) <= Stream()
        invariant whole ==> Stream()[|Text(ids[|lines|..])|..] == s[|Text(ids)|..]
        invariant cut ==> Stream() < Text(ids[|lines|..])
        decreases n - |lines|
      {
        ghost var k := |lines|;
        if whole {
          NextLine(Stream(), ids, k);
        }
        if cut {
          NextCut(Stream(), ids, k);
        }
        var line := RecvLine();
        if line.None? {
          return [];
        }
        lines := lines + [line.value];
      }
      NoLines(ids);
      assert ids[..n] == ids;
    }
  }

  lemma NextLine(s: string, ids: seq<string>, k: nat)
    requires k < |ids| && '\n' !in ids[k] && Text(ids[k..]) <= s
    ensures Find(s, '\n') == |ids[k]| < |s| && s[..|ids[k]|] == ids[k]
    ensures var t := s[|ids[k]| + 1..];
            Text(ids[k + 1..]) <= t && t[|Text(ids[k + 1..])|..] == s[|Text(ids[k..])|..]
  {
    LinesStep(ids, k);
    hide Find, Text;
    LineThen(s, ids[k], Text(ids[k + 1..]));
  }

  /** A stream that stops inside the lines to come has no whole line, or the next one and stops behind it. */
  lemma NextCut(s: string, ids: seq<string>, k: nat)
    requires k < |ids| && '\n' !in ids[k] && s < Text(ids[k..])
    ensures Find(s, '\n') < |s| ==> s[Find(s, '\n') + 1..] < Text(ids[k + 1..])
  {
    LinesStep(ids, k);
    hide Find, Text;
    if |s| <= |ids[k]| {
      NoLineYet(s, ids[k], "\n" + Text(ids[k + 1..]));
    } else {
      LineThenCut(s, ids[k], Text(ids[k + 1..]));
    }
  }

  lemma NoLineYet(s: string, line: string, more: string)
    requires '\n' !in line && |s| <= |line| && s <= line + more
    ensures Find(s, '\n') == |s|
  {
    hide Find;
    assert s == line[..|s|];
    FindAfter(s, '\n', "");
    assert s + "" == s;
  }

  lemma LineThenCut(s: string, line: string, more: string)
    requires '\n' !in line && |line| < |s| && s < line + "\n" + more
    ensures Find(s, '\n') == |line| && s[|line| + 1..] < more
  {
    hide Find;
    var head, t := line + "\n", s[|line| + 1..];
    assert head == (head + more)[..|head|] == s[..|head|];
    Split(s, head);
    FindEnd(line, '\n', t);
    assert t == (head + more)[|head|..|s|] == more[..|t|];
  }

  lemma LinesStep(ids: seq<string>, k: nat)
    requires k < |ids|
    ensures Text(ids[k..]) == ids[k] + "\n" + Text(ids[k + 1..])
  {
    assert ids[k..][1..] == ids[k + 1..];
  }

  /** A line, its newline and what follows it. */
  lemma LineThen(s: string, line: string, more: string)
    requires '\n' !in line && line + "\n" + more <= s
    ensures Find(s, '\n') == |line| < |s| && s[..|line|] == line
    ensures var t := s[|line| + 1..];
            more <= t && t[|more|..] == s[|line + "\n" + more|..]
  {
    hide Find;
    var head, rest := line + "\n", s[|line + "\n" + more|..];
    Split(s, head + more);
    Assoc(head, more, rest);
    FindEnd(line, '\n', more + rest);
    Behind(head, more + rest);
    Behind(more, rest);
    assert head[..|line|] == line;
  }

  lemma Split(s: string, a: string)
    requires a <= s
    ensures s == a + s[|a|..]
  {
  }

  lemma Assoc(a: string, b: string, c: string)
    ensures a + b + c == a + (b + c)
  {
  }

  lemma Behind(a: string, b: string)
    ensures a <= a + b && (a + b)[|a|..] == b
  {
  }

  lemma NoLines(ids: seq<string>)
    ensures Text(ids[|ids|..]) == ""
  {
  }

  lemma NoReplies(rs: seq<Reply>)
    ensures EncodeAll(rs[|rs|..]) == ""
  {
  }

  ghost predicate AllSendable(rs: seq<Reply>) {
    forall i :: 0 <= i < |rs| ==> Sendable(rs[i])
  }

  function Meanings(decode: string -> Option<string>, rs: seq<Reply>): (vs: seq<Option<string>>)
    ensures |vs| == |rs| && forall i :: 0 <= i < |rs| ==> vs[i] == Meaning(decode, rs[i])
  {
    seq(|rs|, i requires 0 <= i < |rs| => Meaning(decode, rs[i]))
  }

  lemma NextReply(rs: seq<Reply>, k: nat)
    requires k < |rs|
    ensures EncodeAll(rs[k..]) == Encode(rs[k]) + EncodeAll(rs[k + 1..])
  {
    assert rs[k..][1..] == rs[k + 1..];
  }

  /** A stream that holds all replies holds the next one; a stream cut somewhere holds it or stops
      inside it. */
  lemma CutOrWhole(s: string, e: string, more: string)
    ensures e + more <= s ==> e <= s && more <= s[|e|..] && s[|e|..][|more|..] == s[|e + more|..]
    ensures s <= e + more ==> (s <= e && |s| < |e|) || (e <= s && s[|e|..] <= more)
  {
    if e + more <= s {
      assert s == e + (more + s[|e + more|..]);
    }
    if s <= e + more {
      if |s| >= |e| {
        assert s[..|e|] == e;
        assert s[|e|..] == (e + more)[|e|..|s|];
      } else {
        assert s == e[..|s|];
      }
    }
  }

  function Head(r: Reply): string {
    if r.Miss? then "MISS" else "OK " + Digits(|r.data|)
  }

  function Body(r: Reply): string {
    if r.Miss? then "" else r.data
  }

  ghost predicate HeadRead(s: string, r: Reply) {
    Find(s, '\n') == |Head(r)| < |s| && s[..Find(s, '\n')] == Head(r)
  }

  lemma NoNewline(r: Reply)
    ensures '\n' !in Head(r) && Encode(r) == Head(r) + "\n" + Body(r)
  {
  }

  lemma LengthRead(r: Reply)
    requires Sendable(r) && r.Value?
    ensures ParseUint(Head(r)[3..]) == Some(|r.data|)
  {
    hide ParseUint, Digits;
    assert Head(r)[3..] == Digits(|r.data|);
    ParseDigits(|r.data|);
  }

  lemma HeadOf(s: string, r: Reply)
    requires Encode(r) <= s
    ensures HeadRead(s, r)
    ensures var t := s[Find(s, '\n') + 1..];
            Body(r) <= t && t[|Body(r)|..] == s[|Encode(r)|..]
  {
    NoNewline(r);
    hide Find, Digits, Head, Body, Encode;
    LineThen(s, Head(r), Body(r));
  }

  /** What one reply turns out to be: the stream ends first, a line and no value, a value, or a length
      not to be believed. */
  datatype Outcome = Ends | Skip(n: nat) | Take(a: nat, b: nat) | Drop

  function OutcomeOf(s: string): Outcome {
    var n := Find(s, '\n');
    if n == |s| then Ends
    else if !("OK " <= s[..n]) then Skip(n + 1)
    else
      var len := ParseUint(s[3..n]);
      if len.None? || len.value > MAX_OBJECT then Drop
      else if n + 1 + len.value <= |s| then Take(n + 1, n + 1 + len.value)
      else Ends
  }

  /** A whole reply is taken exactly. */
  lemma Whole(s: string, r: Reply, decode: string -> Option<string>)
    ensures Sendable(r) && Encode(r) <= s ==>
              match OutcomeOf(s)
              case Skip(n) => r.Miss? && n == |Encode(r)| && Meaning(decode, r) == None
              case Take(a, b) => r.Value? && a <= b == |Encode(r)| && s[a..b] == r.data
                && Meaning(decode, r) == decode(s[a..b])
              case _ => false
  {
    hide OutcomeOf, Encode;
    if Sendable(r) && Encode(r) <= s {
      if r.Miss? {
        WholeMiss(s);
      } else {
        WholeValue(s, r);
      }
    }
  }

  lemma WholeMiss(s: string)
    requires Encode(Miss) <= s
    ensures OutcomeOf(s) == Skip(|Encode(Miss)|)
  {
    hide Find, ParseUint, Digits;
    HeadOf(s, Miss);
    assert Head(Miss)[0] == 'M' && "OK "[0] == 'O';
  }

  lemma WholeValue(s: string, r: Reply)
    requires r.Value? && Sendable(r) && Encode(r) <= s
    ensures var n := |Encode(r)|;
            |r.data| <= n <= |s| && OutcomeOf(s) == Take(n - |r.data|, n) && s[n - |r.data|..n] == r.data
  {
    hide Find, ParseUint, Digits;
    HeadOf(s, r);
    NoNewline(r);
    LengthRead(r);
    var n := Find(s, '\n');
    assert s[3..n] == s[..n][3..];
    assert s[n + 1..n + 1 + |r.data|] == s[n + 1..][..|r.data|];
  }

  /** A reply that stops early is an end of the stream. */
  lemma Cut(s: string, r: Reply)
    ensures Sendable(r) && s <= Encode(r) && |s| < |Encode(r)| ==> OutcomeOf(s).Ends?
  {
    hide Find, ParseUint, Digits;
    if Sendable(r) && s <= Encode(r) && |s| < |Encode(r)| {
      HeadCut(s, r);
      if HeadRead(s, r) && r.Value? {
        LengthRead(r);
        assert s[3..Find(s, '\n')] == Head(r)[3..];
      }
    }
  }

  /** A reply cut short: no line yet, or the line and less than the value. */
  lemma HeadCut(s: string, r: Reply)
    requires s <= Encode(r) && |s| < |Encode(r)|
    ensures Find(s, '\n') == |s| || (HeadRead(s, r) && r.Value? && |s| - Find(s, '\n') - 1 < |r.data|)
  {
    NoNewline(r);
    hide Find, Digits, Head, Encode;
    var h := |Head(r)|;
    if |s| <= h {
      NoneIn(s, Head(r));
      NoMore(s, s);
    } else {
      assert s[..h] == Head(r);
      assert s == Head(r) + "\n" + s[h + 1..];
      FindEnd(Head(r), '\n', s[h + 1..]);
    }
  }

  lemma NoneIn(s: string, head: string)
    requires '\n' !in head && |s| <= |head| && s == head[..|s|]
    ensures '\n' !in s
  {
  }

  lemma DeadOutcome(pending: string, chunks: seq<string>)
    ensures chunks == [] && '\n' !in pending ==> OutcomeOf(pending + Flat(chunks)).Ends?
  {
    DeadEnds(pending, chunks);
  }

  lemma DeadEnds(pending: string, chunks: seq<string>)
    ensures chunks == [] && '\n' !in pending ==> Find(pending + Flat(chunks), '\n') == |pending + Flat(chunks)|
  {
    if chunks == [] && '\n' !in pending {
      assert pending + Flat(chunks) == pending;
      NoMore(pending, pending);
    }
  }

  lemma Refill(chunks: seq<string>)
    ensures chunks == [] ==> "" + Flat(chunks) == ""
    ensures chunks != [] ==> "" + Flat(chunks) == chunks[0] + Flat(chunks[1..])
  {
  }

  lemma Taken(got: string, pending: string, more: string, take: nat)
    requires take <= |pending|
    ensures got + pending[..take] + (pending[take..] + more) == got + (pending + more)
  {
    assert pending == pending[..take] + pending[take..];
  }

  /** The newline is in what was just read. */
  lemma LineFound(sofar: string, pending: string, more: string, n: nat)
    requires '\n' !in sofar && n == Find(pending, '\n') < |pending|
    ensures var s := sofar + (pending + more);
            && Find(s, '\n') == |sofar| + n < |s|
            && s[..Find(s, '\n')] == sofar + pending[..n]
            && s[Find(s, '\n') + 1..] == pending[n + 1..] + more
  {
    hide Find;
    var line, rest := sofar + pending[..n], pending[n + 1..] + more;
    FindEnd(line, '\n', rest);
    assert sofar + (pending + more) == line + "\n" + rest;
  }

  lemma LineGoesOn(sofar: string, pending: string, chunks: seq<string>)
    requires '\n' !in sofar && Find(pending, '\n') == |pending|
    ensures '\n' !in sofar + pending
    ensures chunks == [] ==> sofar + (pending + Flat(chunks)) == sofar + pending
    ensures chunks != [] ==> sofar + (pending + Flat(chunks)) == sofar + pending + (chunks[0] + Flat(chunks[1..]))
  {
    hide Find;
    assert pending[..Find(pending, '\n')] == pending;
  }

  lemma NoMore(s: string, sofar: string)
    requires '\n' !in sofar && s == sofar
    ensures Find(s, '\n') == |s|
  {
    FindAfter(sofar, '\n', "");
    assert sofar + "" == sofar;
  }
}

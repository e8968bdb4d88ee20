/** What the hasher is fed (base.cc): each field behind its length in decimal and a colon. The fields can
    be read off what was fed, whatever they contain. */
module HashFields {
  import opened Decimal

  function Field(s: string): string {
    Digits(|s|) + ":" + s
  }

  function Fields(fs: seq<string>): string
    decreases |fs|
  {
    if fs == [] then "" else Fields(fs[..|fs| - 1]) + Field(fs[|fs| - 1])
  }

  /** The state of a running hash is everything it was fed: the encoding of the fields added so far. */
  class Hasher {
    var fed: string
    ghost var fields: seq<string>

    ghost predicate Valid()
      reads this
    {
      fed == Fields(fields)
    }

    constructor ()
      ensures Valid() && fields == []
    {
      fed, fields := "", [];
    }

    method Add(data: string)
      requires Valid()
      modifies this
      ensures Valid() && fields == old(fields) + [data]
    {
      FieldsAppend(fields, data);
      fed := fed + Digits(|data|) + ":" + data;
      fields := fields + [data];
    }
  }

  lemma FieldsAppend(fs: seq<string>, f: string)
    ensures Fields(fs + [f]) == Fields(fs) + Field(f)
  {
    assert (fs + [f])[..|fs|] == fs;
  }

  lemma {:induction false} FieldsFirst(f: string, fs: seq<string>)
    ensures Fields([f] + fs) == Field(f) + Fields(fs)
    decreases |fs|
  {
    if fs == [] {
      assert [f] + fs == [f];
      assert Fields([f]) == Fields([]) + Field(f);
    } else {
      var front := fs[..|fs| - 1];
      FieldsFirst(f, front);
      assert ([f] + fs)[..|fs|] == [f] + front;
      assert Field(f) + Fields(front) + Field(fs[|fs| - 1]) == Field(f) + (Fields(front) + Field(fs[|fs| - 1]));
    }
  }

  /** The first colon ends the length, and the length ends the field. */
  lemma FieldEnds(x: string, u: string, y: string, v: string)
    requires Field(x) + u == Field(y) + v
    ensures x == y && u == v
  {
    var a, b := Digits(|x|), Digits(|y|);
    var t := Field(x) + u;
    assert t == Field(y) + v;
    assert t[|a|] == ':' && t[|b|] == ':';
    assert forall i :: 0 <= i < |a| ==> t[i] == a[i];
    assert forall i :: 0 <= i < |b| ==> t[i] == b[i];
    assert |a| == |b|;
    assert a == t[..|a|] == b;
    DigitsValue(|x|);
    DigitsValue(|y|);
    var n := |a| + 1;
    assert x == t[n..n + |x|] && y == t[n..n + |y|];
    assert u == t[n + |x|..] && v == t[n + |y|..];
  }

  /** Different field sequences never feed the hasher the same text. */
  lemma {:induction false} FieldsInjective(fs: seq<string>, gs: seq<string>)
    requires Fields(fs) == Fields(gs)
    ensures fs == gs
    decreases |fs|
  {
    if fs == [] || gs == [] {
      FieldsEmpty(fs);
      FieldsEmpty(gs);
    } else {
      FieldsFirst(fs[0], fs[1..]);
      FieldsFirst(gs[0], gs[1..]);
      assert fs == [fs[0]] + fs[1..] && gs == [gs[0]] + gs[1..];
      FieldEnds(fs[0], Fields(fs[1..]), gs[0], Fields(gs[1..]));
      FieldsInjective(fs[1..], gs[1..]);
    }
  }

  lemma FieldsEmpty(fs: seq<string>)
    ensures Fields(fs) == "" <==> fs == []
  {
    if fs != [] {
      assert |Field(fs[|fs| - 1])| > 0;
    }
  }
}

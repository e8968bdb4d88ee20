/** Finding characters, and text made of lines. */
module Texts {
  /** Where c first is in s, |s| if nowhere. */
  function Find(s: string, c: char): (n: nat)
    ensures n <= |s| && c !in s[..n] && (n < |s| ==> s[n] == c)
  {
    if s == [] || s[0] == c then 0
    else
      var n := 1 + Find(s[1..], c);
      assert s[..n] == [s[0]] + s[1..][..n - 1];
      n
  }

  lemma {:induction false} FindEnd(l: string, c: char, rest: string)
    requires c !in l
    ensures Find(l + [c] + rest, c) == |l|
    decreases |l|
  {
    var t := l + [c] + rest;
    if l != [] {
      assert l[0] in l && forall x :: x in l[1..] ==> x in l;
      FindEnd(l[1..], c, rest);
      assert t[1..] == l[1..] + [c] + rest;
    }
  }

  lemma {:induction false} FindAfter(a: string, c: char, b: string)
    requires c !in a
    ensures Find(a + b, c) == |a| + Find(b, c)
    decreases |a|
  {
    if a == [] {
      assert a + b == b;
    } else {
      assert a[0] in a && forall x :: x in a[1..] ==> x in a;
      FindAfter(a[1..], c, b);
      assert (a + b)[1..] == a[1..] + b;
    }
  }

  lemma {:induction false} FoundBy(s: string, c: char, i: nat)
    requires i < |s| && s[i] == c
    ensures Find(s, c) <= i
  {
    if i > 0 {
      FoundBy(s[1..], c, i - 1);
    }
  }

  /** Every line ended by a newline. */
  function Text(lines: seq<string>): string
    decreases |lines|
  {
    if lines == [] then "" else lines[0] + "\n" + Text(lines[1..])
  }

  lemma NoText()
    ensures Text([]) == ""
  {
  }

  lemma {:induction false} TextAppend(lines: seq<string>, l: string)
    ensures Text(lines + [l]) == Text(lines) + l + "\n"
    decreases |lines|
  {
    if lines == [] {
      assert lines + [l] == [l];
      assert Text([l]) == l + "\n" + Text([]);
    } else {
      TextAppend(lines[1..], l);
      assert (lines + [l])[1..] == lines[1..] + [l];
      assert lines[0] + "\n" + (Text(lines[1..]) + l + "\n") == lines[0] + "\n" + Text(lines[1..]) + l + "\n";
    }
  }
}

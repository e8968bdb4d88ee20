/** The file name of a pack (`%06d.pack`), and how OpenStore reads the id back from it: six digits at
    most, then the literal rest. */
module PackNames {
  import opened Decimal
  import opened Options

  const WIDTH: nat := 6
  const ID_LIMIT: nat := 1_000_000

  function PackFile(id: nat): string {
    var s := Digits(id);
    (if |s| < WIDTH then seq(WIDTH - |s|, _ => '0') else []) + s + ".pack"
  }

  /** How many digits lead s, counting no further than w. */
  function Lead(s: string, w: nat): (n: nat)
    ensures n <= w && n <= |s| && forall i :: 0 <= i < n ==> IsDigit(s[i])
    decreases w
  {
    if w == 0 || s == [] || !IsDigit(s[0]) then 0 else 1 + Lead(s[1..], w - 1)
  }

  function ParseId(name: string): Option<nat> {
    var n := Lead(name, WIDTH);
    if n > 0 && ".pack" <= name[n..] then Some(Value(name[..n])) else None
  }

  lemma {:induction false} LeadIs(s: string, rest: string, w: nat)
    requires AllDigits(s) && (rest != [] ==> !IsDigit(rest[0]))
    ensures Lead(s + rest, w) == if |s| <= w then |s| else w
    decreases w
  {
    if w > 0 && s != [] {
      LeadIs(s[1..], rest, w - 1);
      assert (s + rest)[1..] == s[1..] + rest;
    } else if s == [] {
      assert s + rest == rest;
    }
  }

  /** A pack file is recognised again exactly while its id has six digits. */
  lemma NameRoundTrip(id: nat)
    ensures ParseId(PackFile(id)) == if id < ID_LIMIT then Some(id) else None
  {
    var s := Digits(id);
    var z := (if |s| < WIDTH then seq(WIDTH - |s|, _ => '0') else []) + s;
    assert PackFile(id) == z + ".pack";
    DigitsValue(id);
    DigitsLength(id, WIDTH);
    assert Pow10(WIDTH) == ID_LIMIT by {
      assert Pow10(3) == 1000;
      assert Pow10(6) == 10 * (10 * (10 * Pow10(3)));
    }
    if |s| < WIDTH {
      LeadingZeros(WIDTH - |s|, s);
    } else {
      assert z == s;
    }
    LeadIs(z, ".pack", WIDTH);
    if id < ID_LIMIT {
      assert (z + ".pack")[..WIDTH] == z && (z + ".pack")[WIDTH..] == ".pack";
    } else {
      assert (z + ".pack")[WIDTH..][0] == z[WIDTH];
    }
  }
}

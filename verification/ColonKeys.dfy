/** Keys built as "<anything>:<tail>": a tail without colons can be read back. */
module ColonKeys {

  function AfterLastColon(s: string): string {
    if s == "" || s[|s| - 1] == ':' then "" else AfterLastColon(s[..|s| - 1]) + [s[|s| - 1]]
  }

  lemma {:induction false} LastColon(a: string, x: string)
    requires ':' !in x
    ensures AfterLastColon(a + [':'] + x) == x
  {
    if x != "" {
      var n := |x| - 1;
      LastColon(a, x[..n]);
      assert (a + [':'] + x)[..|a| + 1 + n] == a + [':'] + x[..n];
      assert x == x[..n] + [x[n]];
    }
  }

  lemma ColonKeyInjective(a: string, x: string, b: string, y: string)
    requires ':' !in x && ':' !in y && a + [':'] + x == b + [':'] + y
    ensures a == b && x == y
  {
    LastColon(a, x);
    LastColon(b, y);
    var s := a + [':'] + x;
    assert |a| == |b|;
    assert a == s[..|a|] && b == (b + [':'] + y)[..|b|];
  }
}

/** Lists whose order does not matter: what filtering, mapping and adding up keep under reordering. */
module Sequences {

  function Map<T, U>(s: seq<T>, f: T -> U): (r: seq<U>)
    ensures |r| == |s| && forall i :: 0 <= i < |s| ==> r[i] == f(s[i])
  {
    seq(|s|, i requires 0 <= i < |s| => f(s[i]))
  }

  function Filter<T(!new)>(s: seq<T>, keep: T -> bool): (r: seq<T>)
    ensures forall x :: x in r <==> x in s && keep(x)
  {
    if s == [] then [] else (if keep(s[0]) then [s[0]] else []) + Filter(s[1..], keep)
  }

  function Sum<T>(s: seq<T>, size: T -> nat): nat {
    if s == [] then 0 else size(s[0]) + Sum(s[1..], size)
  }

  lemma {:induction false} SumAppend<T>(a: seq<T>, b: seq<T>, size: T -> nat)
    ensures Sum(a + b, size) == Sum(a, size) + Sum(b, size)
  {
    if a == [] {
      assert a + b == b;
    } else {
      assert (a + b)[1..] == a[1..] + b;
      SumAppend(a[1..], b, size);
    }
  }

  lemma {:induction false} FilterAppend<T(!new)>(a: seq<T>, b: seq<T>, keep: T -> bool)
    ensures Filter(a + b, keep) == Filter(a, keep) + Filter(b, keep)
  {
    if a == [] {
      assert a + b == b;
    } else {
      assert (a + b)[1..] == a[1..] + b;
      FilterAppend(a[1..], b, keep);
    }
  }

  lemma FilterOne<T(!new)>(x: T, keep: T -> bool)
    ensures Filter([x], keep) == if keep(x) then [x] else []
  {
    assert [x][1..] == [];
  }

  /** Where the first element of one ordering sits in the other. */
  lemma Locate<T>(a: seq<T>, b: seq<T>) returns (k: nat)
    requires multiset(a) == multiset(b) && a != []
    ensures k < |b| && b == b[..k] + [a[0]] + b[k + 1..]
    ensures multiset(a[1..]) == multiset(b[..k] + b[k + 1..])
  {
    assert a[0] in multiset(b);
    k :| 0 <= k < |b| && b[k] == a[0];
    assert b == b[..k] + [a[0]] + b[k + 1..];
    assert a == [a[0]] + a[1..];
    assert multiset(a[1..]) == multiset(a) - multiset{a[0]};
    assert multiset(b[..k] + b[k + 1..]) == multiset(b) - multiset{a[0]};
  }

  lemma MapAppend<T, U>(a: seq<T>, b: seq<T>, f: T -> U)
    ensures Map(a + b, f) == Map(a, f) + Map(b, f)
  {
  }

  lemma {:induction false} FilterPermutation<T(!new)>(a: seq<T>, b: seq<T>, keep: T -> bool)
    requires multiset(a) == multiset(b)
    ensures multiset(Filter(a, keep)) == multiset(Filter(b, keep))
  {
    if a == [] {
      assert b == [];
    } else {
      var k := Locate(a, b);
      FilterPermutation(a[1..], b[..k] + b[k + 1..], keep);
      FilterAppend(b[..k], b[k + 1..], keep);
      FilterAppend(b[..k] + [a[0]], b[k + 1..], keep);
      FilterAppend(b[..k], [a[0]], keep);
    }
  }

  lemma {:induction false} MapPermutation<T, U>(a: seq<T>, b: seq<T>, f: T -> U)
    requires multiset(a) == multiset(b)
    ensures multiset(Map(a, f)) == multiset(Map(b, f))
  {
    if a == [] {
      assert b == [];
    } else {
      var k := Locate(a, b);
      MapPermutation(a[1..], b[..k] + b[k + 1..], f);
      assert Map(a, f) == [f(a[0])] + Map(a[1..], f);
      assert Map([a[0]], f) == [f(a[0])];
      MapAppend(b[..k], b[k + 1..], f);
      MapAppend(b[..k] + [a[0]], b[k + 1..], f);
      MapAppend(b[..k], [a[0]], f);
    }
  }

  lemma {:induction false} SumPermutation<T>(a: seq<T>, b: seq<T>, size: T -> nat)
    requires multiset(a) == multiset(b)
    ensures Sum(a, size) == Sum(b, size)
  {
    if a == [] {
      assert b == [];
    } else {
      var k := Locate(a, b);
      SumPermutation(a[1..], b[..k] + b[k + 1..], size);
      SumAppend(b[..k], b[k + 1..], size);
      SumAppend(b[..k] + [a[0]], b[k + 1..], size);
      SumAppend(b[..k], [a[0]], size);
      assert Sum([a[0]], size) == size(a[0]) + Sum([], size);
    }
  }

  function SetOf<T>(s: seq<T>): set<T> {
    set x | x in s
  }

  lemma SetOfAppend<T>(a: seq<T>, b: seq<T>)
    ensures SetOf(a + b) == SetOf(a) + SetOf(b)
  {
  }

  /** separator.join(parts) */
  function Join(separator: string, parts: seq<string>): string {
    if parts == [] then "" else if |parts| == 1 then parts[0] else parts[0] + separator + Join(separator, parts[1..])
  }
}

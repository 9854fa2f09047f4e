/** str.encode("utf-8") */
module Utf8 {

  type Byte = x: int | 0 <= x < 256

  function EncodeChar(c: char): seq<Byte> {
    var n := c as int;
    if n < 0x80 then [n]
    else if n < 0x800 then [0xC0 + n / 64, 0x80 + n % 64]
    else if n < 0x10000 then [0xE0 + n / 4096, 0x80 + n / 64 % 64, 0x80 + n % 64]
    else [0xF0 + n / 262144, 0x80 + n / 4096 % 64, 0x80 + n / 64 % 64, 0x80 + n % 64]
  }

  function Encode(s: string): seq<Byte> {
    if s == "" then [] else EncodeChar(s[0]) + Encode(s[1..])
  }

  /** The first byte tells how long a character's code is. */
  function Width(b: Byte): nat {
    if b < 0x80 then 1 else if b < 0xE0 then 2 else if b < 0xF0 then 3 else 4
  }

  lemma CharWidth(c: char)
    ensures |EncodeChar(c)| == Width(EncodeChar(c)[0])
  {
  }

  lemma CharInjective(c: char, d: char)
    requires EncodeChar(c) == EncodeChar(d)
    ensures c == d
  {
    CharWidth(c);
    CharWidth(d);
    var x, y := EncodeChar(c), EncodeChar(d);
    assert forall i :: 0 <= i < |x| ==> x[i] == y[i];
    SixBits(c as int);
    SixBits(d as int);
  }

  lemma SixBits(n: nat)
    ensures n == n / 64 * 64 + n % 64
    ensures n == n / 4096 * 4096 + n / 64 % 64 * 64 + n % 64
    ensures n == n / 262144 * 262144 + n / 4096 % 64 * 4096 + n / 64 % 64 * 64 + n % 64
  {
    assert n / 4096 == n / 64 / 64;
    assert n / 262144 == n / 4096 / 64;
  }

  /** The bits a first byte leaves behind its marker, followed by six bits of each further byte. */
  function Bits(first: int, rest: seq<Byte>): int {
    if rest == [] then first else Bits(first, rest[..|rest| - 1]) * 64 + (rest[|rest| - 1] as int - 0x80)
  }

  /** The first byte lies between `marker` and `end`, `more` bytes between 0x80 and 0xBF follow, and the bits are
      those of the code point. */
  predicate IsCode(b: seq<Byte>, n: nat, marker: int, end: int, more: nat) {
    && |b| == more + 1 && marker <= b[0] < end && (forall i :: 1 <= i < |b| ==> 0x80 <= b[i] < 0xC0)
    && Bits(b[0] as int - marker, b[1..]) == n
  }

  /** The code of a character is the one of section 3 of RFC 3629. */
  lemma {:induction false} CodeExactly(c: char)
    ensures
      var n, b := c as int, EncodeChar(c);
      if n < 0x80 then IsCode(b, n, 0, 0x80, 0)
      else if n < 0x800 then IsCode(b, n, 0xC0, 0xE0, 1)
      else if n < 0x10000 then IsCode(b, n, 0xE0, 0xF0, 2)
      else IsCode(b, n, 0xF0, 0xF8, 3)
  {
    hide Bits;
    var n, b := c as int, EncodeChar(c);
    SixBits(n);
    if n < 0x80 {
      assert b[1..] == [];
      BitsUnfold(n, 0, 0, 0);
    } else if n < 0x800 {
      assert b[1..] == [b[1]];
      BitsUnfold(b[0] as int - 0xC0, b[1], 0, 0);
    } else if n < 0x10000 {
      assert b[1..] == [b[1], b[2]];
      BitsUnfold(b[0] as int - 0xE0, b[1], b[2], 0);
    } else {
      assert b[1..] == [b[1], b[2], b[3]];
      BitsUnfold(b[0] as int - 0xF0, b[1], b[2], b[3]);
    }
  }

  lemma BitsUnfold(first: int, x: Byte, y: Byte, z: Byte)
    ensures Bits(first, []) == first && Bits(first, [x]) == first * 64 + (x as int - 0x80)
    ensures Bits(first, [x, y]) == first * 4096 + (x as int - 0x80) * 64 + (y as int - 0x80)
    ensures Bits(first, [x, y, z]) ==
      first * 262144 + (x as int - 0x80) * 4096 + (y as int - 0x80) * 64 + (z as int - 0x80)
  {
    assert [x][..0] == [] && [x, y][..1] == [x] && [x, y, z][..2] == [x, y];
  }

  lemma {:induction false} EncodeInjective(s: string, t: string)
    requires Encode(s) == Encode(t)
    ensures s == t
  {
    if s != "" && t != "" {
      CharWidth(s[0]);
      CharWidth(t[0]);
      var x, y := EncodeChar(s[0]), EncodeChar(t[0]);
      assert Encode(s)[0] == x[0] && Encode(t)[0] == y[0];
      assert x == Encode(s)[..|x|] && y == Encode(t)[..|x|];
      CharInjective(s[0], t[0]);
      assert Encode(s[1..]) == Encode(s)[|x|..] && Encode(t[1..]) == Encode(t)[|x|..];
      EncodeInjective(s[1..], t[1..]);
      assert s == [s[0]] + s[1..] && t == [t[0]] + t[1..];
    }
  }

  lemma {:induction false} EncodeAppend(s: string, t: string)
    ensures Encode(s + t) == Encode(s) + Encode(t)
  {
    if s == "" {
      assert s + t == t;
    } else {
      assert (s + t)[1..] == s[1..] + t;
      EncodeAppend(s[1..], t);
    }
  }
}

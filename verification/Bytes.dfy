/** Byte strings and the numbers they spell. */
module Bytes {

  type byte = x: int | 0 <= x < 256

  function FromBe(s: seq<byte>): nat {
    if s == [] then 0 else FromBe(s[..|s| - 1]) * 256 + s[|s| - 1]
  }

  function FromLe(s: seq<byte>): nat {
    if s == [] then 0 else s[0] + 256 * FromLe(s[1..])
  }

  function Reversed(s: seq<byte>): (r: seq<byte>)
    ensures |r| == |s|
    ensures forall i :: 0 <= i < |s| ==> r[i] == s[|s| - 1 - i]
  {
    seq(|s|, i requires 0 <= i < |s| => s[|s| - 1 - i])
  }

  lemma {:induction false} ReversedBytes(s: seq<byte>)
    ensures FromLe(Reversed(s)) == FromBe(s)
  {
    if s == [] {
    } else {
      ReversedBytes(s[..|s| - 1]);
      assert Reversed(s)[1..] == Reversed(s[..|s| - 1]);
    }
  }

  lemma {:induction false} LeIsInjective(s: seq<byte>, t: seq<byte>)
    requires |s| == |t| && FromLe(s) == FromLe(t)
    ensures s == t
  {
    if s == [] {
    } else {
      var m, n := FromLe(s[1..]), FromLe(t[1..]);
      assert s[0] + 256 * m == t[0] + 256 * n;
      assert m == n;
      LeIsInjective(s[1..], t[1..]);
      assert s == [s[0]] + s[1..] && t == [t[0]] + t[1..];
    }
  }

  function Pow256(n: nat): (p: nat)
    ensures p >= 1
  {
    if n == 0 then 1 else 256 * Pow256(n - 1)
  }

  lemma {:induction false} Pow256Sum(a: nat, b: nat)
    ensures Pow256(a + b) == Pow256(a) * Pow256(b)
  {
    if a == 0 {
    } else {
      Pow256Sum(a - 1, b);
    }
  }

  lemma Pow256Square(a: nat)
    ensures Pow256(2 * a) == Pow256(a) * Pow256(a)
  {
    Pow256Sum(a, a);
  }

  function ToBe(n: nat, size: nat): (s: seq<byte>)
    ensures |s| == size
  {
    if size == 0 then [] else ToBe(n / 256, size - 1) + [n % 256]
  }

  /** Reading a byte string as a number and writing it back gives the same bytes. */
  lemma {:induction false} BeInverse(s: seq<byte>)
    ensures ToBe(FromBe(s), |s|) == s
  {
    if s == [] {
    } else {
      BeInverse(s[..|s| - 1]);
      assert s == s[..|s| - 1] + [s[|s| - 1]];
    }
  }

  lemma {:induction false} BeIsBounded(s: seq<byte>)
    ensures FromBe(s) < Pow256(|s|)
  {
    if s == [] {
    } else {
      BeIsBounded(s[..|s| - 1]);
    }
  }
}

/** Fixed-width big-endian byte strings, as encoding/binary and math/big read and write them. */
module BigEndian {
  import opened Basics

  function Pow256(n: nat): (p: nat)
    ensures p > 0
  {
    if n == 0 then 1 else 256 * Pow256(n - 1)
  }

  /** The last `n` base-256 digits of `x`, most significant first. */
  function ToBytes(n: nat, x: nat): (s: seq<byte>)
    ensures |s| == n
  {
    if n == 0 then [] else ToBytes(n - 1, x / 256) + [x % 256]
  }

  function FromBytes(s: seq<byte>): nat {
    if s == [] then 0 else FromBytes(s[..|s| - 1]) * 256 + s[|s| - 1]
  }

  lemma {:induction false} FromToBytes(n: nat, x: nat)
    requires x < Pow256(n)
    ensures FromBytes(ToBytes(n, x)) == x
  {
    if n > 0 {
      FromToBytes(n - 1, x / 256);
      assert ToBytes(n, x)[..n - 1] == ToBytes(n - 1, x / 256);
    }
  }

  lemma {:induction false} ToFromBytes(s: seq<byte>)
    ensures FromBytes(s) < Pow256(|s|)
    ensures ToBytes(|s|, FromBytes(s)) == s
  {
    if s != [] {
      var front := s[..|s| - 1];
      ToFromBytes(front);
      assert FromBytes(s) / 256 == FromBytes(front) && FromBytes(s) % 256 == s[|s| - 1];
      assert s == front + [s[|s| - 1]];
    }
  }

  lemma Widths()
    ensures Pow256(4) == TWO_32 && Pow256(8) == TWO_64
  {
    assert Pow256(2) == 0x1_0000 && Pow256(4) == 0x1_0000 * Pow256(2);
    assert Pow256(6) == 0x1_0000 * Pow256(4) && Pow256(8) == 0x1_0000 * Pow256(6);
  }

  lemma Round32(x: uint32)
    ensures FromBytes(ToBytes(4, x)) == x
  {
    Widths();
    FromToBytes(4, x);
  }

  lemma Round64(x: uint64)
    ensures FromBytes(ToBytes(8, x)) == x
  {
    Widths();
    FromToBytes(8, x);
  }

  /** Writes `x` as `n` big-endian bytes at `at`. */
  method Put(buf: array<byte>, at: nat, n: nat, x: nat)
    requires at + n <= buf.Length
    modifies buf
    ensures buf[..at + n] == old(buf[..at]) + ToBytes(n, x)
    ensures forall k :: at + n <= k < buf.Length ==> buf[k] == old(buf[k])
  {
    if n > 0 {
      Put(buf, at, n - 1, x / 256);
      buf[at + n - 1] := x % 256;
      assert buf[..at + n] == buf[..at + n - 1] + [buf[at + n - 1]];
      assert buf[..at + n - 1] == old(buf[..at]) + ToBytes(n - 1, x / 256);
    }
  }
}

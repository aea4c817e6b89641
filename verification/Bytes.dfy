/** Byte strings, 32-byte digests, and the integer forms of the sizes both stored trees use. */
module Bytes {
  type Byte = bv8
  type Bytes = seq<Byte>

  const LEAF_SIZE: nat := 65536
  const CHUNK: nat := 64
  const FIXED_MERKLE_LEAVES: nat := 1024

  type Digest = b: Bytes | |b| == 32 witness seq(32, i => 0)

  /** Any hash function with 32-byte results: every statement below holds of all of them. */
  type Hasher = Bytes -> Digest

  datatype Option<+T> = None | Some(value: T)

  datatype Result<+T, +E> = Ok(value: T) | Err(error: E)

  function Min(a: int, b: int): int { if a < b then a else b }

  /** The digests of one level laid out one after the other. */
  function Flat(level: seq<Digest>): (b: Bytes)
    ensures |b| == 32 * |level|
  {
    if level == [] then [] else level[0] + Flat(level[1..])
  }

  lemma {:induction false} FlatAppend(a: seq<Digest>, b: seq<Digest>)
    ensures Flat(a + b) == Flat(a) + Flat(b)
  {
    if a == [] {
      assert a + b == b;
    } else {
      assert (a + b)[1..] == a[1..] + b;
      FlatAppend(a[1..], b);
      assert a[0] + (Flat(a[1..]) + Flat(b)) == (a[0] + Flat(a[1..])) + Flat(b);
    }
  }

  lemma Assoc<T>(a: seq<T>, b: seq<T>, c: seq<T>)
    ensures a + (b + c) == (a + b) + c
  {}

  lemma FlatPush(a: seq<Digest>, d: Digest)
    ensures Flat(a + [d]) == Flat(a) + d
  {
    FlatAppend(a, [d]);
    assert Flat([d]) == d + Flat([]) == d;
  }

  /** Digest i of a level is found at byte 32 * i. */
  lemma {:induction false} FlatAt(level: seq<Digest>, i: nat)
    requires i < |level|
    ensures Flat(level)[32 * i..32 * i + 32] == level[i]
  {
    if i > 0 {
      FlatAt(level[1..], i - 1);
      var rest := Flat(level[1..]);
      assert Flat(level) == level[0] + rest;
      assert Flat(level)[32 * i..32 * i + 32] == rest[32 * (i - 1)..32 * (i - 1) + 32];
    }
  }

  function Pow2(d: nat): (p: nat)
    ensures p >= 1
  {
    if d == 0 then 1 else 2 * Pow2(d - 1)
  }

  /** The integer form of ceil(log2 n). */
  function CeilLog2(n: nat): nat {
    if n <= 1 then 0 else 1 + CeilLog2((n + 1) / 2)
  }

  lemma {:induction false} CeilLog2Exact(n: nat)
    requires n >= 1
    ensures n <= Pow2(CeilLog2(n))
    ensures n >= 2 ==> Pow2(CeilLog2(n) - 1) < n
  {
    if n >= 2 {
      var h := (n + 1) / 2;
      CeilLog2Exact(h);
      if h >= 2 {
        assert Pow2(CeilLog2(n) - 1) == 2 * Pow2(CeilLog2(h) - 1);
      } else {
        assert n == 2;
      }
    }
  }

  /** Go's built-in copy: as many bytes as both sides allow. */
  method CopyInto(dst: array<Byte>, at: nat, src: Bytes) returns (n: nat)
    requires at <= dst.Length
    modifies dst
    ensures n == Min(dst.Length - at, |src|)
    ensures dst[..at + n] == old(dst[..at]) + src[..n]
    ensures dst[at + n..] == old(dst[at + n..])
  {
    n := Min(dst.Length - at, |src|);
    forall k | 0 <= k < n {
      dst[at + k] := src[k];
    }
  }
}

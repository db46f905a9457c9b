/** Bytes, fixed-width big-endian numbers and the sequence facts the codecs share. */
module Bytes {

  type byte = x: int | 0 <= x < 256

  const U16: nat := 0x1_0000
  const U32: nat := 0x1_0000_0000
  const U64: nat := 0x1_0000_0000_0000_0000

  type u64 = x: int | 0 <= x < U64

  /** `n as u32`. */
  function Low32(n: nat): (r: nat)
    ensures r < U32 && (n < U32 ==> r == n)
  {
    n % 0x1_0000_0000
  }

  /** Wrap-around of `usize` arithmetic. */
  function Low64(n: nat): (r: nat)
    ensures r < U64 && (n < U64 ==> r == n)
  {
    n % 0x1_0000_0000_0000_0000
  }

  function Min(a: nat, b: nat): nat { if a < b then a else b }

  datatype Option<+T> = None | Some(value: T)

  /** A call that can succeed, return an error, or abort the thread. */
  datatype Outcome<+T, +E> = Ok(value: T) | Err(error: E) | Panic

  ghost function Pow256(n: nat): nat {
    if n == 0 then 1 else 256 * Pow256(n - 1)
  }

  /** The low `n` bytes of `v`, most significant first (`to_be_bytes` after a truncating cast). */
  function ToBytes(v: nat, n: nat): (s: seq<byte>)
    ensures |s| == n
  {
    if n == 0 then [] else ToBytes(v / 256, n - 1) + [v % 256]
  }

  function FromBytes(s: seq<byte>): (v: nat) {
    if s == [] then 0 else 256 * FromBytes(s[..|s| - 1]) + s[|s| - 1]
  }

  lemma {:induction false} FromToBytes(v: nat, n: nat)
    requires v < Pow256(n)
    ensures FromBytes(ToBytes(v, n)) == v
  {
    if n > 0 {
      FromToBytes(v / 256, n - 1);
      assert ToBytes(v, n)[..n - 1] == ToBytes(v / 256, n - 1);
    }
  }

  lemma {:induction false} ToFromBytes(s: seq<byte>)
    ensures FromBytes(s) < Pow256(|s|)
    ensures ToBytes(FromBytes(s), |s|) == s
  {
    if s != [] {
      ToFromBytes(s[..|s| - 1]);
      assert s == s[..|s| - 1] + [s[|s| - 1]];
    }
  }

  /** A small number in a wide field is the narrow encoding after zero bytes. */
  lemma {:induction false} ToBytesPadded(v: nat, k: nat, n: nat)
    requires v < Pow256(n)
    ensures ToBytes(v, k + n) == ToBytes(0, k) + ToBytes(v, n)
  {
    if n == 0 {
      assert v == 0 && k + n == k;
    } else {
      ToBytesPadded(v / 256, k, n - 1);
    }
  }

  lemma Pow256Values()
    ensures Pow256(1) == 256 && Pow256(2) == U16 && Pow256(4) == U32 && Pow256(8) == U64
    ensures Pow256(16) == U64 * U64
    ensures Pow256(20) == U64 * U64 * U32
    ensures Pow256(32) == U64 * U64 * U64 * U64
  {
    assert Pow256(2) == U16;
    assert Pow256(4) == U32;
    assert Pow256(6) == U16 * U32;
    assert Pow256(8) == U64;
    Pow256Add(8, 8);
    Pow256Add(16, 4);
    Pow256Add(16, 16);
  }

  lemma {:induction false} Pow256Add(m: nat, n: nat)
    ensures Pow256(m + n) == Pow256(m) * Pow256(n)
  {
    if n > 0 {
      Pow256Add(m, n - 1);
    }
  }

  ghost function Concat<T>(parts: seq<seq<T>>): seq<T> {
    if parts == [] then [] else parts[0] + Concat(parts[1..])
  }

  lemma Associate<T>(a: seq<T>, b: seq<T>, c: seq<T>)
    ensures a + (b + c) == a + b + c
  {
  }

  lemma PrefixBehind<T>(a: seq<T>, x: seq<T>, y: seq<T>)
    requires a + x <= a + y
    ensures x <= y
  {
    assert x == (a + x)[|a|..] && y == (a + y)[|a|..];
    assert a + x == (a + y)[..|a| + |x|];
  }

  lemma Regroup<T>(a: seq<T>, s: seq<T>, k: nat)
    requires s != [] && k < |s|
    ensures a + [s[0]] + s[1..][..k] == a + s[..k + 1]
    ensures s[1..][k..] == s[k + 1..]
    ensures a + [s[0]] + s[1..] == a + s
  {
  }

  lemma {:induction false} ConcatAppend<T>(a: seq<seq<T>>, b: seq<seq<T>>)
    ensures Concat(a + b) == Concat(a) + Concat(b)
  {
    if a == [] {
      assert a + b == b;
    } else {
      assert (a + b)[1..] == a[1..] + b;
      ConcatAppend(a[1..], b);
    }
  }
}

/**
 * The repeating-key XOR that both the bot and the installer apply to the
 * UTF-8 bytes of a JSON document: byte `i` is XORed with `key[i % len(key)]`.
 * Bitwise XOR on bytes is written out in arithmetic, one bit at a time.
 */
module Cipher {
  import opened Common

  function Pow2(n: nat): (r: nat)
    ensures r >= 1
  {
    if n == 0 then 1 else 2 * Pow2(n - 1)
  }

  /** Bitwise XOR of the low `n` bits of `a` and `b`. */
  function XorBits(a: nat, b: nat, n: nat): nat
    decreases n
  {
    if n == 0 then 0
    else 2 * XorBits(a / 2, b / 2, n - 1) + (if a % 2 == b % 2 then 0 else 1)
  }

  /** The XOR of `n` bits fits in `n` bits. */
  lemma {:induction false} XorBitsBound(a: nat, b: nat, n: nat)
    ensures XorBits(a, b, n) < Pow2(n)
    decreases n
  {
    if n > 0 {
      XorBitsBound(a / 2, b / 2, n - 1);
    }
  }

  /** XORing twice with the same `b` gives back any `n`-bit `a`. */
  lemma {:induction false} XorBitsInvolution(a: nat, b: nat, n: nat)
    requires a < Pow2(n)
    ensures XorBits(XorBits(a, b, n), b, n) == a
    decreases n
  {
    if n > 0 {
      var y := XorBits(a / 2, b / 2, n - 1);
      var x := XorBits(a, b, n);
      assert x / 2 == y && x % 2 == (if a % 2 == b % 2 then 0 else 1);
      XorBitsInvolution(a / 2, b / 2, n - 1);
    }
  }

  /** Python's `a ^ b` on two bytes. */
  function Xor(a: byte, b: byte): (r: byte)
  {
    XorBitsBound(a, b, 8);
    XorBits(a, b, 8)
  }

  lemma XorInvolution(a: byte, b: byte)
    ensures Xor(Xor(a, b), b) == a
  {
    XorBitsInvolution(a, b, 8);
  }

  /** The key byte that meets data byte `i`. */
  function KeyAt(key: seq<byte>, i: nat): byte
    requires |key| > 0
  {
    key[i % |key|]
  }

  /** The whole XOR stream: every byte of `data` XORed with the key byte at its position. */
  function XorStream(data: seq<byte>, key: seq<byte>): seq<byte>
    requires |key| > 0
  {
    seq(|data|, i requires 0 <= i < |data| => Xor(data[i], KeyAt(key, i)))
  }

  /**
   * The loop of `encrypt_configuration`, `decrypt_configuration` and the
   * installer's `encrypt_data`: a `bytearray` grown by one XORed byte per
   * input byte.
   */
  method XorBytes(data: seq<byte>, key: seq<byte>) returns (out: seq<byte>)
    requires |key| > 0
    ensures |out| == |data|
    ensures forall i :: 0 <= i < |data| ==> out[i] == Xor(data[i], key[i % |key|])
  {
    out := [];
    var i := 0;
    while i < |data|
      invariant 0 <= i <= |data|
      invariant |out| == i
      invariant forall j :: 0 <= j < i ==> out[j] == Xor(data[j], key[j % |key|])
    {
      out := out + [Xor(data[i], key[i % |key|])];
      i := i + 1;
    }
  }

  /** What `XorBytes` returns is the stream. */
  lemma XorBytesIsStream(data: seq<byte>, key: seq<byte>, out: seq<byte>)
    requires |key| > 0 && |out| == |data|
    requires forall i :: 0 <= i < |data| ==> out[i] == Xor(data[i], key[i % |key|])
    ensures out == XorStream(data, key)
  {
  }

  /** Decryption inverts encryption, byte for byte, for any non-empty key. */
  lemma XorStreamInvolution(data: seq<byte>, key: seq<byte>)
    requires |key| > 0
    ensures |XorStream(data, key)| == |data|
    ensures XorStream(XorStream(data, key), key) == data
  {
    var once := XorStream(data, key);
    forall i | 0 <= i < |data|
      ensures XorStream(once, key)[i] == data[i]
    {
      XorInvolution(data[i], KeyAt(key, i));
    }
  }
}

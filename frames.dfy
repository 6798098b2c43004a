/** Frame codec of the STM32 ROM bootloader client: XOR checksums, checksummed
    frames and the big-endian integer encoding used for addresses and counts. */
module Frames {

  import Arith
  import Bits

  /** One byte on the wire. */
  newtype byte = x: int | 0 <= x < 256

  datatype Option<T> = None | Some(value: T)

  /** Bitwise exclusive or of two bytes. */
  function Xor(a: byte, b: byte): byte
  {
    assert Bits.Pow2(8) == 256;
    Bits.XorBits(a as nat, b as nat, 8) as byte
  }

  /** The byte whose value is `k`. */
  function ToByte(k: nat): (b: byte)
    requires k < 256
    ensures b as nat == k
  {
    k as byte
  }

  /** Reference definition: the XOR of all bytes of `s` (0 for no bytes). */
  function XorAll(s: seq<byte>): byte
  {
    if s == [] then 0 else Xor(s[0], XorAll(s[1..]))
  }

  /** `reduce(operator.xor, data)`: a left fold, which has no value for an empty list. */
  function Reduce(data: seq<byte>): byte
    requires |data| > 0
  {
    if |data| == 1 then data[0] else Xor(Reduce(data[..|data| - 1]), data[|data| - 1])
  }

  /** `cksum(data, xtra)`: `xtra ^ reduce(operator.xor, data)`. */
  function Checksum(data: seq<byte>, seed: byte): byte
    requires |data| > 0
  {
    Xor(seed, Reduce(data))
  }

  /** The bytes `sendcksum` writes: the payload followed by its checksum. */
  function Frame(payload: seq<byte>, seed: byte): seq<byte>
    requires |payload| > 0
  {
    payload + [Checksum(payload, seed)]
  }

  /** The checksum is the seed XORed with the reference XOR of all payload
      bytes, `XorAll`. */
  lemma ChecksumIsXorAll(data: seq<byte>, seed: byte)
    requires |data| > 0
    ensures Checksum(data, seed) == Xor(seed, XorAll(data))
  {
    ReduceIsXorAll(data);
  }

  /** What the bootloader checks: the XOR of a whole frame, checksum byte
      included, is the seed. */
  lemma FrameValid(payload: seq<byte>, seed: byte)
    requires |payload| > 0
    ensures XorAll(Frame(payload, seed)) == seed
  {
    var c := Checksum(payload, seed);
    ChecksumIsXorAll(payload, seed);
    XorAllAppend(payload, c);
    XorCancel(XorAll(payload), seed);
  }

  /** Concatenation regroups (stated once so that proofs need not rediscover it). */
  lemma AppendAssoc<T>(a: seq<T>, b: seq<T>, c: seq<T>)
    ensures a + (b + c) == (a + b) + c
  {
  }

  lemma XorCancel(x: byte, seed: byte)
    ensures Xor(x, Xor(seed, x)) == seed
  {
    XorComm(seed, x);
    XorAssoc(x, x, seed);
    Bits.XorBitsSelf(x as nat, 8);
    XorComm(0, seed);
    XorZero(seed);
  }

  lemma XorComm(a: byte, b: byte)
    ensures Xor(a, b) == Xor(b, a)
  {
    Bits.XorBitsComm(a as nat, b as nat, 8);
  }

  lemma XorAssoc(a: byte, b: byte, c: byte)
    ensures Xor(Xor(a, b), c) == Xor(a, Xor(b, c))
  {
    Bits.XorBitsAssoc(a as nat, b as nat, c as nat, 8);
  }

  lemma XorZero(a: byte)
    ensures Xor(a, 0) == a
  {
    Bits.XorBitsZero(a as nat, 8);
    assert Bits.Pow2(8) == 256;
    Arith.ModUnique(a as nat, 256, 0, a as nat);
  }

  lemma XorRotate(a: byte, b: byte, c: byte)
    ensures Xor(Xor(a, b), c) == Xor(a, Xor(b, c))
    ensures Xor(Xor(a, c), b) == Xor(Xor(a, b), c)
    ensures Xor(a, Xor(b, c)) == Xor(Xor(a, b), c)
  {
    XorAssoc(a, b, c);
    XorAssoc(a, c, b);
    XorComm(b, c);
  }

  lemma XorAllCons(a: byte, rest: seq<byte>)
    ensures XorAll([a] + rest) == Xor(a, XorAll(rest))
  {
    assert ([a] + rest)[1..] == rest;
  }

  lemma {:induction false} XorAllAppend(s: seq<byte>, b: byte)
    ensures XorAll(s + [b]) == Xor(XorAll(s), b)
  {
    if s == [] {
      XorAllCons(b, []);
      XorZero(b);
      XorComm(0, b);
    } else {
      assert XorAll(s + [b]) == Xor(s[0], Xor(XorAll(s[1..]), b)) by {
        assert s + [b] == [s[0]] + (s[1..] + [b]);
        XorAllCons(s[0], s[1..] + [b]);
        XorAllAppend(s[1..], b);
      }
      assert XorAll(s) == Xor(s[0], XorAll(s[1..])) by {
        assert s == [s[0]] + s[1..];
        XorAllCons(s[0], s[1..]);
      }
      XorRotate(s[0], XorAll(s[1..]), b);
    }
  }

  /** The left fold of `cksum` agrees with the reference XOR of all bytes. */
  lemma {:induction false} ReduceIsXorAll(data: seq<byte>)
    requires |data| > 0
    ensures Reduce(data) == XorAll(data)
  {
    if |data| == 1 {
      assert data == [data[0]] + [];
      XorAllCons(data[0], []);
      XorZero(data[0]);
    } else {
      var init := data[..|data| - 1];
      ReduceIsXorAll(init);
      XorAllAppend(init, data[|data| - 1]);
      assert init + [data[|data| - 1]] == data;
    }
  }

  /** Flipping bits of one payload byte flips the same bits of the XOR. */
  lemma {:induction false} XorAllFlip(s: seq<byte>, i: nat, m: byte)
    requires i < |s|
    ensures XorAll(s[i := Xor(s[i], m)]) == Xor(XorAll(s), m)
  {
    var a, x := s[0], XorAll(s[1..]);
    assert XorAll(s) == Xor(a, x) by {
      assert s == [a] + s[1..];
      XorAllCons(a, s[1..]);
    }
    if i == 0 {
      assert XorAll(s[i := Xor(s[i], m)]) == Xor(Xor(a, m), x) by {
        assert s[i := Xor(s[i], m)] == [Xor(a, m)] + s[1..];
        XorAllCons(Xor(a, m), s[1..]);
      }
      XorRotate(a, x, m);
    } else {
      assert XorAll(s[i := Xor(s[i], m)]) == Xor(a, Xor(x, m)) by {
        var t := s[1..][i - 1 := Xor(s[i], m)];
        assert s[i := Xor(s[i], m)] == [a] + t;
        XorAllFlip(s[1..], i - 1, m);
        XorAllCons(a, t);
      }
      XorRotate(a, x, m);
    }
  }

  /** XOR linearity of the checksum: flipping bits `m` of one payload byte
      flips exactly the bits `m` of the checksum. */
  lemma ChecksumFlip(data: seq<byte>, seed: byte, i: nat, m: byte)
    requires i < |data|
    ensures Checksum(data[i := Xor(data[i], m)], seed) == Xor(Checksum(data, seed), m)
  {
    ChecksumIsXorAll(data, seed);
    ChecksumIsXorAll(data[i := Xor(data[i], m)], seed);
    XorAllFlip(data, i, m);
    XorRotate(seed, XorAll(data), m);
  }

  /** A one-byte opcode frame is the opcode followed by its complement. */
  lemma OpcodeFrame(op: byte)
    ensures Frame([op], 0xff) == [op, 255 - op]
  {
    ChecksumIsXorAll([op], 0xff);
    XorAllCons(op, []);
    XorZero(op);
    XorComm(0xff, op);
    Bits.XorBitsOnes(op as nat, 8);
  }

  /** 256 to the power `n`. */
  function Pow256(n: nat): (p: nat)
    ensures p > 0
  {
    if n == 0 then 1 else 256 * Pow256(n - 1)
  }

  /** The last `n` bytes of the big-endian encoding of `i`, most significant first. */
  function BigEndian(i: nat, n: nat): (s: seq<byte>)
    ensures |s| == n
  {
    if n == 0 then [] else BigEndian(i / 256, n - 1) + [ToByte(i % 256)]
  }

  /** Reads a big-endian byte string back as a number. */
  function FromBigEndian(s: seq<byte>): nat
  {
    if s == [] then 0 else FromBigEndian(s[..|s| - 1]) * 256 + s[|s| - 1] as nat
  }

  /** Python's `s[-n:]`: the whole of `s` when `n` is 0 or at least `|s|`. */
  function TakeLast<T>(s: seq<T>, n: nat): seq<T>
  {
    if n == 0 || n >= |s| then s else s[|s| - n..]
  }

  /** `i2nbytes(i, n)`: `struct.pack('>Q', i)[-n:]`; the packing fails (`None`)
      unless `i` fits in an unsigned 64-bit integer. */
  function I2NBytes(i: int, n: nat): (r: Option<seq<byte>>)
    ensures r.Some? <==> 0 <= i < Pow256(8)
    ensures r.Some? && 1 <= n <= 8 ==> r.value == BigEndian(i, n)
    ensures r.Some? && (n == 0 || n >= 8) ==> r.value == BigEndian(i, 8)
  {
    if 0 <= i < Pow256(8) then
      if 1 <= n <= 8 then BigEndianSuffix(i, 8, n); Some(TakeLast(BigEndian(i, 8), n))
      else Some(TakeLast(BigEndian(i, 8), n))
    else None
  }

  /** The last `k` bytes of an `n`-byte encoding are the `k`-byte encoding. */
  lemma {:induction false} BigEndianSuffix(i: nat, n: nat, k: nat)
    requires k <= n
    ensures BigEndian(i, n)[n - k..] == BigEndian(i, k)
  {
    if k == 0 {
    } else if k == n {
    } else {
      BigEndianSuffix(i / 256, n - 1, k - 1);
      assert BigEndian(i, n)[n - k..] == BigEndian(i / 256, n - 1)[n - k..] + [ToByte(i % 256)];
    }
  }

  /** Decoding an `n`-byte encoding gives the number modulo 256^n. */
  lemma {:induction false} BigEndianRoundTrip(i: nat, n: nat)
    ensures FromBigEndian(BigEndian(i, n)) == i % Pow256(n)
  {
    if n > 0 {
      var s := BigEndian(i, n);
      assert FromBigEndian(s) == FromBigEndian(BigEndian(i / 256, n - 1)) * 256 + i % 256 by {
        assert s[..n - 1] == BigEndian(i / 256, n - 1);
        assert s[n - 1] as nat == i % 256;
      }
      BigEndianRoundTrip(i / 256, n - 1);
      Arith.DivMod(i, 256, Pow256(n - 1));
    }
  }

  /** Encoding a number that fits in `n` bytes and decoding it gives it back. */
  lemma I2NBytesRoundTrip(i: int, n: nat)
    requires 1 <= n <= 8 && 0 <= i < Pow256(n)
    ensures I2NBytes(i, n).Some? && FromBigEndian(I2NBytes(i, n).value) == i
  {
    PowMono(n, 8);
    BigEndianRoundTrip(i, n);
    Arith.ModUnique(i, Pow256(n), 0, i);
  }

  lemma {:induction false} PowMono(m: nat, n: nat)
    requires m <= n
    ensures Pow256(m) <= Pow256(n)
  {
    if m < n {
      PowMono(m, n - 1);
    }
  }
}
